/** The modal that edits an existing record's category, amount and type. */
module UpdateExpenseModal {
  import opened Wrappers
  import opened Records
  import AddPage

  /** The categories the modal's select offers, after the empty "Select a category". */
  const ExpenseCategories: seq<string> := [
    "Food & Dining",
    "Transportation",
    "Shopping",
    "Bills & Utilities",
    "Entertainment",
    "Healthcare",
    "Education",
    "Housing",
    "Other"
  ]

  /** The modal offers the same nine distinct categories as the Add page. */
  lemma CategoriesMatchAddPage()
    ensures ExpenseCategories == AddPage.ExpenseCategories
    ensures |ExpenseCategories| == 9
    ensures forall i, j :: 0 <= i < j < |ExpenseCategories| ==> ExpenseCategories[i] != ExpenseCategories[j]
  {
  }

  /** The modal's form state: category, amount and type. */
  datatype EditFields = EditFields(text: string, amount: real, kind: Kind)

  /** The fields start as the record's values, a missing or `NaN` amount reading 0. */
  function InitialFields(e: ExpenseDocument): (f: EditFields)
    ensures f.text == e.text && f.kind == e.kind
    ensures e.amount.Some? ==> f.amount == e.amount.value
    ensures e.amount.None? ==> f.amount == 0.0
  {
    EditFields(e.text, AmountOrZero(e.amount), e.kind)
  }

  /** The message shown when the update is refused. */
  const FillInAllFields: string := "Please fill in all fields"

  /**
   * `handleUpdate`: refused when no category is chosen or the amount is
   * undefined (an amount of 0 is accepted); otherwise the record with
   * only its category, amount and type replaced.
   */
  function HandleUpdate(e: ExpenseDocument, text: string, amount: Option<real>, kind: Kind)
    : (r: Result<ExpenseDocument, string>)
    ensures r.Failure? <==> text == "" || amount.None?
    ensures r.Failure? ==> r.error == FillInAllFields
    ensures r.Success? ==>
              && r.value.text == text && r.value.amount == amount && r.value.kind == kind
              && r.value.id == e.id && r.value.customDate == e.customDate && r.value.createdAt == e.createdAt
  {
    if text == "" || amount.None? then Failure(FillInAllFields)
    else Success(e.(text := text, amount := amount, kind := kind))
  }

  /**
   * The modal's amount state is always a number: it starts as
   * `expense.amount || 0`, and the input stores `Number(value)`, which is 0
   * for a cleared input. So an update from the modal's own state is refused
   * exactly when the category is empty.
   */
  lemma ModalRefusesOnlyEmptyCategory(e: ExpenseDocument, f: EditFields)
    ensures HandleUpdate(e, f.text, Some(f.amount), f.kind).Failure? <==> f.text == ""
  {
  }

  /**
   * Opening the modal and pressing Update without editing stores the record
   * as it was, provided it has a category and an amount; a record without a
   * category cannot be saved unedited.
   */
  lemma UnchangedUpdateKeepsRecord(e: ExpenseDocument)
    ensures var f := InitialFields(e);
            e.text != "" && e.amount.Some? ==> HandleUpdate(e, f.text, Some(f.amount), f.kind) == Success(e)
    ensures var f := InitialFields(e);
            e.text == "" ==> HandleUpdate(e, f.text, Some(f.amount), f.kind).Failure?
  {
  }
}
