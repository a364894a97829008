/**
 * The Add page: a manual form that creates one record, and a CSV upload
 * that previews a batch of expense records and then creates them in order.
 */
module AddPage {
  import opened Wrappers
  import opened Records

  /** The categories the form's select offers, after the empty "Select a category". */
  const ExpenseCategories: seq<string> := [
    "Food & Dining",
    "Transportation",
    "Shopping",
    "Bills & Utilities",
    "Entertainment",
    "Healthcare",
    "Education",
    "Housing",
    "Other"
  ]

  /** The message shown when the chosen date does not parse. */
  const InvalidDate: string := "Invalid date"

  /** An amount JavaScript treats as true: present, not `NaN` and not zero. */
  predicate Truthy(a: Amount)
  {
    a.Some? && a.value != 0.0
  }

  /**
   * `disabled={!text || !amount || !type}`; the type select always holds
   * "expense" or "income", so only the category and the amount matter.
   */
  function SubmitDisabled(text: string, amount: Amount): (r: bool)
    ensures !r ==> text != "" && amount.Some? && amount.value != 0.0
    ensures amount == Some(0.0) || amount.None? || text == "" ==> r
  {
    text == "" || !Truthy(amount)
  }

  /**
   * `onSubmit`'s record: the entered category, amount and type, and a
   * `customDate` that is "" when no date was chosen and the date's ISO form
   * when one was; a chosen date that does not parse aborts the submission.
   */
  function BuildDraft(text: string, amount: Amount, kind: Kind, date: Option<string>, rt: Runtime)
    : (r: Result<Draft, string>)
    ensures r.Failure? <==> date.Some? && date.value != "" && rt.parse(date.value).None?
    ensures r.Failure? ==> r.error == InvalidDate
    ensures r.Success? ==> r.value.text == Some(text) && r.value.amount == amount && r.value.kind == kind
    ensures r.Success? && (date.None? || date.value == "") ==> r.value.customDate == ""
    ensures r.Success? && date.Some? && date.value != "" ==>
              r.value.customDate == rt.toIso(rt.parse(date.value).value)
  {
    if date.None? || date.value == "" then
      Success(Draft(Some(text), amount, kind, ""))
    else
      match rt.parse(date.value)
      case Some(t) => Success(Draft(Some(text), amount, kind, rt.toIso(t)))
      case None => Failure(InvalidDate)
  }

  /** An enabled submit button with a date that parses, or none, always creates a record. */
  lemma EnabledSubmitCreates(text: string, amount: Amount, kind: Kind, date: Option<string>, rt: Runtime)
    requires !SubmitDisabled(text, amount)
    requires date.None? || date.value == "" || rt.parse(date.value).Some?
    ensures BuildDraft(text, amount, kind, date, rt).Success?
    ensures BuildDraft(text, amount, kind, date, rt).value.text != Some("")
    ensures Truthy(BuildDraft(text, amount, kind, date, rt).value.amount)
  {
  }

  /** `row[i]`: `None` (undefined) past the end of the row. */
  function Cell(row: seq<string>, i: nat): Option<string>
  {
    if i < |row| then Some(row[i]) else None
  }

  /** `new Date(row[0])` as a time value; an undefined cell gives an invalid date. */
  function RowTime(row: seq<string>, rt: Runtime): Option<int>
  {
    match Cell(row, 0)
    case Some(s) => rt.parse(s)
    case None => None
  }

  /** `parseFloat(row[2])`; an undefined cell gives `NaN`. */
  function RowAmount(row: seq<string>, rt: Runtime): Amount
  {
    match Cell(row, 2)
    case Some(s) => rt.parseNumber(s)
    case None => None
  }

  /**
   * One CSV data row as the upload maps it: an expense whose category is
   * column 1, amount column 2 and date column 0. `None` when the date is
   * invalid, where `toISOString` throws.
   */
  function RowToDraft(row: seq<string>, rt: Runtime): (r: Option<Draft>)
    ensures r.None? <==> RowTime(row, rt).None?
    ensures r.Some? ==> && r.value.kind == Expense
                        && r.value.text == Cell(row, 1)
                        && r.value.amount == RowAmount(row, rt)
                        && r.value.customDate == rt.toIso(RowTime(row, rt).value)
  {
    match RowTime(row, rt)
    case Some(t) => Some(Draft(Cell(row, 1), RowAmount(row, rt), Expense, rt.toIso(t)))
    case None => None
  }

  /** `rows.map(...)`: every row mapped in order; one throwing row aborts the whole map. */
  function MapRows(rows: seq<seq<string>>, rt: Runtime): (r: Option<seq<Draft>>)
    ensures r.Some? ==> |r.value| == |rows|
    ensures r.Some? ==> forall i :: 0 <= i < |rows| ==> RowToDraft(rows[i], rt) == Some(r.value[i])
    ensures r.None? <==> exists i :: 0 <= i < |rows| && RowToDraft(rows[i], rt).None?
  {
    if rows == [] then Some([])
    else
      match (RowToDraft(rows[0], rt), MapRows(rows[1..], rt))
      case (Some(d), Some(ds)) =>
        assert forall i :: 1 <= i < |rows| ==> rows[i] == rows[1..][i - 1];
        Some([d] + ds)
      case (None, _) => None
      case (Some(_), None) =>
        assert forall i :: 0 <= i < |rows[1..]| ==> rows[1..][i] == rows[i + 1];
        None
  }

  /**
   * `results.data.slice(1).map(...)`: the header row is dropped and data
   * row i + 1 becomes record i, in order.
   */
  function CsvToDrafts(rows: seq<seq<string>>, rt: Runtime): (r: Option<seq<Draft>>)
    ensures r.Some? ==> |r.value| == if rows == [] then 0 else |rows| - 1
    ensures r.Some? ==> forall i :: 0 <= i < |r.value| ==> RowToDraft(rows[i + 1], rt) == Some(r.value[i])
    ensures r.None? <==> exists i :: 1 <= i < |rows| && RowToDraft(rows[i], rt).None?
  {
    if rows == [] then Some([])
    else
      var r := MapRows(rows[1..], rt);
      assert forall i :: 1 <= i < |rows| ==> rows[i] == rows[1..][i - 1];
      r
  }

  /** Every record the upload produces is an expense. */
  lemma CsvRecordsAreExpenses(rows: seq<seq<string>>, rt: Runtime)
    ensures var r := CsvToDrafts(rows, rt);
            r.Some? ==> forall i :: 0 <= i < |r.value| ==> r.value[i].kind == Expense
  {
    var r := CsvToDrafts(rows, rt);
    if r.Some? {
      forall i | 0 <= i < |r.value| ensures r.value[i].kind == Expense {
        assert RowToDraft(rows[i + 1], rt) == Some(r.value[i]);
      }
    }
  }

  /** The server side of `createExpense`: the records created so far, in order. */
  class ExpenseStore {
    var created: seq<Draft>

    constructor ()
      ensures created == []
    {
      created := [];
    }

    method CreateExpense(d: Draft)
      modifies this
      ensures created == old(created) + [d]
    {
      created := created + [d];
    }
  }

  /** The page's state slots. */
  class AddForm {
    var text: string
    var amount: Amount
    var kind: Kind
    var date: Option<string>
    var csvData: seq<Draft>
    var showCsvPreview: bool

    constructor ()
      ensures text == "" && amount.None? && kind == Expense && date.None?
      ensures csvData == [] && !showCsvPreview
    {
      text := "";
      amount := None;
      kind := Expense;
      date := None;
      csvData := [];
      showCsvPreview := false;
    }

    /**
     * `onSubmit`: an unparsable date aborts with nothing created and the
     * form unchanged; otherwise the record is created and the category,
     * amount and date fields are reset.
     */
    method OnSubmit(store: ExpenseStore, rt: Runtime) returns (created: bool)
      modifies this, store
      ensures var r := BuildDraft(old(text), old(amount), old(kind), old(date), rt);
              created == r.Success?
      ensures var r := BuildDraft(old(text), old(amount), old(kind), old(date), rt);
              r.Success? ==> && store.created == old(store.created) + [r.value]
                             && text == "" && amount == Some(0.0) && date.None?
      ensures !created ==> store.created == old(store.created)
      ensures !created ==> text == old(text) && amount == old(amount) && date == old(date)
      ensures kind == old(kind) && csvData == old(csvData) && showCsvPreview == old(showCsvPreview)
    {
      var r := BuildDraft(text, amount, kind, date, rt);
      if r.Failure? {
        created := false;
        return;
      }
      store.CreateExpense(r.value);
      text := "";
      amount := Some(0.0);
      date := None;
      created := true;
    }

    /**
     * `handleCsvUpload`: with a parsed file, the mapped records become the
     * preview; no file, or a row whose date throws, leaves the state as it was.
     */
    method HandleCsvUpload(file: Option<seq<seq<string>>>, rt: Runtime)
      modifies this
      ensures file.None? || CsvToDrafts(file.value, rt).None? ==>
                csvData == old(csvData) && showCsvPreview == old(showCsvPreview)
      ensures file.Some? && CsvToDrafts(file.value, rt).Some? ==>
                csvData == CsvToDrafts(file.value, rt).value && showCsvPreview
      ensures text == old(text) && amount == old(amount) && kind == old(kind) && date == old(date)
    {
      if file.None? {
        return;
      }
      var parsed := CsvToDrafts(file.value, rt);
      if parsed.Some? {
        csvData := parsed.value;
        showCsvPreview := true;
      }
    }

    /**
     * `handleCsvSubmit`: creates the previewed records one at a time, in
     * list order, and reports how many were added.
     */
    method HandleCsvSubmit(store: ExpenseStore) returns (count: nat)
      modifies store
      ensures store.created == old(store.created) + csvData
      ensures count == |csvData|
    {
      for i := 0 to |csvData|
        invariant store.created == old(store.created) + csvData[..i]
      {
        store.CreateExpense(csvData[i]);
        assert csvData[..i + 1] == csvData[..i] + [csvData[i]];
      }
      assert csvData[..|csvData|] == csvData;
      count := |csvData|;
    }
  }
}
