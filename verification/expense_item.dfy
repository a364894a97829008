/** One record's card in the transaction list. */
module ExpenseItem {
  import opened Records
  import Home

  /**
   * The date string `displayDate` formats: `customDate` when it is set to a
   * non-empty string, otherwise `createdAt`.
   */
  function DisplayDateText(e: ExpenseDocument): (r: string)
    ensures r == EffectiveDateText(e)
  {
    if e.customDate.Some? && e.customDate.value != "" then e.customDate.value else e.createdAt
  }

  /** The sign shown before the amount: "-" for an expense, "+" otherwise. */
  function SignPrefix(kind: Kind): (r: string)
    ensures r == "-" <==> kind == Expense
    ensures r == "+" <==> kind == Income
  {
    match kind
    case Expense => "-"
    case Income => "+"
  }

  /** What the card shows, before the runtime formats the date and the amount. */
  datatype Card = Card(title: string, dateText: string, prefix: string, amount: Amount)

  function CardOf(e: ExpenseDocument): Card
  {
    Card(e.text, DisplayDateText(e), SignPrefix(e.kind), e.amount)
  }

  /**
   * The card's title is the category unchanged, its amount is passed on
   * unchanged, and the sign it shows is the sign the record contributes to
   * the balance on the Home page.
   */
  lemma {:induction false} CardAgreesWithBalance(e: ExpenseDocument)
    ensures CardOf(e).title == e.text
    ensures CardOf(e).amount == e.amount
    ensures CardOf(e).dateText == EffectiveDateText(e)
    ensures Home.ActualBalance([e])
            == if CardOf(e).prefix == "-" then -AmountOrZero(e.amount) else AmountOrZero(e.amount)
  {
    Home.BalanceIsSignedSum([e]);
    Home.BalanceIsSignedSum([]);
    assert [e][1..] == [];
  }
}
