/** Option and Result, for values that may be absent and steps that may fail. */
module Wrappers {

  datatype Option<+T> = None | Some(value: T)
  {
    function GetOr(default: T): T
    {
      match this
      case Some(v) => v
      case None => default
    }
  }

  datatype Result<+R, +E> = Success(value: R) | Failure(error: E)
}

/**
 * The records the expense tracker keeps, and the pieces of the JavaScript
 * runtime the pages lean on for dates and numbers.
 */
module Records {
  import opened Wrappers

  /** The `type` field of a record: `"expense"` or `"income"`. */
  datatype Kind = Expense | Income

  /**
   * An amount as the pages see it: `Some(x)` for a number, `None` for a
   * missing amount or a `NaN` (both are falsy, and both poison a sum).
   */
  type Amount = Option<real>

  /**
   * A stored record (`ExpenseDocument`): `text` is its category, `customDate`
   * the optional user-chosen date and `createdAt` the server's creation
   * timestamp, both as date strings.
   */
  datatype ExpenseDocument = ExpenseDocument(
    id: string,
    text: string,
    amount: Amount,
    kind: Kind,
    customDate: Option<string>,
    createdAt: string)

  /**
   * A record as the Add page sends it to be created (`Expense`): no id and no
   * creation time yet. `text` is `None` when a CSV row has no category cell.
   */
  datatype Draft = Draft(text: Option<string>, amount: Amount, kind: Kind, customDate: string)

  /**
   * The runtime's date and number conversions, which the model does not
   * define: `parse` is `new Date(s).getTime()` (`None` for an invalid date),
   * `toIso` is `toISOString`, and `parseNumber` is `parseFloat` (`None` for `NaN`).
   */
  datatype Runtime = Runtime(
    parse: string -> Option<int>,
    toIso: int -> string,
    parseNumber: string -> Option<real>)

  /** `customDate || createdAt`: the custom date unless it is missing or empty. */
  function EffectiveDateText(e: ExpenseDocument): (r: string)
    ensures e.customDate.Some? && e.customDate.value != "" ==> r == e.customDate.value
    ensures e.customDate.None? || e.customDate.value == "" ==> r == e.createdAt
  {
    match e.customDate
    case Some(s) => if s != "" then s else e.createdAt
    case None => e.createdAt
  }

  /** `new Date(customDate || createdAt)` as a time value; `None` if it does not parse. */
  function EffectiveTime(e: ExpenseDocument, rt: Runtime): Option<int>
  {
    rt.parse(EffectiveDateText(e))
  }

  /** `amount || 0`: a missing or `NaN` amount counts as zero. */
  function AmountOrZero(a: Amount): real
  {
    a.GetOr(0.0)
  }
}
