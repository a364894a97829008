/**
 * The Home page's derived values: income and expense totals, the balance,
 * the date-range filter and the newest-first ordering of the records.
 * All of them are pure functions of the record list the page holds.
 */
module Home {
  import opened Wrappers
  import opened Records

  /** `.filter(e => e.type === kind)`, keeping the list's order. */
  function OfKind(xs: seq<ExpenseDocument>, kind: Kind): (r: seq<ExpenseDocument>)
    ensures |r| <= |xs|
    ensures forall e :: e in r <==> e in xs && e.kind == kind
  {
    if xs == [] then []
    else (if xs[0].kind == kind then [xs[0]] else []) + OfKind(xs[1..], kind)
  }

  /** `.reduce((total, e) => total + (e.amount || 0), 0)`. */
  function SumAmounts(xs: seq<ExpenseDocument>): real
  {
    if xs == [] then 0.0 else AmountOrZero(xs[0].amount) + SumAmounts(xs[1..])
  }

  /** Every amount present is non-negative. */
  predicate NonNegativeAmounts(xs: seq<ExpenseDocument>)
  {
    forall i :: 0 <= i < |xs| ==> AmountOrZero(xs[i].amount) >= 0.0
  }

  /** Dropping the first record keeps every amount non-negative. */
  lemma NonNegativeTail(xs: seq<ExpenseDocument>)
    requires xs != []
    ensures NonNegativeAmounts(xs) ==> NonNegativeAmounts(xs[1..])
  {
    if NonNegativeAmounts(xs) {
      forall i | 0 <= i < |xs[1..]| ensures AmountOrZero(xs[1..][i].amount) >= 0.0 {
        assert xs[1..][i] == xs[i + 1];
      }
    }
  }

  /** `totalIncome`: the amounts of the income records, a missing amount counting 0. */
  function TotalIncome(xs: seq<ExpenseDocument>): (r: real)
    ensures NonNegativeAmounts(xs) ==> r >= 0.0
    ensures (forall e :: e in xs ==> e.kind == Expense) ==> r == 0.0
  {
    OfKindSum(xs, Income);
    SumAmounts(OfKind(xs, Income))
  }

  /** `totalExpenses`: the amounts of the expense records, a missing amount counting 0. */
  function TotalExpenses(xs: seq<ExpenseDocument>): (r: real)
    ensures NonNegativeAmounts(xs) ==> r >= 0.0
    ensures (forall e :: e in xs ==> e.kind == Income) ==> r == 0.0
  {
    OfKindSum(xs, Expense);
    SumAmounts(OfKind(xs, Expense))
  }

  /** `actualBalance`: income minus expenses. */
  function ActualBalance(xs: seq<ExpenseDocument>): (r: real)
    ensures NonNegativeAmounts(xs) && (forall e :: e in xs ==> e.kind == Income) ==> r >= 0.0
    ensures NonNegativeAmounts(xs) && (forall e :: e in xs ==> e.kind == Expense) ==> r <= 0.0
  {
    TotalIncome(xs) - TotalExpenses(xs)
  }

  /** A record's contribution to the balance: its amount, negated for an expense. */
  function SignedAmount(e: ExpenseDocument): real
  {
    if e.kind == Income then AmountOrZero(e.amount) else -AmountOrZero(e.amount)
  }

  lemma {:induction false} OfKindSum(xs: seq<ExpenseDocument>, kind: Kind)
    ensures NonNegativeAmounts(xs) ==> SumAmounts(OfKind(xs, kind)) >= 0.0
    ensures (forall e :: e in xs ==> e.kind != kind) ==> SumAmounts(OfKind(xs, kind)) == 0.0
  {
    if xs != [] {
      OfKindSum(xs[1..], kind);
      assert forall e :: e in xs[1..] ==> e in xs;
      if xs[0].kind == kind {
        assert OfKind(xs, kind) == [xs[0]] + OfKind(xs[1..], kind);
        assert (OfKind(xs, kind))[1..] == OfKind(xs[1..], kind);
      } else {
        assert OfKind(xs, kind) == OfKind(xs[1..], kind);
      }
      NonNegativeTail(xs);
    }
  }

  /** The filter by type keeps each record of that type as many times as it occurs, and no other. */
  lemma {:induction false} OfKindCounts(xs: seq<ExpenseDocument>, kind: Kind)
    ensures forall e :: multiset(OfKind(xs, kind))[e] == if e.kind == kind then multiset(xs)[e] else 0
  {
    if xs != [] {
      OfKindCounts(xs[1..], kind);
      assert xs == [xs[0]] + xs[1..];
    }
  }

  lemma {:induction false} OfKindAppend(xs: seq<ExpenseDocument>, ys: seq<ExpenseDocument>, kind: Kind)
    ensures OfKind(xs + ys, kind) == OfKind(xs, kind) + OfKind(ys, kind)
  {
    if xs != [] {
      assert (xs + ys)[1..] == xs[1..] + ys;
      OfKindAppend(xs[1..], ys, kind);
    } else {
      assert xs + ys == ys;
    }
  }

  lemma {:induction false} SumAppend(xs: seq<ExpenseDocument>, ys: seq<ExpenseDocument>)
    ensures SumAmounts(xs + ys) == SumAmounts(xs) + SumAmounts(ys)
  {
    if xs != [] {
      assert (xs + ys)[1..] == xs[1..] + ys;
      SumAppend(xs[1..], ys);
    } else {
      assert xs + ys == ys;
    }
  }

  /** The balance of two lists joined is the sum of their balances. */
  lemma {:induction false} BalanceOfAppend(xs: seq<ExpenseDocument>, ys: seq<ExpenseDocument>)
    ensures ActualBalance(xs + ys) == ActualBalance(xs) + ActualBalance(ys)
  {
    OfKindAppend(xs, ys, Income);
    OfKindAppend(xs, ys, Expense);
    SumAppend(OfKind(xs, Income), OfKind(ys, Income));
    SumAppend(OfKind(xs, Expense), OfKind(ys, Expense));
  }

  /** The balance is the sum of each record's signed amount. */
  lemma {:induction false} BalanceIsSignedSum(xs: seq<ExpenseDocument>)
    ensures xs == [] ==> ActualBalance(xs) == 0.0
    ensures xs != [] ==> ActualBalance(xs) == SignedAmount(xs[0]) + ActualBalance(xs[1..])
  {
    if xs != [] {
      assert xs == [xs[0]] + xs[1..];
      BalanceOfAppend([xs[0]], xs[1..]);
      assert OfKind([xs[0]], Income) == (if xs[0].kind == Income then [xs[0]] else []);
      assert OfKind([xs[0]], Expense) == (if xs[0].kind == Expense then [xs[0]] else []);
    }
  }

  /** Every record is income or expense, so the two totals add up to all the amounts. */
  lemma {:induction false} TotalsCoverAll(xs: seq<ExpenseDocument>)
    ensures TotalIncome(xs) + TotalExpenses(xs) == SumAmounts(xs)
  {
    if xs != [] {
      TotalsCoverAll(xs[1..]);
      var x := xs[0];
      var inc, exp := OfKind(xs[1..], Income), OfKind(xs[1..], Expense);
      if x.kind == Income {
        assert OfKind(xs, Income) == [x] + inc;
        assert ([x] + inc)[1..] == inc;
        assert OfKind(xs, Expense) == exp;
      } else {
        assert OfKind(xs, Expense) == [x] + exp;
        assert ([x] + exp)[1..] == exp;
        assert OfKind(xs, Income) == inc;
      }
    }
  }

  /** A record is kept by a bounded range iff its effective date parses and lies within both bounds. */
  predicate InRange(e: ExpenseDocument, start: int, end: int, rt: Runtime)
  {
    match EffectiveTime(e, rt)
    case Some(t) => start <= t <= end
    case None => false
  }

  /** `expenses.filter(...)` with the inclusive bounds test, keeping the list's order. */
  function KeepInRange(xs: seq<ExpenseDocument>, start: int, end: int, rt: Runtime): (r: seq<ExpenseDocument>)
    ensures |r| <= |xs|
  {
    if xs == [] then []
    else (if InRange(xs[0], start, end, rt) then [xs[0]] else []) + KeepInRange(xs[1..], start, end, rt)
  }

  /** `a` is `b` with some elements removed and the rest in their order. */
  predicate IsSubsequence(a: seq<ExpenseDocument>, b: seq<ExpenseDocument>)
    decreases |b|
  {
    if a == [] then true
    else if b == [] then false
    else if a[0] == b[0] then IsSubsequence(a[1..], b[1..])
    else IsSubsequence(a, b[1..])
  }

  /**
   * `handleDateFilter(startDate, endDate)`: with no start bound, every record;
   * otherwise the records whose effective date lies in [start, end].
   */
  function FilterByDate(expenses: seq<ExpenseDocument>, start: Option<int>, end: int, rt: Runtime)
    : seq<ExpenseDocument>
  {
    match start
    case None => expenses
    case Some(s) => KeepInRange(expenses, s, end, rt)
  }

  /** With no start bound the whole collection comes back unchanged. */
  lemma FilterWithoutStartKeepsAll(expenses: seq<ExpenseDocument>, end: int, rt: Runtime)
    ensures FilterByDate(expenses, None, end, rt) == expenses
  {
  }

  /**
   * A bounded filter keeps each in-range record as many times as it occurs
   * and drops every other one.
   */
  lemma {:induction false} FilterKeepsExactlyInRange(xs: seq<ExpenseDocument>, start: int, end: int, rt: Runtime)
    ensures forall e :: multiset(FilterByDate(xs, Some(start), end, rt))[e] ==
                        if InRange(e, start, end, rt) then multiset(xs)[e] else 0
    ensures forall e :: e in FilterByDate(xs, Some(start), end, rt) <==> e in xs && InRange(e, start, end, rt)
  {
    if xs != [] {
      FilterKeepsExactlyInRange(xs[1..], start, end, rt);
      assert xs == [xs[0]] + xs[1..];
    }
  }

  /** The filtered list is the original with records dropped, order kept. */
  lemma {:induction false} FilterIsSubsequence(xs: seq<ExpenseDocument>, start: Option<int>, end: int, rt: Runtime)
    ensures IsSubsequence(FilterByDate(xs, start, end, rt), xs)
  {
    match start
    case None => SubsequenceReflexive(xs);
    case Some(s) => KeepIsSubsequence(xs, s, end, rt);
  }

  lemma {:induction false} SubsequenceReflexive(xs: seq<ExpenseDocument>)
    ensures IsSubsequence(xs, xs)
  {
    if xs != [] { SubsequenceReflexive(xs[1..]); }
  }

  lemma {:induction false} KeepIsSubsequence(xs: seq<ExpenseDocument>, start: int, end: int, rt: Runtime)
    ensures IsSubsequence(KeepInRange(xs, start, end, rt), xs)
  {
    if xs != [] {
      KeepIsSubsequence(xs[1..], start, end, rt);
      var rest := KeepInRange(xs[1..], start, end, rt);
      if InRange(xs[0], start, end, rt) {
        assert KeepInRange(xs, start, end, rt) == [xs[0]] + rest;
        assert ([xs[0]] + rest)[1..] == rest;
      } else {
        assert KeepInRange(xs, start, end, rt) == rest;
        SubsequenceOfTail(rest, xs);
      }
    }
  }

  /** A subsequence of the tail is a subsequence of the whole list. */
  lemma {:induction false} SubsequenceOfTail(a: seq<ExpenseDocument>, b: seq<ExpenseDocument>)
    requires b != []
    requires IsSubsequence(a, b[1..])
    ensures IsSubsequence(a, b)
    decreases |b|, 0
  {
    if a != [] && a[0] == b[0] {
      // a[0] == b[0]; a[1..] is a subsequence of b[1..] since a is.
      SubsequenceDropHead(a, b[1..]);
    }
  }

  /** Dropping the first element of a subsequence keeps it a subsequence. */
  lemma {:induction false} SubsequenceDropHead(a: seq<ExpenseDocument>, b: seq<ExpenseDocument>)
    requires a != []
    requires IsSubsequence(a, b)
    ensures IsSubsequence(a[1..], b)
    decreases |b|, 1
  {
    assert b != [];
    if a[0] == b[0] {
      SubsequenceOfTail(a[1..], b);
    } else {
      SubsequenceDropHead(a, b[1..]);
      SubsequenceOfTail(a[1..], b);
    }
  }

  /** Filtering an already filtered list with the same bounds changes nothing. */
  lemma {:induction false} FilterIdempotent(xs: seq<ExpenseDocument>, start: Option<int>, end: int, rt: Runtime)
    ensures FilterByDate(FilterByDate(xs, start, end, rt), start, end, rt) == FilterByDate(xs, start, end, rt)
  {
    match start
    case None =>
    case Some(s) => KeepIdempotent(xs, s, end, rt);
  }

  lemma {:induction false} KeepIdempotent(xs: seq<ExpenseDocument>, start: int, end: int, rt: Runtime)
    ensures KeepInRange(KeepInRange(xs, start, end, rt), start, end, rt) == KeepInRange(xs, start, end, rt)
  {
    if xs != [] {
      KeepIdempotent(xs[1..], start, end, rt);
      var rest := KeepInRange(xs[1..], start, end, rt);
      if InRange(xs[0], start, end, rt) {
        assert KeepInRange(xs, start, end, rt) == [xs[0]] + rest;
        assert ([xs[0]] + rest)[1..] == rest;
      } else {
        assert KeepInRange(xs, start, end, rt) == rest;
      }
    }
  }

  /** The sort key of `sortedExpenses`: the effective date's time value. */
  function SortKey(e: ExpenseDocument, rt: Runtime): Option<int>
  {
    EffectiveTime(e, rt)
  }

  /**
   * `a` may come before `b` in newest-first order: a later or equal date, and
   * a record whose date does not parse goes after every record whose date does.
   */
  predicate NewerOrSame(a: Option<int>, b: Option<int>)
  {
    match a
    case None => b.None?
    case Some(x) => b.None? || b.value <= x
  }

  predicate NewestFirst(s: seq<ExpenseDocument>, rt: Runtime)
  {
    forall i, j :: 0 <= i < j < |s| ==> NewerOrSame(SortKey(s[i], rt), SortKey(s[j], rt))
  }

  /** Inserts `x` before the first record it is newer than or as new as. */
  function Insert(x: ExpenseDocument, ys: seq<ExpenseDocument>, rt: Runtime): (r: seq<ExpenseDocument>)
    ensures multiset(r) == multiset(ys) + multiset{x}
    ensures |r| == |ys| + 1
  {
    if ys == [] || NewerOrSame(SortKey(x, rt), SortKey(ys[0], rt)) then
      [x] + ys
    else
      assert ys == [ys[0]] + ys[1..];
      [ys[0]] + Insert(x, ys[1..], rt)
  }

  /** Dropping the newest record of a newest-first list leaves it newest-first. */
  lemma NewestFirstTail(ys: seq<ExpenseDocument>, rt: Runtime)
    requires ys != [] && NewestFirst(ys, rt)
    ensures NewestFirst(ys[1..], rt)
  {
    forall i, j | 0 <= i < j < |ys[1..]|
      ensures NewerOrSame(SortKey(ys[1..][i], rt), SortKey(ys[1..][j], rt))
    {
      assert ys[1..][i] == ys[i + 1] && ys[1..][j] == ys[j + 1];
    }
  }

  lemma NewerOrSameTransitive(a: Option<int>, b: Option<int>, c: Option<int>)
    requires NewerOrSame(a, b) && NewerOrSame(b, c)
    ensures NewerOrSame(a, c)
  {
  }

  /** A record at least as new as every record of a newest-first list can go in front of it. */
  lemma ConsKeepsOrder(y: ExpenseDocument, s: seq<ExpenseDocument>, rt: Runtime)
    requires NewestFirst(s, rt)
    requires forall j :: 0 <= j < |s| ==> NewerOrSame(SortKey(y, rt), SortKey(s[j], rt))
    ensures NewestFirst([y] + s, rt)
  {
    var r := [y] + s;
    forall i, j | 0 <= i < j < |r| ensures NewerOrSame(SortKey(r[i], rt), SortKey(r[j], rt)) {
      assert r[j] == s[j - 1];
      if i > 0 {
        assert r[i] == s[i - 1];
      }
    }
  }

  /** Every record of `Insert(x, ys)` is `x` or a record of `ys`. */
  lemma {:induction false} InsertMembers(x: ExpenseDocument, ys: seq<ExpenseDocument>, rt: Runtime)
    ensures forall z :: z in Insert(x, ys, rt) ==> z == x || z in ys
  {
    if ys != [] && !NewerOrSame(SortKey(x, rt), SortKey(ys[0], rt)) {
      InsertMembers(x, ys[1..], rt);
      assert forall z :: z in ys[1..] ==> z in ys;
    }
  }

  /** Inserting into a newest-first list keeps it newest-first. */
  lemma {:induction false} InsertKeepsOrder(x: ExpenseDocument, ys: seq<ExpenseDocument>, rt: Runtime)
    requires NewestFirst(ys, rt)
    ensures NewestFirst(Insert(x, ys, rt), rt)
  {
    var kx := SortKey(x, rt);
    if ys == [] {
    } else if NewerOrSame(kx, SortKey(ys[0], rt)) {
      forall j | 0 <= j < |ys| ensures NewerOrSame(kx, SortKey(ys[j], rt)) {
        if j > 0 {
          NewerOrSameTransitive(kx, SortKey(ys[0], rt), SortKey(ys[j], rt));
        }
      }
      ConsKeepsOrder(x, ys, rt);
    } else {
      var k0 := SortKey(ys[0], rt);
      NewestFirstTail(ys, rt);
      InsertKeepsOrder(x, ys[1..], rt);
      var rest := Insert(x, ys[1..], rt);
      InsertMembers(x, ys[1..], rt);
      forall j | 0 <= j < |rest| ensures NewerOrSame(k0, SortKey(rest[j], rt)) {
        if rest[j] != x {
          assert rest[j] in ys[1..];
          var m :| 0 <= m < |ys[1..]| && ys[1..][m] == rest[j];
          assert ys[m + 1] == rest[j];
        }
      }
      ConsKeepsOrder(ys[0], rest, rt);
    }
  }

  /**
   * `sortedExpenses`: a copy of the list in newest-first order. The order
   * among records with equal dates is left unstated.
   */
  function SortNewestFirst(xs: seq<ExpenseDocument>, rt: Runtime): (r: seq<ExpenseDocument>)
    ensures multiset(r) == multiset(xs)
    ensures |r| == |xs|
    ensures NewestFirst(r, rt)
  {
    if xs == [] then []
    else
      assert xs == [xs[0]] + xs[1..];
      var rest := SortNewestFirst(xs[1..], rt);
      InsertKeepsOrder(xs[0], rest, rt);
      Insert(xs[0], rest, rt)
  }

  lemma {:induction false} BalanceOfInsert(x: ExpenseDocument, ys: seq<ExpenseDocument>, rt: Runtime)
    ensures ActualBalance(Insert(x, ys, rt)) == SignedAmount(x) + ActualBalance(ys)
  {
    var r := Insert(x, ys, rt);
    BalanceIsSignedSum(r);
    if ys == [] || NewerOrSame(SortKey(x, rt), SortKey(ys[0], rt)) {
      assert r[1..] == ys;
    } else {
      assert r[1..] == Insert(x, ys[1..], rt);
      BalanceOfInsert(x, ys[1..], rt);
      BalanceIsSignedSum(ys);
    }
  }

  /** Sorting the copy does not change the balance it would show. */
  lemma {:induction false} SortKeepsBalance(xs: seq<ExpenseDocument>, rt: Runtime)
    ensures ActualBalance(SortNewestFirst(xs, rt)) == ActualBalance(xs)
  {
    if xs != [] {
      SortKeepsBalance(xs[1..], rt);
      BalanceOfInsert(xs[0], SortNewestFirst(xs[1..], rt), rt);
      BalanceIsSignedSum(xs);
    }
  }
}
