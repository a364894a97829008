/**
 * The pie chart of expenses by category: a per-category fold over the
 * records, the label, data and colour arrays drawn from it, the tooltip's
 * percentage, and the empty state.
 */
module ExpensePieChart {
  import opened Wrappers
  import opened Records
  import Home
  import AddPage

  /**
   * The reduce's accumulator, a JavaScript object: its keys in insertion
   * order and the value stored under each (`None` for `NaN`).
   */
  datatype Table = Table(keys: seq<string>, values: map<string, Amount>)

  /** The keys are distinct and are exactly the entries of the map. */
  predicate Valid(t: Table)
  {
    && (forall i, j :: 0 <= i < j < |t.keys| ==> t.keys[i] != t.keys[j])
    && (forall k :: k in t.values ==> k in t.keys)
    && (forall i :: 0 <= i < |t.keys| ==> t.keys[i] in t.values)
  }

  /**
   * `acc[k]`: `None` (undefined) for a key that is not an own property;
   * the members `acc` inherits from `Object.prototype` are not modelled.
   */
  function Lookup(t: Table, k: string): Amount
  {
    if k in t.values then t.values[k] else None
  }

  /** `acc[k] = v`: an existing key keeps its place, a new key goes last. */
  function Put(t: Table, k: string, v: Amount): Table
  {
    if k in t.values then Table(t.keys, t.values[k := v])
    else Table(t.keys + [k], t.values[k := v])
  }

  /** Storing under a key keeps the keys distinct and in step with the entries. */
  lemma PutKeepsValid(t: Table, k: string, v: Amount)
    requires Valid(t)
    ensures Valid(Put(t, k, v))
  {
    if k !in t.values {
      var r := Put(t, k, v);
      assert r.keys == t.keys + [k];
      forall i, j | 0 <= i < j < |r.keys| ensures r.keys[i] != r.keys[j] {
        if j == |t.keys| {
          assert r.keys[i] == t.keys[i];
        }
      }
    }
  }

  /** `prev + amount`, where a `NaN` amount makes the sum `NaN`. */
  function AddAmount(prev: real, a: Amount): Amount
  {
    match a
    case Some(x) => Some(prev + x)
    case None => None
  }

  /**
   * One step of the reduce: for an expense,
   * `acc[text] = (acc[text] || 0) + amount`, where a missing, zero or `NaN`
   * entry reads as 0; an income record leaves the accumulator as it was.
   */
  function Step(t: Table, e: ExpenseDocument): Table
  {
    if e.kind == Expense then Put(t, e.text, AddAmount(AmountOrZero(Lookup(t, e.text)), e.amount))
    else t
  }

  /** `categoryTotals`: the reduce over the records, from the empty object. */
  function CategoryTotals(xs: seq<ExpenseDocument>): Table
    decreases |xs|
  {
    if xs == [] then Table([], map[])
    else Step(CategoryTotals(xs[..|xs| - 1]), xs[|xs| - 1])
  }

  /** The accumulator's keys stay distinct and name exactly its entries. */
  lemma {:induction false} CategoryTotalsValid(xs: seq<ExpenseDocument>)
    ensures Valid(CategoryTotals(xs))
    decreases |xs|
  {
    if xs != [] {
      var t := CategoryTotals(xs[..|xs| - 1]);
      var e := xs[|xs| - 1];
      CategoryTotalsValid(xs[..|xs| - 1]);
      if e.kind == Expense {
        PutKeepsValid(t, e.text, AddAmount(AmountOrZero(Lookup(t, e.text)), e.amount));
      }
    }
  }

  lemma CategoryTotalsSnoc(xs: seq<ExpenseDocument>, e: ExpenseDocument)
    ensures CategoryTotals(xs + [e]) == Step(CategoryTotals(xs), e)
  {
    assert (xs + [e])[..|xs|] == xs;
  }

  /**
   * The reduce as the component runs it: one pass over the records,
   * updating the accumulator object in place.
   */
  method ComputeCategoryTotals(expenses: seq<ExpenseDocument>) returns (keys: seq<string>, values: map<string, Amount>)
    ensures Table(keys, values) == CategoryTotals(expenses)
  {
    keys := [];
    values := map[];
    var i := 0;
    while i < |expenses|
      invariant 0 <= i <= |expenses|
      invariant Table(keys, values) == CategoryTotals(expenses[..i])
    {
      var e := expenses[i];
      if e.kind == Expense {
        var prev := if e.text in values then AmountOrZero(values[e.text]) else 0.0;
        var v := if e.amount.Some? then Some(prev + e.amount.value) else None;
        if e.text !in values {
          keys := keys + [e.text];
        }
        values := values[e.text := v];
      }
      CategoryTotalsSnoc(expenses[..i], e);
      assert expenses[..i + 1] == expenses[..i] + [e];
      i := i + 1;
    }
    assert expenses[..|expenses|] == expenses;
  }

  /** A category is a key iff some expense record carries it: no zero-filling. */
  lemma {:induction false} KeysAreExpenseCategories(xs: seq<ExpenseDocument>)
    ensures forall k :: k in CategoryTotals(xs).values <==>
                        exists i :: 0 <= i < |xs| && xs[i].kind == Expense && xs[i].text == k
  {
    if xs != [] {
      var p := xs[..|xs| - 1];
      var e := xs[|xs| - 1];
      KeysAreExpenseCategories(p);
      assert forall i :: 0 <= i < |p| ==> p[i] == xs[i];
      forall k
        ensures k in CategoryTotals(xs).values <==>
                exists i :: 0 <= i < |xs| && xs[i].kind == Expense && xs[i].text == k
      {
        if exists i :: 0 <= i < |xs| && xs[i].kind == Expense && xs[i].text == k {
          var i :| 0 <= i < |xs| && xs[i].kind == Expense && xs[i].text == k;
          if i < |p| {
            assert p[i].kind == Expense && p[i].text == k;
          }
        }
        if k in CategoryTotals(xs).values && k !in CategoryTotals(p).values {
          assert xs[|xs| - 1].kind == Expense && xs[|xs| - 1].text == k;
        }
      }
    }
  }

  /** Income records do not matter: the totals of the expense records alone are the same. */
  lemma {:induction false} IncomeLeavesTotalsUnchanged(xs: seq<ExpenseDocument>)
    ensures CategoryTotals(Home.OfKind(xs, Expense)) == CategoryTotals(xs)
  {
    if xs != [] {
      var p := xs[..|xs| - 1];
      var e := xs[|xs| - 1];
      assert xs == p + [e];
      IncomeLeavesTotalsUnchanged(p);
      Home.OfKindAppend(p, [e], Expense);
      assert [e][1..] == [];
      if e.kind == Expense {
        assert Home.OfKind([e], Expense) == [e];
        CategoryTotalsSnoc(Home.OfKind(p, Expense), e);
      } else {
        assert Home.OfKind([e], Expense) == [];
        assert Home.OfKind(xs, Expense) == Home.OfKind(p, Expense);
      }
    }
  }

  /** The expense records of category `k`, in order. */
  function OfCategory(xs: seq<ExpenseDocument>, k: string): seq<ExpenseDocument>
  {
    if xs == [] then []
    else (if xs[0].kind == Expense && xs[0].text == k then [xs[0]] else []) + OfCategory(xs[1..], k)
  }

  lemma {:induction false} OfCategoryAppend(xs: seq<ExpenseDocument>, ys: seq<ExpenseDocument>, k: string)
    ensures OfCategory(xs + ys, k) == OfCategory(xs, k) + OfCategory(ys, k)
  {
    if xs != [] {
      assert (xs + ys)[0] == xs[0];
      assert (xs + ys)[1..] == xs[1..] + ys;
      OfCategoryAppend(xs[1..], ys, k);
    } else {
      assert xs + ys == ys;
    }
  }

  /** Every expense record has an amount that is a number. */
  predicate AllPresent(xs: seq<ExpenseDocument>)
  {
    forall i :: 0 <= i < |xs| && xs[i].kind == Expense ==> xs[i].amount.Some?
  }

  /** What one step does to the entry of a category. */
  lemma StepLookup(t: Table, e: ExpenseDocument, k: string)
    ensures k in Step(t, e).values <==> k in t.values || (e.kind == Expense && e.text == k)
    ensures Lookup(Step(t, e), k)
            == if e.kind == Expense && e.text == k then AddAmount(AmountOrZero(Lookup(t, k)), e.amount)
               else Lookup(t, k)
  {
  }

  lemma AllPresentPrefix(xs: seq<ExpenseDocument>)
    requires xs != [] && AllPresent(xs)
    ensures AllPresent(xs[..|xs| - 1])
    ensures xs[|xs| - 1].kind == Expense ==> xs[|xs| - 1].amount.Some?
  {
    var p := xs[..|xs| - 1];
    forall i | 0 <= i < |p| && p[i].kind == Expense ensures p[i].amount.Some? {
      assert p[i] == xs[i];
    }
  }

  /**
   * When every expense amount is a number, each category's entry is the sum
   * of the amounts of the expense records with that category; a category
   * with no expense record has no entry.
   */
  lemma {:induction false} CategoryTotalIsSum(xs: seq<ExpenseDocument>, k: string)
    requires AllPresent(xs)
    ensures k in CategoryTotals(xs).values ==>
              Lookup(CategoryTotals(xs), k) == Some(Home.SumAmounts(OfCategory(xs, k)))
    ensures k !in CategoryTotals(xs).values ==> OfCategory(xs, k) == []
  {
    if xs != [] {
      var p := xs[..|xs| - 1];
      var e := xs[|xs| - 1];
      var t := CategoryTotals(p);
      assert xs == p + [e];
      assert CategoryTotals(xs) == Step(t, e);
      AllPresentPrefix(xs);
      CategoryTotalIsSum(p, k);
      StepLookup(t, e, k);
      OfCategoryAppend(p, [e], k);
      var c := OfCategory(p, k);
      if e.kind == Expense && e.text == k {
        assert OfCategory([e], k) == [e] + OfCategory([], k);
        Home.SumAppend(c, [e]);
        var a := e.amount.value;
        assert Home.SumAmounts([e]) == a + Home.SumAmounts([]);
        assert Lookup(CategoryTotals(xs), k) == Some(AmountOrZero(Lookup(t, k)) + a);
        assert OfCategory(xs, k) == c + [e];
        assert Home.SumAmounts(c + [e]) == Home.SumAmounts(c) + a;
        if k in t.values {
          assert AmountOrZero(Lookup(t, k)) == Home.SumAmounts(c);
        } else {
          assert c == [];
        }
      } else {
        assert OfCategory([e], k) == [] + OfCategory([], k);
        assert OfCategory(xs, k) == c;
      }
    }
  }

  /** `Object.values(acc)`: the entries in key order. */
  function ValuesOf(keys: seq<string>, m: map<string, Amount>): seq<Amount>
  {
    if keys == [] then [] else [if keys[0] in m then m[keys[0]] else None] + ValuesOf(keys[1..], m)
  }

  /** Entry i is the value stored under key i. */
  lemma {:induction false} ValuesOfIndex(keys: seq<string>, m: map<string, Amount>)
    ensures |ValuesOf(keys, m)| == |keys|
    ensures forall i :: 0 <= i < |keys| ==> ValuesOf(keys, m)[i] == (if keys[i] in m then m[keys[i]] else None)
  {
    if keys != [] {
      ValuesOfIndex(keys[1..], m);
      assert forall i :: 1 <= i < |keys| ==> keys[i] == keys[1..][i - 1];
    }
  }

  /** `a + b` on amounts: `NaN` on either side gives `NaN`. */
  function Plus(a: Amount, b: Amount): Amount
  {
    if a.Some? && b.Some? then Some(a.value + b.value) else None
  }

  /** The tooltip's `total`: the sum of all entries, `NaN` exactly when some entry is `NaN`. */
  function SumValues(data: seq<Amount>): Amount
  {
    if data == [] then Some(0.0) else Plus(data[0], SumValues(data[1..]))
  }

  /** The total is `NaN` exactly when some entry is. */
  lemma {:induction false} SumValuesNaN(data: seq<Amount>)
    ensures SumValues(data).None? <==> exists i :: 0 <= i < |data| && data[i].None?
  {
    if data != [] {
      SumValuesNaN(data[1..]);
      assert forall i :: 1 <= i < |data| ==> data[i] == data[1..][i - 1];
    }
  }

  lemma {:induction false} SumValuesAppend(a: seq<Amount>, b: seq<Amount>)
    ensures SumValues(a + b) == Plus(SumValues(a), SumValues(b))
  {
    if a != [] {
      assert (a + b)[0] == a[0];
      assert (a + b)[1..] == a[1..] + b;
      SumValuesAppend(a[1..], b);
    } else {
      assert a + b == b;
    }
  }

  lemma {:induction false} ValuesOfAppend(keys: seq<string>, k: string, m: map<string, Amount>)
    ensures ValuesOf(keys + [k], m) == ValuesOf(keys, m) + [if k in m then m[k] else None]
  {
    if keys != [] {
      assert (keys + [k])[1..] == keys[1..] + [k];
      ValuesOfAppend(keys[1..], k, m);
    }
  }

  lemma {:induction false} ValuesOfOtherKey(keys: seq<string>, k: string, v: Amount, m: map<string, Amount>)
    requires k !in keys
    ensures ValuesOf(keys, m[k := v]) == ValuesOf(keys, m)
  {
    if keys != [] {
      ValuesOfOtherKey(keys[1..], k, v, m);
    }
  }

  /** Adding `a` to one entry adds `a` to the sum of the entries. */
  lemma {:induction false} SumAfterAdding(keys: seq<string>, m: map<string, Amount>, k: string, o: real, a: real, s: real)
    requires forall i, j :: 0 <= i < j < |keys| ==> keys[i] != keys[j]
    requires k in keys && k in m && m[k] == Some(o)
    requires SumValues(ValuesOf(keys, m)) == Some(s)
    ensures SumValues(ValuesOf(keys, m[k := Some(o + a)])) == Some(s + a)
  {
    var m' := m[k := Some(o + a)];
    var rest := SumValues(ValuesOf(keys[1..], m));
    assert ValuesOf(keys, m) == [ValuesOf(keys, m)[0]] + ValuesOf(keys[1..], m);
    if keys[0] == k {
      assert k !in keys[1..] by {
        forall i | 0 <= i < |keys[1..]| ensures keys[1..][i] != k {
          assert keys[1..][i] == keys[i + 1];
        }
      }
      ValuesOfOtherKey(keys[1..], k, Some(o + a), m);
      assert rest == Some(s - o);
    } else {
      assert k in keys[1..] by {
        var j :| 0 <= j < |keys| && keys[j] == k;
        assert keys[1..][j - 1] == k;
      }
      assert forall i, j :: 0 <= i < j < |keys[1..]| ==> keys[1..][i] != keys[1..][j] by {
        forall i, j | 0 <= i < j < |keys[1..]| ensures keys[1..][i] != keys[1..][j] {
          assert keys[1..][i] == keys[i + 1] && keys[1..][j] == keys[j + 1];
        }
      }
      SumAfterAdding(keys[1..], m, k, o, a, rest.value);
    }
  }

  /** `Object.values(categoryTotals)`. */
  function Entries(t: Table): (r: seq<Amount>)
  {
    ValuesOf(t.keys, t.values)
  }

  lemma {:induction false} TotalExpensesSnoc(xs: seq<ExpenseDocument>, e: ExpenseDocument)
    ensures Home.TotalExpenses(xs + [e])
            == Home.TotalExpenses(xs) + (if e.kind == Expense then AmountOrZero(e.amount) else 0.0)
  {
    Home.OfKindAppend(xs, [e], Expense);
    assert [e][1..] == [];
    if e.kind == Expense {
      assert Home.OfKind([e], Expense) == [e];
      assert Home.SumAmounts([e]) == AmountOrZero(e.amount) + Home.SumAmounts([]);
    } else {
      assert Home.OfKind([e], Expense) == [];
    }
    Home.SumAppend(Home.OfKind(xs, Expense), Home.OfKind([e], Expense));
  }

  /** Adding an expense with a numeric amount adds that amount to the sum of the entries. */
  lemma StepAddsToSum(t: Table, e: ExpenseDocument, s: real)
    requires Valid(t)
    requires e.kind == Expense && e.amount.Some?
    requires e.text in t.values ==> t.values[e.text].Some?
    requires SumValues(Entries(t)) == Some(s)
    ensures SumValues(Entries(Step(t, e))) == Some(s + e.amount.value)
  {
    var k := e.text;
    var a := e.amount.value;
    if k in t.values {
      var o := t.values[k].value;
      assert Step(t, e) == Table(t.keys, t.values[k := Some(o + a)]);
      SumAfterAdding(t.keys, t.values, k, o, a, s);
    } else {
      assert Step(t, e) == Table(t.keys + [k], t.values[k := Some(0.0 + a)]);
      NewKeyAddsToSum(t.keys, t.values, k, a, s);
    }
  }

  /** A new key stored last adds its value to the sum of the entries. */
  lemma NewKeyAddsToSum(keys: seq<string>, m: map<string, Amount>, k: string, a: real, s: real)
    requires k !in keys
    requires SumValues(ValuesOf(keys, m)) == Some(s)
    ensures SumValues(ValuesOf(keys + [k], m[k := Some(0.0 + a)])) == Some(s + a)
  {
    var m' := m[k := Some(0.0 + a)];
    ValuesOfAppend(keys, k, m');
    ValuesOfOtherKey(keys, k, Some(0.0 + a), m);
    SumValuesAppend(ValuesOf(keys, m), [Some(0.0 + a)]);
    assert SumValues([Some(0.0 + a)]) == Plus(Some(0.0 + a), SumValues([]));
  }

  /**
   * When every expense amount is a number, the category totals add up to the
   * expense total the Home page shows.
   */
  lemma {:induction false} TotalsAddUpToExpenses(xs: seq<ExpenseDocument>)
    requires AllPresent(xs)
    ensures SumValues(Entries(CategoryTotals(xs))) == Some(Home.TotalExpenses(xs))
  {
    if xs != [] {
      var p := xs[..|xs| - 1];
      var e := xs[|xs| - 1];
      var s := Home.TotalExpenses(p);
      assert && SumValues(Entries(CategoryTotals(p))) == Some(s)
             && (e.kind == Expense ==> e.amount.Some?)
             && (e.kind == Expense && e.text in CategoryTotals(p).values ==> CategoryTotals(p).values[e.text].Some?)
      by {
        AllPresentPrefix(xs);
        TotalsAddUpToExpenses(p);
        if e.kind == Expense {
          CategoryTotalIsSum(p, e.text);
        }
      }
      TotalsStep(xs, s);
      TotalExpensesLast(xs);
    } else {
      assert Home.TotalExpenses(xs) == 0.0 by {
        assert Home.OfKind(xs, Expense) == [];
      }
      assert Entries(CategoryTotals(xs)) == [];
    }
  }

  /** The amount the last record adds to the expense total. */
  function LastExpense(xs: seq<ExpenseDocument>): real
    requires xs != []
  {
    var e := xs[|xs| - 1];
    if e.kind == Expense then AmountOrZero(e.amount) else 0.0
  }

  /** The expense total with the last record split off. */
  lemma TotalExpensesLast(xs: seq<ExpenseDocument>)
    requires xs != []
    ensures Home.TotalExpenses(xs) == Home.TotalExpenses(xs[..|xs| - 1]) + LastExpense(xs)
  {
    assert xs == xs[..|xs| - 1] + [xs[|xs| - 1]];
    TotalExpensesSnoc(xs[..|xs| - 1], xs[|xs| - 1]);
  }

  /** The inductive step of `TotalsAddUpToExpenses`: the last record's entry added to the sum. */
  lemma TotalsStep(xs: seq<ExpenseDocument>, s: real)
    requires xs != []
    requires var e := xs[|xs| - 1]; e.kind == Expense ==> e.amount.Some?
    requires var p, e := xs[..|xs| - 1], xs[|xs| - 1];
             e.kind == Expense && e.text in CategoryTotals(p).values ==> CategoryTotals(p).values[e.text].Some?
    requires SumValues(Entries(CategoryTotals(xs[..|xs| - 1]))) == Some(s)
    ensures SumValues(Entries(CategoryTotals(xs))) == Some(s + LastExpense(xs))
  {
    var p, e := xs[..|xs| - 1], xs[|xs| - 1];
    assert CategoryTotals(xs) == Step(CategoryTotals(p), e);
    if e.kind == Expense {
      CategoryTotalsValid(p);
      StepAddsToSum(CategoryTotals(p), e, s);
    }
  }

  /**
   * A `NaN` entry does not stick: `acc[k] || 0` reads it as 0, so the next
   * numeric amount of that category starts the entry afresh.
   */
  lemma NaNEntryRestarts(t: Table, e: ExpenseDocument)
    requires e.kind == Expense && Lookup(t, e.text).None? && e.amount.Some?
    ensures Lookup(Step(t, e), e.text) == e.amount
  {
  }

  /**
   * Amounts 3, `NaN` and 5 in one category: the category's entry and the
   * tooltip's total are 5, while the Home page's expense total is 8.
   */
  lemma NaNIsForgotten(a: ExpenseDocument, b: ExpenseDocument, c: ExpenseDocument)
    requires a.kind == Expense && b.kind == Expense && c.kind == Expense
    requires b.text == a.text && c.text == a.text
    requires a.amount == Some(3.0) && b.amount == None && c.amount == Some(5.0)
    ensures Lookup(CategoryTotals([a, b, c]), a.text) == Some(5.0)
    ensures SumValues(Chart([a, b, c]).data) == Some(5.0)
    ensures Home.TotalExpenses([a, b, c]) == 8.0
  {
    NaNFold(a, b, c);
    assert Chart([a, b, c]).data == [Some(5.0)];
    assert [Some(5.0)][1..] == [];
    assert SumValues([Some(5.0)]) == Plus(Some(5.0), SumValues([]));
    ThreeExpensesTotal(a, b, c);
  }

  /** The fold over those three records: one key, holding 5. */
  lemma NaNFold(a: ExpenseDocument, b: ExpenseDocument, c: ExpenseDocument)
    requires a.kind == Expense && b.kind == Expense && c.kind == Expense
    requires b.text == a.text && c.text == a.text
    requires a.amount == Some(3.0) && b.amount == None && c.amount == Some(5.0)
    ensures CategoryTotals([a, b, c]) == Table([a.text], map[a.text := Some(5.0)])
  {
    assert [a, b, c][..2] == [a, b];
    assert [a, b][..1] == [a];
    assert [a][..0] == [];
    assert CategoryTotals([a]) == Table([a.text], map[a.text := Some(3.0)]);
    assert CategoryTotals([a, b]) == Table([a.text], map[a.text := None]);
  }

  /** The Home page's expense total of three expense records, a missing amount counting 0. */
  lemma ThreeExpensesTotal(a: ExpenseDocument, b: ExpenseDocument, c: ExpenseDocument)
    requires a.kind == Expense && b.kind == Expense && c.kind == Expense
    ensures Home.TotalExpenses([a, b, c])
            == AmountOrZero(a.amount) + AmountOrZero(b.amount) + AmountOrZero(c.amount)
  {
    TotalExpensesLast([a, b, c]);
    assert [a, b, c][..2] == [a, b];
    TotalExpensesLast([a, b]);
    assert [a, b][..1] == [a];
    TotalExpensesLast([a]);
  }

  /** The colour for each known category. */
  const CategoryColors: map<string, string> := map[
    "Food & Dining" := "#FF6384",
    "Transportation" := "#36A2EB",
    "Shopping" := "#FFCE56",
    "Bills & Utilities" := "#4BC0C0",
    "Entertainment" := "#9966FF",
    "Healthcare" := "#FF9F40",
    "Education" := "#FF99CC",
    "Housing" := "#66FF99",
    "Other" := "#999999"
  ]

  const DefaultColor: string := "#999999"

  /**
   * `categoryColors[category] || '#999999'`, reading only the table's own
   * keys (inherited `Object.prototype` members are not modelled).
   */
  function ColorOf(category: string): (r: string)
    ensures category in AddPage.ExpenseCategories ==> category in CategoryColors && r == CategoryColors[category]
    ensures category !in AddPage.ExpenseCategories ==> r == DefaultColor
  {
    if category in CategoryColors then CategoryColors[category] else DefaultColor
  }

  /**
   * The colour table names exactly the Add page's categories, so only a
   * category the Add form cannot produce (a CSV cell, say) is drawn in the
   * default grey.
   */
  lemma ColorsCoverCategories(category: string)
    ensures category in CategoryColors <==> category in AddPage.ExpenseCategories
  {
  }

  /** The dataset handed to the chart. */
  datatype ChartData = ChartData(
    labels: seq<string>,
    data: seq<Amount>,
    backgroundColor: seq<string>,
    borderColor: seq<string>)

  /**
   * `data`: labels, values, fill colours and border colours, one slice per
   * key, all four index-aligned.
   */
  function Chart(xs: seq<ExpenseDocument>): (c: ChartData)
    ensures |c.labels| == |c.data| == |c.backgroundColor| == |c.borderColor|
    ensures forall k :: k in c.labels <==> exists i :: 0 <= i < |xs| && xs[i].kind == Expense && xs[i].text == k
    ensures forall i, j :: 0 <= i < j < |c.labels| ==> c.labels[i] != c.labels[j]
    ensures forall i :: 0 <= i < |c.labels| ==>
              && c.data[i] == Lookup(CategoryTotals(xs), c.labels[i])
              && c.backgroundColor[i] == ColorOf(c.labels[i])
              && c.borderColor[i] == "#FFFFFF"
  {
    var t := CategoryTotals(xs);
    KeysAreExpenseCategories(xs);
    CategoryTotalsValid(xs);
    ValuesOfIndex(t.keys, t.values);
    ChartData(
      t.keys,
      Entries(t),
      seq(|t.keys|, i requires 0 <= i < |t.keys| => ColorOf(t.keys[i])),
      seq(|t.keys|, _ => "#FFFFFF"))
  }

  /**
   * The tooltip's percentage for a slice, `(value / total) * 100` with
   * `value = raw || 0`; `None` where that is not a finite number (a total of
   * 0 or `NaN`).
   */
  function Percentage(raw: Amount, total: Amount): (r: Option<real>)
    ensures r.Some? <==> total.Some? && total.value != 0.0
    ensures r.Some? ==> r.value * total.value == AmountOrZero(raw) * 100.0
  {
    if total.Some? && total.value != 0.0 then Some(AmountOrZero(raw) / total.value * 100.0) else None
  }

  /** The sum of the slices' percentages for a given total. */
  function PercentSum(data: seq<Amount>, total: real): real
    requires total != 0.0
  {
    if data == [] then 0.0 else Percentage(data[0], Some(total)).value + PercentSum(data[1..], total)
  }

  lemma {:induction false} PercentSumScales(data: seq<Amount>, total: real, s: real)
    requires total != 0.0
    requires SumValues(data) == Some(s)
    ensures PercentSum(data, total) == s / total * 100.0
  {
    if data != [] {
      var rest := SumValues(data[1..]);
      PercentSumScales(data[1..], total, rest.value);
      var d := data[0].value;
      assert s == d + rest.value;
      assert d / total * 100.0 + rest.value / total * 100.0 == (d + rest.value) / total * 100.0;
    }
  }

  /**
   * When every expense amount is a number and the expense total is not 0,
   * the tooltip's total is the Home page's expense total and the slices'
   * percentages add up to 100.
   */
  lemma PercentagesAddUpTo100(xs: seq<ExpenseDocument>)
    requires AllPresent(xs) && Home.TotalExpenses(xs) != 0.0
    ensures SumValues(Chart(xs).data) == Some(Home.TotalExpenses(xs))
    ensures PercentSum(Chart(xs).data, Home.TotalExpenses(xs)) == 100.0
  {
    TotalsAddUpToExpenses(xs);
    PercentSumScales(Chart(xs).data, Home.TotalExpenses(xs), Home.TotalExpenses(xs));
    WholeIsHundredPercent(Home.TotalExpenses(xs));
  }

  /** A value that is the whole total is 100 percent of it. */
  lemma WholeIsHundredPercent(total: real)
    requires total != 0.0
    ensures total / total * 100.0 == 100.0
  {
  }

  /** The "No expense data" state: shown exactly when there is no expense record. */
  function ShowsEmptyState(xs: seq<ExpenseDocument>): (r: bool)
    ensures r <==> forall i :: 0 <= i < |xs| ==> xs[i].kind == Income
  {
    KeysAreExpenseCategories(xs);
    CategoryTotalsValid(xs);
    var t := CategoryTotals(xs);
    assert |t.keys| > 0 ==> t.keys[0] in t.values;
    assert (exists i :: 0 <= i < |xs| && xs[i].kind == Expense) ==> |t.keys| > 0 by {
      if i :| 0 <= i < |xs| && xs[i].kind == Expense {
        assert xs[i].text in t.values;
      }
    }
    |t.keys| == 0
  }
}
