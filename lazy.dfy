/**
 * Streaming helpers: a filtered pass over the transactions, and the top
 * spending categories, computed by accumulating each category's expenses in
 * first-appearance order, sorting them by amount (largest first, ties in
 * first-appearance order) and keeping the first `k`, labelled by name.
 */
module Lazy {
  import opened Domain
  import opened Transforms

  // ---------------------------------------------------------------------------
  // iter_transactions

  /** `iter_transactions(trans, pred)`: the transactions `pred` accepts, in order; all of them without a predicate. */
  function IterTransactions(trans: seq<Transaction>, pred: Option<Transaction -> bool>): (r: seq<Transaction>)
    ensures |r| <= |trans|
  {
    if trans == [] then []
    else
      var last := trans[|trans| - 1];
      IterTransactions(trans[..|trans| - 1], pred) + (if pred.None? || pred.value(last) then [last] else [])
  }

  /** Exactly the accepted transactions are yielded. */
  lemma {:induction false} IterTransactionsMembers(trans: seq<Transaction>, pred: Option<Transaction -> bool>)
    ensures forall t :: t in IterTransactions(trans, pred) <==> t in trans && (pred.None? || pred.value(t))
  {
    if trans != [] {
      IterTransactionsMembers(trans[..|trans| - 1], pred);
      assert trans == trans[..|trans| - 1] + [trans[|trans| - 1]];
    }
  }

  /** Without a predicate every transaction is yielded, in order. */
  lemma {:induction false} IterTransactionsAll(trans: seq<Transaction>)
    ensures IterTransactions(trans, None) == trans
  {
    if trans != [] {
      IterTransactionsAll(trans[..|trans| - 1]);
      assert trans == trans[..|trans| - 1] + [trans[|trans| - 1]];
    }
  }

  /** The stream is consumed piece by piece: order is kept across a split. */
  lemma {:induction false} IterTransactionsConcat(a: seq<Transaction>, b: seq<Transaction>, pred: Option<Transaction -> bool>)
    ensures IterTransactions(a + b, pred) == IterTransactions(a, pred) + IterTransactions(b, pred)
    decreases |b|
  {
    if b == [] {
      assert a + b == a;
    } else {
      var init := b[..|b| - 1];
      assert (a + b)[..|a + b| - 1] == a + init;
      assert (a + b)[|a + b| - 1] == b[|b| - 1];
      IterTransactionsConcat(a, init, pred);
    }
  }

  /**
   * Streaming the expenses that `by_category(c)` accepts and summing their
   * signed amounts gives the category's spending, negated.
   */
  lemma {:induction false} ByCategoryExpenses(trans: seq<Transaction>, c: string)
    ensures SumAmounts(IterTransactions(trans, Some((t: Transaction) => ByCategory(c)(t) && t.amount < 0)))
            + CategorySpent(trans, c) == 0
  {
    if trans != [] {
      var pred := (t: Transaction) => ByCategory(c)(t) && t.amount < 0;
      var init, last := trans[..|trans| - 1], trans[|trans| - 1];
      ByCategoryExpenses(init, c);
      var f := IterTransactions(init, Some(pred));
      var byCat := ByCategory(c);
      assert byCat(last) <==> last.catId == c;
      assert pred(last) == (byCat(last) && last.amount < 0);
      if pred(last) {
        assert Abs(last.amount) == -last.amount;
        assert IterTransactions(trans, Some(pred)) == f + [last];
        assert (f + [last])[..|f|] == f;
      } else {
        assert IterTransactions(trans, Some(pred)) == f + [];
        assert f + [] == f;
      }
    }
  }

  // ---------------------------------------------------------------------------
  // Accumulation

  /** One entry of the accumulated expenses: a category and its total. */
  datatype Total = Total(catId: string, amount: int)

  /** The keys of the `expenses` dictionary in insertion order: categories by their first expense. */
  function ExpenseOrder(trans: seq<Transaction>): seq<string>
  {
    if trans == [] then []
    else
      var init := trans[..|trans| - 1];
      var last := trans[|trans| - 1];
      ExpenseOrder(init) + (if last.amount < 0 && last.catId !in ExpenseOrder(init) then [last.catId] else [])
  }

  /** A sequence of ids without repetition. */
  ghost predicate Distinct(ids: seq<string>)
  {
    forall i, j :: 0 <= i < j < |ids| ==> ids[i] != ids[j]
  }

  /**
   * The keys are exactly the categories with an expense, each once, and
   * exactly those have a positive total.
   */
  lemma {:induction false} ExpenseOrderKeys(trans: seq<Transaction>)
    ensures Distinct(ExpenseOrder(trans))
    ensures forall c :: c in ExpenseOrder(trans) <==> exists t :: t in trans && t.catId == c && t.amount < 0
    ensures forall c :: c in ExpenseOrder(trans) <==> CategorySpent(trans, c) > 0
  {
    if trans != [] {
      var init := trans[..|trans| - 1];
      var last := trans[|trans| - 1];
      ExpenseOrderKeys(init);
      assert trans == init + [last];
      forall c ensures CategorySpent(trans, c)
                    == CategorySpent(init, c) + (if last.catId == c && last.amount < 0 then -last.amount else 0)
      {
        CategorySpentAppend(init, last, c);
      }
    }
  }

  /** `expenses.items()`: each key with its accumulated total. */
  function Items(trans: seq<Transaction>): (r: seq<Total>)
    ensures |r| == |ExpenseOrder(trans)|
    ensures forall j :: 0 <= j < |r| ==>
              r[j].catId == ExpenseOrder(trans)[j] && r[j].amount == CategorySpent(trans, r[j].catId)
  {
    var order := ExpenseOrder(trans);
    seq(|order|, j requires 0 <= j < |order| => Total(order[j], CategorySpent(trans, order[j])))
  }

  // ---------------------------------------------------------------------------
  // Stable sort, largest amount first

  /** Amounts never increase along the sequence. */
  ghost predicate Descending(s: seq<Total>)
  {
    forall i, j :: 0 <= i < j < |s| ==> s[i].amount >= s[j].amount
  }

  /** Places `x` after every entry whose amount is at least its own. */
  function Insert(x: Total, ys: seq<Total>): (r: seq<Total>)
    ensures |r| == |ys| + 1
  {
    if ys == [] then [x]
    else if ys[0].amount >= x.amount then [ys[0]] + Insert(x, ys[1..])
    else [x] + ys
  }

  /** `sorted(items, key=amount, reverse=True)`: insertion of each entry in turn. */
  function SortDesc(s: seq<Total>): (r: seq<Total>)
    ensures |r| == |s|
  {
    if s == [] then [] else Insert(s[|s| - 1], SortDesc(s[..|s| - 1]))
  }

  /** The entries with amount `v`, in order. */
  function WithAmount(s: seq<Total>, v: int): seq<Total>
  {
    if s == [] then []
    else WithAmount(s[..|s| - 1], v) + (if s[|s| - 1].amount == v then [s[|s| - 1]] else [])
  }

  lemma {:induction false} WithAmountConcat(a: seq<Total>, b: seq<Total>, v: int)
    ensures WithAmount(a + b, v) == WithAmount(a, v) + WithAmount(b, v)
    decreases |b|
  {
    if b == [] {
      assert a + b == a;
    } else {
      var init := b[..|b| - 1];
      assert (a + b)[..|a + b| - 1] == a + init;
      assert (a + b)[|a + b| - 1] == b[|b| - 1];
      WithAmountConcat(a, init, v);
    }
  }

  lemma {:induction false} WithAmountNone(s: seq<Total>, v: int)
    requires forall i :: 0 <= i < |s| ==> s[i].amount != v
    ensures WithAmount(s, v) == []
  {
    if s != [] {
      WithAmountNone(s[..|s| - 1], v);
    }
  }

  /** No amount exceeds `v`. */
  ghost predicate AtMost(s: seq<Total>, v: int)
  {
    forall i :: 0 <= i < |s| ==> s[i].amount <= v
  }

  lemma {:induction false} InsertAtMost(x: Total, ys: seq<Total>, v: int)
    requires AtMost(ys, v) && x.amount <= v
    ensures AtMost(Insert(x, ys), v)
    decreases |ys|
  {
    if ys != [] && ys[0].amount >= x.amount {
      InsertAtMost(x, ys[1..], v);
    }
  }

  lemma {:induction false} InsertKeepsDescending(x: Total, ys: seq<Total>)
    requires Descending(ys)
    ensures Descending(Insert(x, ys))
    decreases |ys|
  {
    if ys != [] && ys[0].amount >= x.amount {
      var rest := Insert(x, ys[1..]);
      InsertKeepsDescending(x, ys[1..]);
      InsertAtMost(x, ys[1..], ys[0].amount);
      assert Insert(x, ys) == [ys[0]] + rest;
    }
  }

  lemma {:induction false} InsertPermutes(x: Total, ys: seq<Total>)
    ensures multiset(Insert(x, ys)) == multiset(ys) + multiset{x}
    decreases |ys|
  {
    if ys != [] && ys[0].amount >= x.amount {
      InsertPermutes(x, ys[1..]);
      assert ys == [ys[0]] + ys[1..];
    }
  }

  /** Inserting `x` puts it after the entries of its amount already there. */
  lemma {:induction false} InsertIsStable(x: Total, ys: seq<Total>, v: int)
    requires Descending(ys)
    ensures WithAmount(Insert(x, ys), v) == WithAmount(ys, v) + (if x.amount == v then [x] else [])
    decreases |ys|
  {
    if ys == [] {
      assert [x][..0] == [];
    } else if ys[0].amount >= x.amount {
      InsertIsStable(x, ys[1..], v);
      InsertPassesHead(x, ys, v);
    } else {
      InsertAtHead(x, ys, v);
    }
  }

  lemma InsertPassesHead(x: Total, ys: seq<Total>, v: int)
    requires ys != [] && ys[0].amount >= x.amount
    requires WithAmount(Insert(x, ys[1..]), v) == WithAmount(ys[1..], v) + (if x.amount == v then [x] else [])
    ensures WithAmount(Insert(x, ys), v) == WithAmount(ys, v) + (if x.amount == v then [x] else [])
  {
    assert Insert(x, ys) == [ys[0]] + Insert(x, ys[1..]);
    WithAmountConcat([ys[0]], Insert(x, ys[1..]), v);
    WithAmountConcat([ys[0]], ys[1..], v);
    assert ys == [ys[0]] + ys[1..];
  }

  lemma InsertAtHead(x: Total, ys: seq<Total>, v: int)
    requires Descending(ys) && ys != [] && ys[0].amount < x.amount
    ensures WithAmount(Insert(x, ys), v) == WithAmount(ys, v) + (if x.amount == v then [x] else [])
  {
    assert Insert(x, ys) == [x] + ys;
    WithAmountConcat([x], ys, v);
    assert [x][..0] == [];
    if x.amount == v {
      WithAmountNone(ys, v);
    }
  }

  /** The sort orders by amount, largest first, and keeps every entry. */
  lemma {:induction false} SortDescSortsAndPermutes(s: seq<Total>)
    ensures Descending(SortDesc(s))
    ensures multiset(SortDesc(s)) == multiset(s)
  {
    if s != [] {
      var init, last := s[..|s| - 1], s[|s| - 1];
      assert SortDesc(s) == Insert(last, SortDesc(init));
      SortDescSortsAndPermutes(init);
      InsertKeepsDescending(last, SortDesc(init));
      InsertPermutes(last, SortDesc(init));
      assert multiset(s) == multiset(init) + multiset{last} by {
        assert s == init + [last];
      }
    }
  }

  /** The sort is stable: entries of equal amount keep their relative order. */
  lemma {:induction false} SortDescIsStable(s: seq<Total>, v: int)
    ensures WithAmount(SortDesc(s), v) == WithAmount(s, v)
  {
    if s != [] {
      var init := s[..|s| - 1];
      SortDescIsStable(init, v);
      SortDescSortsAndPermutes(init);
      InsertIsStable(s[|s| - 1], SortDesc(init), v);
    }
  }

  // ---------------------------------------------------------------------------
  // Top k and labels

  /** `sorted_expenses[:k]` with Python's slice bounds: a negative `k` drops entries from the end. */
  function PyPrefix(s: seq<Total>, k: int): (r: seq<Total>)
    ensures k >= 0 ==> |r| == if k < |s| then k else |s|
    ensures k < 0 ==> |r| == if |s| + k > 0 then |s| + k else 0
    ensures r <= s
  {
    if k >= 0 then (if k < |s| then s[..k] else s)
    else (if |s| + k > 0 then s[..|s| + k] else [])
  }

  /** The accumulated totals that are reported, before labelling. */
  function TopTotals(trans: seq<Transaction>, k: int): seq<Total>
  {
    PyPrefix(SortDesc(Items(trans)), k)
  }

  /** `cat_map.get(cat_id, cat_id)` with `cat_map = {c.id: c.name for c in cats}`: the last category with the id names it. */
  function CategoryName(cats: seq<Category>, catId: string): (r: string)
    ensures (forall c :: c in cats ==> c.id != catId) ==> r == catId
    ensures forall i :: LastWithId(cats, catId, i) ==> r == cats[i].name
  {
    if cats == [] then catId
    else if cats[|cats| - 1].id == catId then cats[|cats| - 1].name
    else
      var init := cats[..|cats| - 1];
      assert forall c :: c in init ==> c in cats;
      assert forall i :: LastWithId(cats, catId, i) ==> LastWithId(init, catId, i);
      CategoryName(init, catId)
  }

  /** Entry `i` carries `catId` and no later entry does. */
  ghost predicate LastWithId(cats: seq<Category>, catId: string, i: int)
  {
    0 <= i < |cats| && cats[i].id == catId && forall j :: i < j < |cats| ==> cats[j].id != catId
  }

  /** Each reported total as the `(name, amount)` pair the generator yields. */
  function Label(s: seq<Total>, cats: seq<Category>): (r: seq<(string, int)>)
    ensures |r| == |s|
    ensures forall i :: 0 <= i < |s| ==> r[i] == (CategoryName(cats, s[i].catId), s[i].amount)
  {
    seq(|s|, i requires 0 <= i < |s| => (CategoryName(cats, s[i].catId), s[i].amount))
  }

  /** The pairs `lazy_top_categories` yields. */
  function TopCategories(trans: seq<Transaction>, cats: seq<Category>, k: int): seq<(string, int)>
  {
    Label(TopTotals(trans, k), cats)
  }

  /** Consuming one more transaction: a new expense category is appended to the keys, and its total grows. */
  lemma AccumulateStep(prefix: seq<Transaction>, t: Transaction)
    ensures ExpenseOrder(prefix + [t])
         == ExpenseOrder(prefix) + (if t.amount < 0 && t.catId !in ExpenseOrder(prefix) then [t.catId] else [])
    ensures forall c :: CategorySpent(prefix + [t], c)
                     == CategorySpent(prefix, c) + (if t.catId == c && t.amount < 0 then -t.amount else 0)
    ensures t.catId !in ExpenseOrder(prefix) ==> CategorySpent(prefix, t.catId) == 0
  {
    assert (prefix + [t])[..|prefix|] == prefix;
    ExpenseOrderKeys(prefix);
    forall c ensures CategorySpent(prefix + [t], c)
                  == CategorySpent(prefix, c) + (if t.catId == c && t.amount < 0 then -t.amount else 0)
    {
      CategorySpentAppend(prefix, t, c);
    }
  }

  /**
   * `lazy_top_categories`: the stream is consumed once into per-category
   * totals, which are sorted and cut to `k`, then labelled one by one.
   */
  method LazyTopCategories(trans: seq<Transaction>, cats: seq<Category>, k: int) returns (top: seq<(string, int)>)
    ensures top == TopCategories(trans, cats, k)
  {
    var expenses, order := Accumulate(trans);
    var items := seq(|order|, j requires 0 <= j < |order| => Total(order[j], expenses[order[j]]));
    ItemsFromTotals(trans, order, expenses, items);
    var chosen := PyPrefix(SortDesc(items), k);
    top := [];
    for j := 0 to |chosen|
      invariant |top| == j
      invariant forall m :: 0 <= m < j ==> top[m] == (CategoryName(cats, chosen[m].catId), chosen[m].amount)
    {
      top := top + [(CategoryName(cats, chosen[j].catId), chosen[j].amount)];
    }
    assert top == Label(chosen, cats);
  }

  /**
   * The consuming loop of `lazy_top_categories`: `expenses[cat_id] += abs(amount)`
   * for every expense, the dictionary's keys kept in first-insertion order.
   */
  method Accumulate(trans: seq<Transaction>) returns (expenses: map<string, int>, order: seq<string>)
    ensures order == ExpenseOrder(trans)
    ensures forall c :: c in expenses <==> c in order
    ensures forall c :: c in expenses ==> expenses[c] == CategorySpent(trans, c)
  {
    expenses := map[];
    order := [];
    for i := 0 to |trans|
      invariant order == ExpenseOrder(trans[..i])
      invariant forall c :: c in expenses <==> c in order
      invariant forall c :: c in expenses ==> expenses[c] == CategorySpent(trans[..i], c)
    {
      var t := trans[i];
      assert trans[..i + 1] == trans[..i] + [t];
      AccumulateStep(trans[..i], t);
      if t.amount < 0 {
        if t.catId !in expenses {
          expenses := expenses[t.catId := 0];
          order := order + [t.catId];
        }
        expenses := expenses[t.catId := expenses[t.catId] + Abs(t.amount)];
      }
    }
    assert trans[..|trans|] == trans;
  }

  /** The accumulated dictionary, read in key order, is `Items`. */
  lemma ItemsFromTotals(trans: seq<Transaction>, order: seq<string>, expenses: map<string, int>, items: seq<Total>)
    requires order == ExpenseOrder(trans)
    requires forall c :: c in order ==> c in expenses && expenses[c] == CategorySpent(trans, c)
    requires |items| == |order|
    requires forall j :: 0 <= j < |order| ==> items[j] == Total(order[j], expenses[order[j]])
    ensures items == Items(trans)
  {
  }

  // ---------------------------------------------------------------------------
  // What the ranking promises

  /**
   * The reported totals come largest first, each names a category with an
   * expense and carries that category's whole spending, no category twice.
   */
  lemma TopTotalsAreRanked(trans: seq<Transaction>, k: int)
    ensures Descending(TopTotals(trans, k))
    ensures forall x :: x in TopTotals(trans, k) ==>
              x.amount == CategorySpent(trans, x.catId) > 0 && x in Items(trans)
    ensures forall i, j :: 0 <= i < j < |TopTotals(trans, k)| ==> TopTotals(trans, k)[i].catId != TopTotals(trans, k)[j].catId
  {
    var items := Items(trans);
    var sorted := SortDesc(items);
    SortDescSortsAndPermutes(items);
    ExpenseOrderKeys(trans);
    var top := TopTotals(trans, k);
    assert forall i :: 0 <= i < |top| ==> top[i] == sorted[i];
    forall x | x in top ensures x.amount == CategorySpent(trans, x.catId) > 0 && x in items {
      assert x in multiset(items);
    }
    forall i, j | 0 <= i < j < |top| ensures top[i].catId != top[j].catId {
      ItemsDistinct(trans, sorted, i, j);
    }
  }

  /** Two entries of a permutation of the items at different places name different categories. */
  lemma ItemsDistinct(trans: seq<Transaction>, sorted: seq<Total>, i: nat, j: nat)
    requires multiset(sorted) == multiset(Items(trans))
    requires i < j < |sorted|
    ensures sorted[i].catId != sorted[j].catId
  {
    var items := Items(trans);
    ExpenseOrderKeys(trans);
    if sorted[i].catId == sorted[j].catId {
      assert sorted[i] in multiset(items) && sorted[j] in multiset(items);
      var a :| 0 <= a < |items| && items[a] == sorted[i];
      var b :| 0 <= b < |items| && items[b] == sorted[j];
      assert a == b;
      assert sorted[i] == sorted[j];
      assert sorted == sorted[..i] + [sorted[i]] + sorted[i + 1..];
      assert sorted[j] in sorted[i + 1..] by { assert sorted[i + 1..][j - i - 1] == sorted[j]; }
      assert multiset(sorted)[sorted[i]] >= 2;
      MultisetOfDistinct(trans, a);
    }
  }

  /** Each entry of the items occurs once. */
  lemma MultisetOfDistinct(trans: seq<Transaction>, a: nat)
    requires a < |Items(trans)|
    ensures multiset(Items(trans))[Items(trans)[a]] == 1
  {
    var items := Items(trans);
    ExpenseOrderKeys(trans);
    assert items == items[..a] + [items[a]] + items[a + 1..];
    assert items[a] !in items[..a] by {
      forall m | 0 <= m < a ensures items[..a][m] != items[a] { }
    }
    assert items[a] !in items[a + 1..] by {
      forall m | a + 1 <= m < |items| ensures items[m] != items[a] { }
    }
  }

  /** Every category left out spent no more than any category reported. */
  lemma TopTotalsAreTheLargest(trans: seq<Transaction>, k: int, x: Total, y: Total)
    requires x in Items(trans) && x !in TopTotals(trans, k)
    requires y in TopTotals(trans, k)
    ensures x.amount <= y.amount
  {
    var items := Items(trans);
    var sorted := SortDesc(items);
    SortDescSortsAndPermutes(items);
    var top := TopTotals(trans, k);
    assert x in multiset(sorted) by { assert x in multiset(items); }
    var j :| 0 <= j < |sorted| && sorted[j] == x;
    var i :| 0 <= i < |top| && top[i] == y;
    assert sorted[i] == y;
    assert forall m :: 0 <= m < |top| ==> top[m] == sorted[m];
  }

  /** Asking for more categories extends the answer: the top `k1` is a prefix of the top `k2`. */
  lemma TopTotalsGrow(trans: seq<Transaction>, k1: int, k2: int)
    requires 0 <= k1 <= k2
    ensures TopTotals(trans, k1) <= TopTotals(trans, k2)
  {
  }

  /** With `k` at least the number of categories, every category with an expense is reported. */
  lemma TopTotalsAll(trans: seq<Transaction>, k: int)
    requires k >= |ExpenseOrder(trans)|
    ensures multiset(TopTotals(trans, k)) == multiset(Items(trans))
  {
    SortDescSortsAndPermutes(Items(trans));
  }
}
