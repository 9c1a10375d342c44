/**
 * Pure transforms over the immutable record sequences: appending and
 * updating, the per-account balance fold, the filter closures and the
 * validators that return `Maybe` / `Either`.
 */
module Transforms {
  import opened Domain
  import opened Ftypes

  // ---------------------------------------------------------------------------
  // Append and update

  /** `add_transaction`: `t` becomes the new last element; the original prefix stays. */
  function AddTransaction(trans: seq<Transaction>, t: Transaction): (r: seq<Transaction>)
    ensures |r| == |trans| + 1
    ensures r[..|trans|] == trans && r[|trans|] == t
  {
    trans + [t]
  }

  /** `update_budget`: only the `limit` of the budgets with id `bid` changes. */
  function UpdateBudget(budgets: seq<Budget>, bid: string, newLimit: int): (r: seq<Budget>)
    ensures |r| == |budgets|
    ensures forall i :: 0 <= i < |r| ==> r[i] == budgets[i].(limit := r[i].limit)
    ensures forall i :: 0 <= i < |r| ==> r[i].limit == if budgets[i].id == bid then newLimit else budgets[i].limit
  {
    seq(|budgets|, i requires 0 <= i < |budgets| =>
      if budgets[i].id != bid then budgets[i]
      else Budget(budgets[i].id, budgets[i].catId, newLimit, budgets[i].period))
  }

  /** Updating a budget's limit twice keeps only the second limit. */
  lemma UpdateBudgetLastWins(budgets: seq<Budget>, bid: string, l1: int, l2: int)
    ensures UpdateBudget(UpdateBudget(budgets, bid, l1), bid, l2) == UpdateBudget(budgets, bid, l2)
  {
    var a := UpdateBudget(UpdateBudget(budgets, bid, l1), bid, l2);
    var b := UpdateBudget(budgets, bid, l2);
    assert |a| == |b|;
    forall i | 0 <= i < |a| ensures a[i] == b[i] {
    }
  }

  /** Updating a budget id that no budget has changes nothing. */
  lemma UpdateBudgetUnknownId(budgets: seq<Budget>, bid: string, newLimit: int)
    requires forall b :: b in budgets ==> b.id != bid
    ensures UpdateBudget(budgets, bid, newLimit) == budgets
  {
    var r := UpdateBudget(budgets, bid, newLimit);
    forall i | 0 <= i < |r| ensures r[i] == budgets[i] {
      assert budgets[i] in budgets;
    }
  }

  // ---------------------------------------------------------------------------
  // The per-account balance fold

  /** `filter(lambda t: t.account_id == acc_id, trans)` */
  function AccountTransactions(trans: seq<Transaction>, accId: string): (r: seq<Transaction>)
    ensures |r| <= |trans|
  {
    if trans == [] then []
    else
      var last := trans[|trans| - 1];
      AccountTransactions(trans[..|trans| - 1], accId) + (if last.accountId == accId then [last] else [])
  }

  /** The filter keeps exactly the account's transactions. */
  lemma {:induction false} AccountTransactionsMembers(trans: seq<Transaction>, accId: string)
    ensures forall t :: t in AccountTransactions(trans, accId) <==> t in trans && t.accountId == accId
  {
    if trans != [] {
      AccountTransactionsMembers(trans[..|trans| - 1], accId);
      assert trans == trans[..|trans| - 1] + [trans[|trans| - 1]];
    }
  }

  /** `reduce(lambda acc, t: acc + t.amount, ts, 0)`: a left fold. */
  function SumAmounts(ts: seq<Transaction>): int
  {
    if ts == [] then 0 else SumAmounts(ts[..|ts| - 1]) + ts[|ts| - 1].amount
  }

  /** `account_balance`: the sum of the amounts of the account's transactions. */
  function AccountBalance(trans: seq<Transaction>, accId: string): int
  {
    SumAmounts(AccountTransactions(trans, accId))
  }

  /** Appending one transaction moves exactly its own account's balance, by its amount. */
  lemma AccountBalanceAppend(trans: seq<Transaction>, t: Transaction, accId: string)
    ensures AccountBalance(trans + [t], accId)
         == AccountBalance(trans, accId) + (if t.accountId == accId then t.amount else 0)
  {
    assert (trans + [t])[..|trans|] == trans;
    var f := AccountTransactions(trans, accId);
    if t.accountId == accId {
      assert (f + [t])[..|f|] == f;
    } else {
      assert f + [] == f;
    }
  }

  /** The balance of a concatenation is the sum of the balances of the parts. */
  lemma {:induction false} AccountBalanceConcat(a: seq<Transaction>, b: seq<Transaction>, accId: string)
    ensures AccountBalance(a + b, accId) == AccountBalance(a, accId) + AccountBalance(b, accId)
    decreases |b|
  {
    if b == [] {
      assert a + b == a;
    } else {
      var init := b[..|b| - 1];
      var last := b[|b| - 1];
      assert a + b == (a + init) + [last];
      assert b == init + [last];
      AccountBalanceConcat(a, init, accId);
      AccountBalanceAppend(a + init, last, accId);
      AccountBalanceAppend(init, last, accId);
    }
  }

  /** With no transaction for the account, its balance is 0. */
  lemma {:induction false} AccountBalanceNone(trans: seq<Transaction>, accId: string)
    requires forall t :: t in trans ==> t.accountId != accId
    ensures AccountBalance(trans, accId) == 0
  {
    if trans != [] {
      var init := trans[..|trans| - 1];
      assert trans[|trans| - 1] in trans;
      assert forall t :: t in init ==> t in trans;
      AccountBalanceNone(init, accId);
      assert AccountTransactions(trans, accId) == AccountTransactions(init, accId) + [];
      assert AccountTransactions(init, accId) + [] == AccountTransactions(init, accId);
    }
  }

  // ---------------------------------------------------------------------------
  // Expense of one category

  /** Sum of `abs(t.amount)` over the transactions of the category with `amount < 0`. */
  function CategorySpent(trans: seq<Transaction>, catId: string): nat
  {
    if trans == [] then 0
    else
      var last := trans[|trans| - 1];
      CategorySpent(trans[..|trans| - 1], catId) + (if last.catId == catId && last.amount < 0 then Abs(last.amount) else 0)
  }

  lemma CategorySpentAppend(trans: seq<Transaction>, t: Transaction, catId: string)
    ensures CategorySpent(trans + [t], catId)
         == CategorySpent(trans, catId) + (if t.catId == catId && t.amount < 0 then -t.amount else 0)
  {
    assert (trans + [t])[..|trans|] == trans;
  }

  /** Income and other categories contribute nothing: the sum is 0 without an expense in the category. */
  lemma {:induction false} CategorySpentNone(trans: seq<Transaction>, catId: string)
    requires forall t :: t in trans && t.catId == catId ==> t.amount >= 0
    ensures CategorySpent(trans, catId) == 0
  {
    if trans != [] {
      var init := trans[..|trans| - 1];
      assert trans[|trans| - 1] in trans;
      assert forall t :: t in init ==> t in trans;
      CategorySpentNone(init, catId);
    }
  }

  /** Each expense of the category is part of the sum, so the sum is at least its size. */
  lemma {:induction false} CategorySpentCovers(trans: seq<Transaction>, catId: string, i: nat)
    requires i < |trans| && trans[i].catId == catId && trans[i].amount < 0
    ensures CategorySpent(trans, catId) >= -trans[i].amount > 0
  {
    var init := trans[..|trans| - 1];
    if i < |trans| - 1 {
      assert init[i] == trans[i];
      CategorySpentCovers(init, catId, i);
    }
  }

  // ---------------------------------------------------------------------------
  // Filter closures

  /** `by_category(cat_id)` */
  function ByCategory(catId: string): (f: Transaction -> bool)
    ensures forall t :: f(t) <==> t.catId == catId
  {
    (t: Transaction) => t.catId == catId
  }

  /** Python's `<=` on strings: lexicographic by code point, a prefix sorts first. */
  predicate LexLe(a: string, b: string)
  {
    if a == [] then true
    else if b == [] then false
    else if a[0] != b[0] then a[0] < b[0]
    else LexLe(a[1..], b[1..])
  }

  lemma {:induction false} LexLeTransitive(a: string, b: string, c: string)
    requires LexLe(a, b) && LexLe(b, c)
    ensures LexLe(a, c)
  {
    if a != [] && b != [] && c != [] && a[0] == b[0] && b[0] == c[0] {
      LexLeTransitive(a[1..], b[1..], c[1..]);
    }
  }

  lemma {:induction false} LexLeTotal(a: string, b: string)
    ensures LexLe(a, b) || LexLe(b, a)
  {
    if a != [] && b != [] && a[0] == b[0] {
      LexLeTotal(a[1..], b[1..]);
    }
  }

  lemma {:induction false} LexLeAntisymmetric(a: string, b: string)
    requires LexLe(a, b) && LexLe(b, a)
    ensures a == b
  {
    if a != [] && b != [] {
      LexLeAntisymmetric(a[1..], b[1..]);
      assert a == [a[0]] + a[1..] && b == [b[0]] + b[1..];
    }
  }

  /** `by_date_range(start, end)`: `start <= t.ts <= end` as strings. */
  function ByDateRange(start: string, end: string): (f: Transaction -> bool)
    ensures forall t :: f(t) <==> LexLe(start, t.ts) && LexLe(t.ts, end)
  {
    (t: Transaction) => LexLe(start, t.ts) && LexLe(t.ts, end)
  }

  /** A date range whose end sorts before its start accepts nothing. */
  lemma DateRangeReversedIsEmpty(start: string, end: string, t: Transaction)
    requires !LexLe(start, end)
    ensures !ByDateRange(start, end)(t)
  {
    if LexLe(start, t.ts) && LexLe(t.ts, end) {
      LexLeTransitive(start, t.ts, end);
    }
  }

  /** A one-day range `[d, d]` accepts exactly the timestamps equal to `d`. */
  lemma DateRangeSingleDay(d: string, t: Transaction)
    ensures ByDateRange(d, d)(t) <==> t.ts == d
  {
    if ByDateRange(d, d)(t) {
      LexLeAntisymmetric(d, t.ts);
    } else if t.ts == d {
      LexLeReflexive(d);
    }
  }

  lemma {:induction false} LexLeReflexive(a: string)
    ensures LexLe(a, a)
  {
    if a != [] {
      LexLeReflexive(a[1..]);
    }
  }

  /** `by_amount_range(min_val, max_val)`: `min_val <= abs(t.amount) <= max_val`. */
  function ByAmountRange(minVal: int, maxVal: int): (f: Transaction -> bool)
    ensures forall t :: f(t) <==> minVal <= Abs(t.amount) <= maxVal
    ensures forall t :: f(t) == f(t.(amount := -t.amount))
  {
    (t: Transaction) => minVal <= Abs(t.amount) <= maxVal
  }

  // ---------------------------------------------------------------------------
  // Maybe / Either validators

  /** `next((c for c in cats if c.id == cat_id), None)`: the first category with the id. */
  function FindCategory(cats: seq<Category>, catId: string): (r: Option<Category>)
    ensures r.None? <==> forall c :: c in cats ==> c.id != catId
    ensures r.Some? ==> exists i :: 0 <= i < |cats| && cats[i] == r.value && r.value.id == catId
                                  && forall j :: 0 <= j < i ==> cats[j].id != catId
  {
    if cats == [] then None
    else if cats[0].id == catId then Some(cats[0])
    else
      var r := FindCategory(cats[1..], catId);
      assert forall c :: c in cats[1..] ==> c in cats;
      assert forall c :: c in cats ==> c == cats[0] || c in cats[1..];
      if r.Some? then
        var i :| 0 <= i < |cats[1..]| && cats[1..][i] == r.value && r.value.id == catId
                 && forall j :: 0 <= j < i ==> cats[1..][j].id != catId;
        assert cats[i + 1] == r.value;
        assert forall j :: 1 <= j < i + 1 ==> cats[j].id == cats[1..][j - 1].id;
        r
      else r
  }

  /** `safe_category`: present iff some category has the id, and then the first such one. */
  function SafeCategory(cats: seq<Category>, catId: string): (r: Maybe<Category>)
    ensures r.IsPresent() <==> exists c :: c in cats && c.id == catId
    ensures r.IsPresent() ==> r.stored == FindCategory(cats, catId) && r.stored.value.id == catId
  {
    Maybe(FindCategory(cats, catId))
  }

  datatype ValidationError = AccountNotFound(accountId: string) | CategoryNotFound(catId: string)

  /**
   * `validate_transaction`: the account is checked first, then the category;
   * a transaction that passes both is returned unchanged.
   */
  function ValidateTransaction(t: Transaction, accs: seq<Account>, cats: seq<Category>): (r: Either<ValidationError, Transaction>)
    ensures r == Left(AccountNotFound(t.accountId)) <==> forall a :: a in accs ==> a.id != t.accountId
    ensures r == Left(CategoryNotFound(t.catId))
        <==> (exists a :: a in accs && a.id == t.accountId) && forall c :: c in cats ==> c.id != t.catId
    ensures r.IsRight() <==> (exists a :: a in accs && a.id == t.accountId) && (exists c :: c in cats && c.id == t.catId)
    ensures r.IsRight() ==> r.value == t
  {
    if !(exists a :: a in accs && a.id == t.accountId) then Left(AccountNotFound(t.accountId))
    else if !SafeCategory(cats, t.catId).IsPresent() then Left(CategoryNotFound(t.catId))
    else Right(t)
  }

  /** The error a budget check returns: the budget, its limit and what was spent. */
  datatype OverBudget = OverBudget(budgetId: string, limit: int, spent: int)

  /** `check_budget`: a left carrying limit and spent exactly when spent exceeds the limit. */
  function CheckBudget(b: Budget, trans: seq<Transaction>): (r: Either<OverBudget, Budget>)
    ensures r.IsLeft() <==> CategorySpent(trans, b.catId) > b.limit
    ensures r.IsLeft() ==> r.error == OverBudget(b.id, b.limit, CategorySpent(trans, b.catId))
    ensures r.IsRight() ==> r.value == b
  {
    var spent := CategorySpent(trans, b.catId);
    if spent > b.limit then Left(OverBudget(b.id, b.limit, spent)) else Right(b)
  }

  /** Appending transactions never brings an exceeded budget back under its limit. */
  lemma {:induction false} CheckBudgetStaysOver(b: Budget, trans: seq<Transaction>, more: seq<Transaction>)
    requires CheckBudget(b, trans).IsLeft()
    ensures CheckBudget(b, trans + more).IsLeft()
    ensures CategorySpent(trans + more, b.catId) >= CategorySpent(trans, b.catId)
    decreases |more|
  {
    if more == [] {
      assert trans + more == trans;
    } else {
      var init := more[..|more| - 1];
      assert trans + more == (trans + init) + [more[|more| - 1]];
      CheckBudgetStaysOver(b, trans, init);
      CategorySpentAppend(trans + init, more[|more| - 1], b.catId);
    }
  }
}
