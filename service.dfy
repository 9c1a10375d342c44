/**
 * The reporting services: a per-budget monthly report, a per-category
 * expense report, expenses per month prefix, and a balance forecast. The
 * source's coroutines are modelled by the values they return.
 */
module Service {
  import opened Domain
  import opened Transforms

  // ---------------------------------------------------------------------------
  // BudgetService.monthly_report

  datatype Status = Ok | Over

  /** One report entry: `{"limit": ..., "spent": ..., "status": ...}`. */
  datatype BudgetLine = BudgetLine(limit: int, spent: int, status: Status)

  /** The entry for one budget: its limit, its category's spending, over when spending exceeds the limit. */
  function LineFor(b: Budget, trans: seq<Transaction>): (l: BudgetLine)
    ensures l.limit == b.limit && l.spent == CategorySpent(trans, b.catId)
    ensures l.status == Over <==> CheckBudget(b, trans).IsLeft()
  {
    var spent := CategorySpent(trans, b.catId);
    BudgetLine(b.limit, spent, if spent <= b.limit then Ok else Over)
  }

  /** The report after the budgets in order, each writing its id's entry. */
  function ReportOf(budgets: seq<Budget>, trans: seq<Transaction>): map<string, BudgetLine>
  {
    if budgets == [] then map[]
    else
      var b := budgets[|budgets| - 1];
      ReportOf(budgets[..|budgets| - 1], trans)[b.id := LineFor(b, trans)]
  }

  /** `monthly_report`: one entry per budget id, filled in budget order. */
  method MonthlyReport(budgets: seq<Budget>, trans: seq<Transaction>) returns (report: map<string, BudgetLine>)
    ensures report == ReportOf(budgets, trans)
  {
    report := map[];
    for i := 0 to |budgets|
      invariant report == ReportOf(budgets[..i], trans)
    {
      var b := budgets[i];
      assert budgets[..i + 1][..i] == budgets[..i];
      var spent := CategorySpent(trans, b.catId);
      var status := if spent <= b.limit then Ok else Over;
      report := report[b.id := BudgetLine(b.limit, spent, status)];
    }
    assert budgets[..|budgets|] == budgets;
  }

  /**
   * The report has an entry for exactly the budget ids; when ids repeat, the
   * last budget with the id decides its entry.
   */
  lemma {:induction false} ReportEntries(budgets: seq<Budget>, trans: seq<Transaction>)
    ensures forall id :: id in ReportOf(budgets, trans) <==> exists b :: b in budgets && b.id == id
    ensures forall i :: 0 <= i < |budgets| && (forall j :: i < j < |budgets| ==> budgets[j].id != budgets[i].id)
              ==> ReportOf(budgets, trans)[budgets[i].id] == LineFor(budgets[i], trans)
  {
    if budgets != [] {
      var init := budgets[..|budgets| - 1];
      var b := budgets[|budgets| - 1];
      ReportEntries(init, trans);
      assert budgets == init + [b];
      forall i | 0 <= i < |budgets| && (forall j :: i < j < |budgets| ==> budgets[j].id != budgets[i].id)
        ensures ReportOf(budgets, trans)[budgets[i].id] == LineFor(budgets[i], trans)
      {
        if i < |init| {
          assert init[i] == budgets[i];
          assert forall j :: i < j < |init| ==> init[j] == budgets[j];
        }
      }
    }
  }

  // ---------------------------------------------------------------------------
  // ReportService.category_report

  /** `{"cat_id": ..., "total_expense": ..., "transaction_count": ...}` */
  datatype CategoryReportData = CategoryReportData(catId: string, totalExpense: int, transactionCount: nat)

  /** `[t for t in trans if t.cat_id == cat_id and t.amount < 0]` */
  function ExpensesOf(trans: seq<Transaction>, catId: string): (r: seq<Transaction>)
    ensures forall t :: t in r ==> t.catId == catId && t.amount < 0
  {
    if trans == [] then []
    else
      var last := trans[|trans| - 1];
      ExpensesOf(trans[..|trans| - 1], catId) + (if last.catId == catId && last.amount < 0 then [last] else [])
  }

  /** The positions of the category's expenses in `trans`. */
  ghost function ExpenseIndices(trans: seq<Transaction>, catId: string): set<int>
  {
    set i | 0 <= i < |trans| && trans[i].catId == catId && trans[i].amount < 0
  }

  /** The filter keeps exactly the category's expenses. */
  lemma {:induction false} ExpensesOfMembers(trans: seq<Transaction>, catId: string)
    ensures forall t :: t in ExpensesOf(trans, catId) <==> t in trans && t.catId == catId && t.amount < 0
  {
    if trans != [] {
      ExpensesOfMembers(trans[..|trans| - 1], catId);
      assert trans == trans[..|trans| - 1] + [trans[|trans| - 1]];
    }
  }

  /** The filter keeps one entry per position of an expense of the category. */
  lemma {:induction false} ExpensesOfCount(trans: seq<Transaction>, catId: string)
    ensures |ExpensesOf(trans, catId)| == |ExpenseIndices(trans, catId)|
  {
    if trans != [] {
      var n := |trans| - 1;
      ExpensesOfCount(trans[..n], catId);
      ExpenseIndicesStep(trans, catId);
    }
  }

  /** One more transaction adds its own position when it is an expense of the category. */
  lemma ExpenseIndicesStep(trans: seq<Transaction>, catId: string)
    requires trans != []
    ensures var n := |trans| - 1;
      n !in ExpenseIndices(trans[..n], catId) &&
      ExpenseIndices(trans, catId)
        == ExpenseIndices(trans[..n], catId) + (if trans[n].catId == catId && trans[n].amount < 0 then {n} else {})
  {
    var n := |trans| - 1;
    var before := ExpenseIndices(trans[..n], catId);
    forall i ensures i in ExpenseIndices(trans, catId) <==> i in before || (i == n && trans[n].catId == catId && trans[n].amount < 0) {
      if 0 <= i < n {
        assert trans[..n][i] == trans[i];
      }
    }
  }

  /** `sum(abs(t.amount) for t in filtered)` */
  function SumAbs(ts: seq<Transaction>): nat
  {
    if ts == [] then 0 else SumAbs(ts[..|ts| - 1]) + Abs(ts[|ts| - 1].amount)
  }

  /** `category_report`: the category's total spending and how many expenses make it up. */
  function CategoryReport(catId: string, trans: seq<Transaction>): (r: CategoryReportData)
    ensures r.catId == catId
    ensures r.transactionCount == |ExpenseIndices(trans, catId)|
  {
    ExpensesOfCount(trans, catId);
    var filtered := ExpensesOf(trans, catId);
    CategoryReportData(catId, SumAbs(filtered), |filtered|)
  }

  /**
   * The report's total is the category's spending as the budget check counts
   * it; each expense adds at least 1, so the count never exceeds the total,
   * and the total is 0 exactly when there is no expense.
   */
  lemma {:induction false} CategoryReportTotals(catId: string, trans: seq<Transaction>)
    ensures CategoryReport(catId, trans).totalExpense == CategorySpent(trans, catId)
    ensures CategoryReport(catId, trans).transactionCount <= CategoryReport(catId, trans).totalExpense
    ensures CategoryReport(catId, trans).totalExpense == 0 <==> CategoryReport(catId, trans).transactionCount == 0
  {
    if trans != [] {
      var init := trans[..|trans| - 1];
      var last := trans[|trans| - 1];
      CategoryReportTotals(catId, init);
      var f := ExpensesOf(init, catId);
      CategorySpentAppend(init, last, catId);
      assert trans == init + [last];
      if last.catId == catId && last.amount < 0 {
        assert ExpensesOf(trans, catId) == f + [last];
        assert (f + [last])[..|f|] == f;
        assert SumAbs(f + [last]) == SumAbs(f) + Abs(last.amount);
      } else {
        assert ExpensesOf(trans, catId) == f;
      }
    }
  }

  // ---------------------------------------------------------------------------
  // ReportService.expenses_by_month

  /** `s.startswith(prefix)` */
  predicate StartsWith(s: string, prefix: string)
  {
    prefix <= s
  }

  /** `calc_month(m)`: spending of the transactions whose timestamp starts with `m`. */
  function MonthSpent(trans: seq<Transaction>, m: string): nat
  {
    if trans == [] then 0
    else
      var last := trans[|trans| - 1];
      MonthSpent(trans[..|trans| - 1], m) + (if StartsWith(last.ts, m) && last.amount < 0 then Abs(last.amount) else 0)
  }

  /** `expenses_by_month`: each requested month prefix with its spending. */
  function ExpensesByMonth(trans: seq<Transaction>, months: seq<string>): (r: map<string, nat>)
    ensures r.Keys == set m | m in months
    ensures forall m :: m in r ==> r[m] == MonthSpent(trans, m)
  {
    map m | m in months :: MonthSpent(trans, m)
  }

  /** A month prefix that no expense's timestamp starts with reports 0. */
  lemma {:induction false} MonthSpentNone(trans: seq<Transaction>, m: string)
    requires forall t :: t in trans && t.amount < 0 ==> !StartsWith(t.ts, m)
    ensures MonthSpent(trans, m) == 0
  {
    if trans != [] {
      MonthSpentNone(trans[..|trans| - 1], m);
      assert trans[|trans| - 1] in trans;
    }
  }

  /** All spending, whatever the category or date. */
  function TotalSpent(trans: seq<Transaction>): nat
  {
    if trans == [] then 0
    else
      var last := trans[|trans| - 1];
      TotalSpent(trans[..|trans| - 1]) + (if last.amount < 0 then Abs(last.amount) else 0)
  }

  /**
   * A longer prefix selects fewer transactions, so it never reports more; the
   * empty prefix selects every transaction and reports all spending.
   */
  lemma {:induction false} MonthSpentNarrows(trans: seq<Transaction>, m1: string, m2: string)
    requires m1 <= m2
    ensures MonthSpent(trans, m2) <= MonthSpent(trans, m1)
    ensures MonthSpent(trans, []) == TotalSpent(trans)
  {
    if trans != [] {
      MonthSpentNarrows(trans[..|trans| - 1], m1, m2);
      PrefixTransitive(m1, m2, trans[|trans| - 1].ts);
    }
  }

  lemma PrefixTransitive(a: string, b: string, c: string)
    requires a <= b
    ensures b <= c ==> a <= c
  {
  }

  /** Two months that are not prefixes of each other share no transaction: their spending adds up within the total. */
  lemma {:induction false} MonthsAddUp(trans: seq<Transaction>, m1: string, m2: string)
    requires !(m1 <= m2) && !(m2 <= m1)
    ensures MonthSpent(trans, m1) + MonthSpent(trans, m2) <= TotalSpent(trans)
  {
    if trans != [] {
      var ts := trans[|trans| - 1].ts;
      MonthsAddUp(trans[..|trans| - 1], m1, m2);
      if m1 <= ts && m2 <= ts {
        PrefixesComparable(m1, m2, ts);
      }
    }
  }

  /** Two prefixes of one string are prefixes of each other. */
  lemma PrefixesComparable(a: string, b: string, s: string)
    requires a <= s && b <= s
    ensures a <= b || b <= a
  {
    if |a| <= |b| {
      assert a == s[..|a|] && b == s[..|b|];
      assert a == b[..|a|];
    } else {
      assert a == s[..|a|] && b == s[..|b|];
      assert b == a[..|b|];
    }
  }

  // ---------------------------------------------------------------------------
  // ReportService.balance_forecast

  /** `{a.id: a.balance for a in accounts}`: the last account with an id decides its balance. */
  function Openings(accounts: seq<Account>): map<string, int>
  {
    if accounts == [] then map[]
    else
      var a := accounts[|accounts| - 1];
      Openings(accounts[..|accounts| - 1])[a.id := a.balance]
  }

  /** One transaction applied to the balances: only a known account moves. */
  function Apply(balances: map<string, int>, t: Transaction): map<string, int>
  {
    if t.accountId in balances then balances[t.accountId := balances[t.accountId] + t.amount] else balances
  }

  /** The balances after applying the transactions in order to the opening balances. */
  function ForecastOf(accounts: seq<Account>, trans: seq<Transaction>): map<string, int>
  {
    if trans == [] then Openings(accounts)
    else Apply(ForecastOf(accounts, trans[..|trans| - 1]), trans[|trans| - 1])
  }

  /**
   * `balance_forecast`: starts from the accounts' balances and applies each
   * transaction to its account; transactions of unknown accounts are skipped
   * and add no entry.
   */
  method BalanceForecast(accounts: seq<Account>, trans: seq<Transaction>) returns (balances: map<string, int>)
    ensures balances == ForecastOf(accounts, trans)
  {
    balances := Openings(accounts);
    for i := 0 to |trans|
      invariant balances == ForecastOf(accounts, trans[..i])
    {
      var t := trans[i];
      assert trans[..i + 1][..i] == trans[..i];
      if t.accountId in balances {
        balances := balances[t.accountId := balances[t.accountId] + t.amount];
      }
    }
    assert trans[..|trans|] == trans;
  }

  /**
   * The forecast has an entry for exactly the known accounts, and each is the
   * opening balance plus the account's transaction amounts.
   */
  lemma {:induction false} ForecastIsOpeningPlusHistory(accounts: seq<Account>, trans: seq<Transaction>)
    ensures ForecastOf(accounts, trans).Keys == Openings(accounts).Keys
    ensures forall id :: id in Openings(accounts) ==>
              ForecastOf(accounts, trans)[id] == Openings(accounts)[id] + AccountBalance(trans, id)
  {
    if trans == [] {
      forall id | id in Openings(accounts) ensures AccountBalance(trans, id) == 0 {
        AccountBalanceNone(trans, id);
      }
    } else {
      var init := trans[..|trans| - 1];
      var t := trans[|trans| - 1];
      ForecastIsOpeningPlusHistory(accounts, init);
      assert trans == init + [t];
      forall id | id in Openings(accounts)
        ensures ForecastOf(accounts, trans)[id] == Openings(accounts)[id] + AccountBalance(trans, id)
      {
        AccountBalanceAppend(init, t, id);
      }
    }
  }

  /**
   * The opening balances have an entry for exactly the account ids, and the
   * last account with an id gives that id's balance.
   */
  lemma {:induction false} OpeningsLastWins(accounts: seq<Account>)
    ensures forall id :: id in Openings(accounts) <==> exists a :: a in accounts && a.id == id
    ensures forall i :: 0 <= i < |accounts| && (forall j :: i < j < |accounts| ==> accounts[j].id != accounts[i].id)
              ==> Openings(accounts)[accounts[i].id] == accounts[i].balance
  {
    if accounts != [] {
      var init := accounts[..|accounts| - 1];
      var a := accounts[|accounts| - 1];
      OpeningsLastWins(init);
      assert accounts == init + [a];
      forall i | 0 <= i < |accounts| && (forall j :: i < j < |accounts| ==> accounts[j].id != accounts[i].id)
        ensures Openings(accounts)[accounts[i].id] == accounts[i].balance
      {
        if i < |init| {
          assert init[i] == accounts[i];
          assert forall j :: i < j < |init| ==> init[j] == accounts[j];
        }
      }
    }
  }
}
