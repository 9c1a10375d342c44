/**
 * The publish/subscribe buses and the two state handlers that run on
 * `TRANSACTION_ADDED`. A bus keeps, per event name, the list of handlers in
 * subscription order; publishing calls them in that order. The state bus
 * threads the state snapshot through its handlers and returns the last one.
 */
module Frp {
  import opened Domain
  import opened Transforms
  import opened StateUtils

  /** A state handler: `(event, state) -> state`. */
  type StateHandler = (Event, State) -> State

  /** The state after running `hs` in order, each on the previous handler's result. */
  function RunHandlers(hs: seq<StateHandler>, e: Event, s: State): State
    decreases |hs|
  {
    if hs == [] then s else RunHandlers(hs[1..], e, hs[0](e, s))
  }

  /** A handler subscribed last runs last. */
  lemma {:induction false} RunHandlersAppend(hs: seq<StateHandler>, h: StateHandler, e: Event, s: State)
    ensures RunHandlers(hs + [h], e, s) == h(e, RunHandlers(hs, e, s))
    decreases |hs|
  {
    if hs == [] {
      assert [h][1..] == [];
    } else {
      assert (hs + [h])[1..] == hs[1..] + [h];
      RunHandlersAppend(hs[1..], h, e, hs[0](e, s));
    }
  }

  /** Two handlers run one after the other, the first subscribed first. */
  lemma RunTwoHandlers(h1: StateHandler, h2: StateHandler, e: Event, s: State)
    ensures RunHandlers([h1, h2], e, s) == h2(e, h1(e, s))
  {
    var hs := [h1, h2];
    assert hs[1..] == [h2];
    assert hs[1..][1..] == [];
    calc {
      RunHandlers(hs, e, s);
      RunHandlers([h2], e, h1(e, s));
      { assert [h2][1..] == []; }
      RunHandlers([], e, h2(e, h1(e, s)));
    }
  }

  /** `StateEventBus`: handlers that take and return the state. */
  class StateEventBus {
    var subscribers: map<string, seq<StateHandler>>

    constructor()
      ensures subscribers == map[]
    {
      subscribers := map[];
    }

    /** The handlers of one event name; a name nobody subscribed to has none. */
    function HandlersFor(name: string): seq<StateHandler>
      reads this
    {
      if name in subscribers then subscribers[name] else []
    }

    /** `subscribe`: `h` is appended to the handlers of `name`; other names keep theirs. */
    method Subscribe(name: string, h: StateHandler)
      modifies this
      ensures subscribers == old(subscribers)[name := old(HandlersFor(name)) + [h]]
      ensures HandlersFor(name) == old(HandlersFor(name)) + [h]
      ensures forall n :: n != name ==> HandlersFor(n) == old(HandlersFor(n))
    {
      if name !in subscribers {
        subscribers := subscribers[name := []];
      }
      subscribers := subscribers[name := subscribers[name] + [h]];
    }

    /**
     * `publish`: the state is threaded through the handlers of the event's
     * name in subscription order; with none the state comes back as it was.
     */
    method Publish(e: Event, s: State) returns (r: State)
      ensures r == RunHandlers(HandlersFor(e.name), e, s)
      ensures HandlersFor(e.name) == [] ==> r == s
    {
      r := s;
      if e.name in subscribers {
        var hs := subscribers[e.name];
        var i := 0;
        while i < |hs|
          invariant 0 <= i <= |hs|
          invariant RunHandlers(hs[i..], e, r) == RunHandlers(hs, e, s)
        {
          assert hs[i..][1..] == hs[i + 1..];
          r := hs[i](e, r);
          i := i + 1;
        }
        assert hs[i..] == [];
      }
    }
  }

  /**
   * `EventBus`: handlers that return nothing and act on the outside world.
   * Each handler is modelled by the effect it produces for an event, and
   * publishing yields those effects in the order the handlers run.
   */
  class EventBus<Effect> {
    var subscribers: map<string, seq<Event -> Effect>>

    constructor()
      ensures subscribers == map[]
    {
      subscribers := map[];
    }

    function HandlersFor(name: string): seq<Event -> Effect>
      reads this
    {
      if name in subscribers then subscribers[name] else []
    }

    /** `subscribe`: `h` is appended to the handlers of `name`; other names keep theirs. */
    method Subscribe(name: string, h: Event -> Effect)
      modifies this
      ensures subscribers == old(subscribers)[name := old(HandlersFor(name)) + [h]]
      ensures HandlersFor(name) == old(HandlersFor(name)) + [h]
      ensures forall n :: n != name ==> HandlersFor(n) == old(HandlersFor(n))
    {
      if name !in subscribers {
        subscribers := subscribers[name := []];
      }
      subscribers := subscribers[name := subscribers[name] + [h]];
    }

    /** `publish`: every handler of the event's name runs once, in subscription order. */
    method Publish(e: Event) returns (effects: seq<Effect>)
      ensures |effects| == |HandlersFor(e.name)|
      ensures forall i :: 0 <= i < |effects| ==> effects[i] == HandlersFor(e.name)[i](e)
    {
      effects := [];
      if e.name in subscribers {
        var hs := subscribers[e.name];
        for i := 0 to |hs|
          invariant |effects| == i
          invariant forall j :: 0 <= j < i ==> effects[j] == hs[j](e)
        {
          effects := effects + [hs[i](e)];
        }
      }
    }
  }

  // ---------------------------------------------------------------------------
  // Handlers

  /**
   * `on_transaction_added`: the payload's transaction is appended and the
   * accounts it names gain its amount. This is the same change as
   * `create_transaction`, written independently in the source.
   */
  function OnTransactionAdded(e: Event, s: State): (r: State)
    ensures e.payload.EmptyPayload? ==> r == s
    ensures e.payload.TransactionPayload? ==> r == CreateTransaction(s, e.payload.transaction)
  {
    match e.payload
    case EmptyPayload => s
    case TransactionPayload(t) =>
      var accs := s.accounts;
      var newAccs := seq(|accs|, i requires 0 <= i < |accs| =>
        if accs[i].id != t.accountId then accs[i]
        else Account(accs[i].id, accs[i].name, accs[i].balance + t.amount, accs[i].currency));
      var c := CreateTransaction(s, t);
      assert newAccs == c.accounts by {
        assert forall i :: 0 <= i < |accs| ==> newAccs[i] == c.accounts[i];
      }
      s.(transactions := s.transactions + [t], accounts := newAccs)
  }

  /** The alert raised for budget `b` when its category's spending exceeds its limit. */
  function AlertFor(b: Budget, trans: seq<Transaction>): (a: Option<Alert>)
    ensures a.Some? <==> CheckBudget(b, trans).IsLeft()
    ensures a.Some? ==> a.value == BudgetExceeded(b.id, b.limit, CheckBudget(b, trans).error.spent)
  {
    var spent := CategorySpent(trans, b.catId);
    if spent > b.limit then Some(BudgetExceeded(b.id, b.limit, spent)) else None
  }

  /** The alerts `check_budget_handler` appends for a transaction of category `catId`, in budget order. */
  function BudgetAlerts(budgets: seq<Budget>, catId: string, trans: seq<Transaction>): seq<Alert>
  {
    if budgets == [] then []
    else
      var b := budgets[|budgets| - 1];
      var a := AlertFor(b, trans);
      BudgetAlerts(budgets[..|budgets| - 1], catId, trans) + (if b.catId == catId && a.Some? then [a.value] else [])
  }

  /**
   * The handler as the bus runs it: only the alerts change, and they gain
   * `BudgetAlerts` for the payload's category over the state's transactions.
   */
  function BudgetCheck(e: Event, s: State): (r: State)
    ensures r == s.(alerts := r.alerts)
    ensures s.alerts <= r.alerts
  {
    match e.payload
    case EmptyPayload => s
    case TransactionPayload(t) => s.(alerts := s.alerts + BudgetAlerts(s.budgets, t.catId, s.transactions))
  }

  /**
   * `check_budget_handler`: walks the budgets of the transaction's category and
   * appends an alert for each one whose spending exceeds its limit.
   */
  method CheckBudgetHandler(e: Event, s: State) returns (r: State)
    ensures r == BudgetCheck(e, s)
  {
    if e.payload.EmptyPayload? {
      return s;
    }
    var t := e.payload.transaction;
    var budgets := s.budgets;
    var trans := s.transactions;
    var newAlerts := s.alerts;
    for i := 0 to |budgets|
      invariant newAlerts == s.alerts + BudgetAlerts(budgets[..i], t.catId, trans)
    {
      var b := budgets[i];
      assert budgets[..i + 1][..i] == budgets[..i];
      if b.catId == t.catId {
        var spent := CategorySpent(trans, b.catId);
        if spent > b.limit {
          newAlerts := newAlerts + [BudgetExceeded(b.id, b.limit, spent)];
        }
      }
    }
    assert budgets[..|budgets|] == budgets;
    r := s.(alerts := newAlerts);
  }

  /**
   * An alert is raised exactly for the budgets of the category whose check
   * fails, with that budget's id, limit and spending; at most one per budget.
   */
  lemma {:induction false} BudgetAlertsAreOverruns(budgets: seq<Budget>, catId: string, trans: seq<Transaction>)
    ensures |BudgetAlerts(budgets, catId, trans)| <= |budgets|
    ensures forall a :: a in BudgetAlerts(budgets, catId, trans) <==>
              exists b :: b in budgets && b.catId == catId && AlertFor(b, trans) == Some(a)
  {
    if budgets != [] {
      var init := budgets[..|budgets| - 1];
      var b := budgets[|budgets| - 1];
      BudgetAlertsAreOverruns(init, catId, trans);
      assert budgets == init + [b];
      forall a ensures a in BudgetAlerts(budgets, catId, trans) <==>
                       exists x :: x in budgets && x.catId == catId && AlertFor(x, trans) == Some(a)
      {
        if a in BudgetAlerts(budgets, catId, trans) {
          if a in BudgetAlerts(init, catId, trans) {
            var x :| x in init && x.catId == catId && AlertFor(x, trans) == Some(a);
            assert x in budgets;
          } else {
            assert b in budgets;
          }
        }
        if exists x :: x in budgets && x.catId == catId && AlertFor(x, trans) == Some(a) {
          var x :| x in budgets && x.catId == catId && AlertFor(x, trans) == Some(a);
          if x != b {
            assert x in init;
          }
        }
      }
    }
  }

  /** The positions below `n` of the category's budgets whose check fails. */
  ghost function OverBefore(budgets: seq<Budget>, catId: string, trans: seq<Transaction>, n: int): set<int>
  {
    set i | 0 <= i < n && i < |budgets| && budgets[i].catId == catId && AlertFor(budgets[i], trans).Some?
  }

  lemma OverBeforeOfPrefix(budgets: seq<Budget>, catId: string, trans: seq<Transaction>, n: int)
    requires budgets != [] && n <= |budgets| - 1
    ensures OverBefore(budgets, catId, trans, n) == OverBefore(budgets[..|budgets| - 1], catId, trans, n)
  {
  }

  /** The last budget adds its own position when its check fails. */
  lemma OverBeforeStep(budgets: seq<Budget>, catId: string, trans: seq<Transaction>)
    requires budgets != []
    ensures var n := |budgets| - 1;
      n !in OverBefore(budgets[..n], catId, trans, n) &&
      OverBefore(budgets, catId, trans, |budgets|)
        == OverBefore(budgets[..n], catId, trans, n)
           + (if budgets[n].catId == catId && AlertFor(budgets[n], trans).Some? then {n} else {})
  {
    var n := |budgets| - 1;
    OverBeforeOfPrefix(budgets, catId, trans, n);
    forall i ensures i in OverBefore(budgets, catId, trans, |budgets|) <==>
                     i in OverBefore(budgets, catId, trans, n)
                     || (i == n && budgets[n].catId == catId && AlertFor(budgets[n], trans).Some?) {
    }
  }

  /** There are as many alerts as budgets of the category whose check fails. */
  lemma {:induction false} BudgetAlertsCount(budgets: seq<Budget>, catId: string, trans: seq<Transaction>)
    ensures |BudgetAlerts(budgets, catId, trans)| == |OverBefore(budgets, catId, trans, |budgets|)|
  {
    if budgets != [] {
      var n := |budgets| - 1;
      BudgetAlertsCount(budgets[..n], catId, trans);
      OverBeforeStep(budgets, catId, trans);
      assert |budgets[..n]| == n;
    }
  }

  /**
   * The alerts come one per failing budget of the category and in budget
   * order: the failing budget at position `i` raises the alert numbered by
   * how many failing budgets come before it.
   */
  lemma {:induction false} BudgetAlertsInOrder(budgets: seq<Budget>, catId: string, trans: seq<Transaction>)
    ensures forall i :: i in OverBefore(budgets, catId, trans, |budgets|) ==>
              |OverBefore(budgets, catId, trans, i)| < |BudgetAlerts(budgets, catId, trans)|
              && BudgetAlerts(budgets, catId, trans)[|OverBefore(budgets, catId, trans, i)|] == AlertFor(budgets[i], trans).value
  {
    if budgets != [] {
      var n := |budgets| - 1;
      var init := budgets[..n];
      BudgetAlertsInOrder(init, catId, trans);
      BudgetAlertsCount(init, catId, trans);
      OverBeforeStep(budgets, catId, trans);
      var prior := BudgetAlerts(init, catId, trans);
      var alerts := BudgetAlerts(budgets, catId, trans);
      assert |prior| <= |alerts|;
      forall i | i in OverBefore(budgets, catId, trans, |budgets|)
        ensures |OverBefore(budgets, catId, trans, i)| < |alerts|
        ensures alerts[|OverBefore(budgets, catId, trans, i)|] == AlertFor(budgets[i], trans).value
      {
        if i < n {
          OverBeforeOfPrefix(budgets, catId, trans, i);
          assert i in OverBefore(init, catId, trans, |init|);
          assert budgets[i] == init[i];
        } else {
          assert OverBefore(budgets, catId, trans, i) == OverBefore(init, catId, trans, |init|);
        }
      }
    }
  }

  /** No budget for the category, or none over its limit, means no alert. */
  lemma {:induction false} BudgetAlertsNone(budgets: seq<Budget>, catId: string, trans: seq<Transaction>)
    requires forall b :: b in budgets && b.catId == catId ==> CategorySpent(trans, catId) <= b.limit
    ensures BudgetAlerts(budgets, catId, trans) == []
  {
    if budgets != [] {
      var init := budgets[..|budgets| - 1];
      assert forall b :: b in init ==> b in budgets;
      assert budgets[|budgets| - 1] in budgets;
      BudgetAlertsNone(init, catId, trans);
    }
  }

  // ---------------------------------------------------------------------------
  // The wiring of the application

  /**
   * Adding a transaction through the wired handlers: the transaction is
   * recorded and the balance moved first, so the budget check sees the new
   * transaction among those it sums.
   */
  lemma WiredPipeline(e: Event, s: State)
    requires e.payload.TransactionPayload?
    ensures
      var t := e.payload.transaction;
      var r := RunHandlers([OnTransactionAdded, BudgetCheck], e, s);
      && r.transactions == s.transactions + [t]
      && Shifted(s.accounts, r.accounts, t.accountId, t.amount)
      && r.alerts == s.alerts + BudgetAlerts(s.budgets, t.catId, s.transactions + [t])
      && r.categories == s.categories && r.budgets == s.budgets
  {
    RunTwoHandlers(OnTransactionAdded, BudgetCheck, e, s);
  }

  /** The wired handlers keep the cached balances in step with the history. */
  lemma WiredPipelineKeepsBalances(e: Event, s: State, opening: seq<int>)
    requires BalancesFollow(s, opening)
    ensures BalancesFollow(RunHandlers([OnTransactionAdded, BudgetCheck], e, s), opening)
  {
    RunTwoHandlers(OnTransactionAdded, BudgetCheck, e, s);
    if e.payload.TransactionPayload? {
      CreateKeepsBalances(s, opening, e.payload.transaction);
    }
  }

  /**
   * The application's bus: `on_transaction_added`, then `check_budget_handler`,
   * both on `TRANSACTION_ADDED`.
   */
  method WireBus() returns (bus: StateEventBus)
    ensures fresh(bus)
    ensures bus.HandlersFor(TRANSACTION_ADDED) == [OnTransactionAdded, BudgetCheck]
    ensures forall n :: n != TRANSACTION_ADDED ==> bus.HandlersFor(n) == []
  {
    bus := new StateEventBus();
    bus.Subscribe(TRANSACTION_ADDED, OnTransactionAdded);
    bus.Subscribe(TRANSACTION_ADDED, BudgetCheck);
  }

  /**
   * One expense published on the wired bus: the account drops to 900, the
   * expense is recorded, and the budget of 50 on its category raises one alert
   * with 100 spent. Subscribed the other way round, the check runs before the
   * expense is recorded and raises nothing.
   */
  method PublishScenario() returns (r: State, reversed: State)
    ensures r.accounts == [Account("acc1", "Main", 900, "RUB")]
    ensures r.transactions == [Transaction("t1", "acc1", "c1", -100, "2024-01-05", "")]
    ensures r.alerts == [BudgetExceeded("b1", 50, 100)]
    ensures reversed.alerts == []
  {
    var t := Transaction("t1", "acc1", "c1", -100, "2024-01-05", "");
    var s := State([Account("acc1", "Main", 1000, "RUB")], [], [], [Budget("b1", "c1", 50, "month")], []);
    var e := Event("e1", "2024-01-05", TRANSACTION_ADDED, TransactionPayload(t));
    var bus := WireBus();
    r := bus.Publish(e, s);
    WiredPipeline(e, s);
    assert CategorySpent([t], "c1") == 100 by { assert [t][..0] == []; }
    var b1 := s.budgets[0];
    assert [b1][..0] == [];
    assert r.alerts == [] + BudgetAlerts([b1], "c1", [t]);
    assert Shifted(s.accounts, r.accounts, "acc1", -100);

    var other := new StateEventBus();
    other.Subscribe(TRANSACTION_ADDED, BudgetCheck);
    other.Subscribe(TRANSACTION_ADDED, OnTransactionAdded);
    reversed := other.Publish(e, s);
    RunTwoHandlers(BudgetCheck, OnTransactionAdded, e, s);
    assert CategorySpent([], "c1") == 0;
    assert BudgetAlerts([b1], "c1", []) == [];
  }
}
