/**
 * The state-transition commands. Each takes a snapshot and returns a new one;
 * creating, updating and deleting a transaction keep the owning account's
 * cached balance in step, and the administrative overwrite sets a balance
 * outright.
 */
module StateUtils {
  import opened Domain
  import opened Transforms

  /**
   * `new_data` of `update_transaction`: each field the caller may supply.
   * A missing dictionary key is `None`.
   */
  datatype Patch = Patch(
    accountId: Option<string>,
    catId: Option<string>,
    amount: Option<int>,
    ts: Option<string>,
    note: Option<string>)

  /** Every account with id `accId` has its balance moved by `delta`; nothing else differs. */
  ghost predicate Shifted(before: seq<Account>, after: seq<Account>, accId: string, delta: int)
  {
    && |after| == |before|
    && forall i :: 0 <= i < |before| ==>
         after[i] == before[i].(balance := before[i].balance + (if before[i].id == accId then delta else 0))
  }

  /** The account tuple rebuilt with `balance + delta` for each account with id `accId`. */
  function AdjustBalance(accs: seq<Account>, accId: string, delta: int): (r: seq<Account>)
    ensures Shifted(accs, r, accId, delta)
  {
    seq(|accs|, i requires 0 <= i < |accs| =>
      if accs[i].id == accId then Account(accs[i].id, accs[i].name, accs[i].balance + delta, accs[i].currency)
      else accs[i])
  }

  /** `next((t for t in transactions if t.id == t_id), None)`: the first transaction with the id. */
  function FindTransaction(trans: seq<Transaction>, id: string): (r: Option<Transaction>)
    ensures r.None? <==> forall t :: t in trans ==> t.id != id
    ensures r.Some? ==> exists k :: 0 <= k < |trans| && trans[k] == r.value && r.value.id == id
                                  && forall j :: 0 <= j < k ==> trans[j].id != id
  {
    if trans == [] then None
    else if trans[0].id == id then Some(trans[0])
    else
      var r := FindTransaction(trans[1..], id);
      assert forall t :: t in trans[1..] ==> t in trans;
      assert forall t :: t in trans ==> t == trans[0] || t in trans[1..];
      if r.Some? then
        var k :| 0 <= k < |trans[1..]| && trans[1..][k] == r.value && r.value.id == id
                 && forall j :: 0 <= j < k ==> trans[1..][j].id != id;
        assert trans[k + 1] == r.value;
        assert forall j :: 1 <= j < k + 1 ==> trans[j].id == trans[1..][j - 1].id;
        r
      else r
  }

  /** `tuple(t for t in transactions if t.id != t_id)` */
  function WithoutId(trans: seq<Transaction>, id: string): (r: seq<Transaction>)
    ensures |r| <= |trans|
  {
    if trans == [] then []
    else
      var last := trans[|trans| - 1];
      WithoutId(trans[..|trans| - 1], id) + (if last.id != id then [last] else [])
  }

  /** `Transaction(...)` built by `update_transaction` from an entry `t` with the matching id. */
  function Patched(t: Transaction, p: Patch, newAmount: int): Transaction
  {
    Transaction(t.id, p.accountId.GetOr(t.accountId), p.catId.GetOr(t.catId), newAmount, p.ts.GetOr(t.ts), p.note.GetOr(t.note))
  }

  // ---------------------------------------------------------------------------
  // The commands

  /**
   * `update_account_balance`: every account with id `accId` gets balance
   * `newBalance` and keeps its id, name and currency; nothing else changes.
   */
  function UpdateAccountBalance(s: State, accId: string, newBalance: int): (r: State)
    ensures r == s.(accounts := r.accounts)
    ensures |r.accounts| == |s.accounts|
    ensures forall i :: 0 <= i < |s.accounts| ==> r.accounts[i] == s.accounts[i].(balance := r.accounts[i].balance)
    ensures forall i :: 0 <= i < |s.accounts| ==>
              r.accounts[i].balance == if s.accounts[i].id == accId then newBalance else s.accounts[i].balance
  {
    var accounts := s.accounts;
    var newAccounts := seq(|accounts|, i requires 0 <= i < |accounts| =>
      if accounts[i].id == accId then Account(accounts[i].id, accounts[i].name, newBalance, accounts[i].currency)
      else accounts[i]);
    s.(accounts := newAccounts)
  }

  /**
   * `create_transaction`: `t` is appended to the transactions and every account
   * with id `t.accountId` gains `t.amount`; with no such account no balance
   * changes. Categories, budgets and alerts are untouched.
   */
  function CreateTransaction(s: State, t: Transaction): (r: State)
    ensures r == s.(accounts := r.accounts, transactions := r.transactions)
    ensures r.transactions == s.transactions + [t] && |r.transactions| == |s.transactions| + 1
    ensures Shifted(s.accounts, r.accounts, t.accountId, t.amount)
  {
    var newTransactions := s.transactions + [t];
    var newAccounts := AdjustBalance(s.accounts, t.accountId, t.amount);
    s.(transactions := newTransactions, accounts := newAccounts)
  }

  /**
   * `update_transaction`: an unknown id leaves the state as it is. Otherwise,
   * with `orig` the first transaction with the id and `a` the patch amount
   * (or `orig.amount`), every entry with the id is rebuilt from the patch
   * with amount `a`, in place, and the accounts of `orig.accountId` (the
   * original account, whatever the patch says) move by `a - orig.amount`.
   */
  function UpdateTransaction(s: State, id: string, p: Patch): (r: State)
    ensures FindTransaction(s.transactions, id).None? ==> r == s
    ensures FindTransaction(s.transactions, id).Some? ==>
      var orig := FindTransaction(s.transactions, id).value;
      var newAmount := p.amount.GetOr(orig.amount);
      && r == s.(accounts := r.accounts, transactions := r.transactions)
      && |r.transactions| == |s.transactions|
      && (forall i :: 0 <= i < |s.transactions| && s.transactions[i].id != id ==> r.transactions[i] == s.transactions[i])
      && (forall i :: 0 <= i < |s.transactions| && s.transactions[i].id == id ==>
            r.transactions[i] == Patched(s.transactions[i], p, newAmount))
      && Shifted(s.accounts, r.accounts, orig.accountId, newAmount - orig.amount)
  {
    var transactions := s.transactions;
    match FindTransaction(transactions, id)
    case None => s
    case Some(orig) =>
      var newAmount := p.amount.GetOr(orig.amount);
      var diff := newAmount - orig.amount;
      var newTransactions := seq(|transactions|, i requires 0 <= i < |transactions| =>
        if transactions[i].id == id then Patched(transactions[i], p, newAmount) else transactions[i]);
      var newAccounts := AdjustBalance(s.accounts, orig.accountId, diff);
      s.(transactions := newTransactions, accounts := newAccounts)
  }

  /**
   * `delete_transaction`: an unknown id leaves the state as it is. Otherwise
   * every transaction with the id is removed, the rest keep their order, and
   * the accounts of the first match's account lose that match's amount once.
   */
  function DeleteTransaction(s: State, id: string): (r: State)
    ensures FindTransaction(s.transactions, id).None? ==> r == s
    ensures FindTransaction(s.transactions, id).Some? ==>
      var found := FindTransaction(s.transactions, id).value;
      && r == s.(accounts := r.accounts, transactions := r.transactions)
      && r.transactions == WithoutId(s.transactions, id)
      && Shifted(s.accounts, r.accounts, found.accountId, -found.amount)
  {
    match FindTransaction(s.transactions, id)
    case None => s
    case Some(found) =>
      var newTransactions := WithoutId(s.transactions, id);
      var newAccounts := AdjustBalance(s.accounts, found.accountId, -found.amount);
      s.(transactions := newTransactions, accounts := newAccounts)
  }

  // ---------------------------------------------------------------------------
  // Laws

  /** Transaction ids are pairwise distinct. */
  ghost predicate UniqueIds(trans: seq<Transaction>)
  {
    forall i, j :: 0 <= i < j < |trans| ==> trans[i].id != trans[j].id
  }

  /**
   * The cached balances agree with the history: account `i` holds its
   * opening balance `opening[i]` plus the amounts of its transactions.
   */
  ghost predicate BalancesFollow(s: State, opening: seq<int>)
  {
    && |opening| == |s.accounts|
    && forall i :: 0 <= i < |s.accounts| ==>
         s.accounts[i].balance == opening[i] + AccountBalance(s.transactions, s.accounts[i].id)
  }

  /** The filter keeps exactly the transactions whose id differs. */
  lemma {:induction false} WithoutIdMembers(trans: seq<Transaction>, id: string)
    ensures forall t :: t in WithoutId(trans, id) <==> t in trans && t.id != id
  {
    if trans != [] {
      var init := trans[..|trans| - 1];
      WithoutIdMembers(init, id);
      assert trans == init + [trans[|trans| - 1]];
    }
  }

  lemma {:induction false} WithoutIdAbsent(trans: seq<Transaction>, id: string)
    requires forall t :: t in trans ==> t.id != id
    ensures WithoutId(trans, id) == trans
  {
    if trans != [] {
      var init := trans[..|trans| - 1];
      assert forall t :: t in init ==> t in trans;
      WithoutIdAbsent(init, id);
      assert trans[|trans| - 1] in trans;
      SnocSplit(trans);
    }
  }

  /** A non-empty sequence is its front followed by its last entry. */
  lemma SnocSplit<T>(s: seq<T>)
    requires s != []
    ensures s[..|s| - 1] + [s[|s| - 1]] == s
  {
  }

  /** Removing an id is done part by part: it keeps the order of what stays. */
  lemma {:induction false} WithoutIdConcat(a: seq<Transaction>, b: seq<Transaction>, id: string)
    ensures WithoutId(a + b, id) == WithoutId(a, id) + WithoutId(b, id)
    decreases |b|
  {
    if b == [] {
      assert a + b == a;
    } else {
      var init := b[..|b| - 1];
      var last := b[|b| - 1];
      assert (a + b)[..|a + b| - 1] == a + init;
      assert (a + b)[|a + b| - 1] == last;
      WithoutIdConcat(a, init, id);
    }
  }

  /** The appended transaction is the first with its id when that id was new. */
  lemma FindAppendedNew(trans: seq<Transaction>, t: Transaction)
    requires forall x :: x in trans ==> x.id != t.id
    ensures FindTransaction(trans + [t], t.id) == Some(t)
  {
    var all := trans + [t];
    var k :| 0 <= k < |all| && all[k] == FindTransaction(all, t.id).value
              && FindTransaction(all, t.id).value.id == t.id;
    assert forall j :: 0 <= j < |trans| ==> all[j] == trans[j] && trans[j] in trans;
  }

  /** Moving balances by `delta` and back by `-delta` restores every account. */
  lemma ShiftedCancels(a: seq<Account>, b: seq<Account>, c: seq<Account>, accId: string, delta: int)
    requires Shifted(a, b, accId, delta) && Shifted(b, c, accId, -delta)
    ensures c == a
  {
    assert forall i :: 0 <= i < |a| ==> c[i] == a[i];
  }

  /** Deleting what was just created restores the snapshot, when the id was new. */
  lemma CreateDeleteInverse(s: State, t: Transaction)
    requires forall x :: x in s.transactions ==> x.id != t.id
    ensures DeleteTransaction(CreateTransaction(s, t), t.id) == s
  {
    var c := CreateTransaction(s, t);
    FindAppendedNew(s.transactions, t);
    var d := DeleteTransaction(c, t.id);
    RemovingAppendedNew(s.transactions, t);
    ShiftedCancels(s.accounts, c.accounts, d.accounts, t.accountId, t.amount);
  }

  /** Removing the id of an appended transaction whose id was new gives back the history. */
  lemma RemovingAppendedNew(trans: seq<Transaction>, t: Transaction)
    requires forall x :: x in trans ==> x.id != t.id
    ensures WithoutId(trans + [t], t.id) == trans
  {
    WithoutIdConcat(trans, [t], t.id);
    WithoutIdAbsent(trans, t.id);
    assert WithoutId([t], t.id) == [] by { assert [t][..0] == []; }
  }

  /** `create_transaction` keeps the cached balances in step with the history. */
  lemma CreateKeepsBalances(s: State, opening: seq<int>, t: Transaction)
    requires BalancesFollow(s, opening)
    ensures BalancesFollow(CreateTransaction(s, t), opening)
  {
    var r := CreateTransaction(s, t);
    forall i | 0 <= i < |r.accounts|
      ensures r.accounts[i].balance == opening[i] + AccountBalance(r.transactions, r.accounts[i].id)
    {
      AccountBalanceAppend(s.transactions, t, s.accounts[i].id);
    }
  }

  /** Distinct ids stay distinct when the new transaction's id is new. */
  lemma CreateKeepsIdsUnique(s: State, t: Transaction)
    requires UniqueIds(s.transactions)
    requires forall x :: x in s.transactions ==> x.id != t.id
    ensures UniqueIds(CreateTransaction(s, t).transactions)
  {
    var r := CreateTransaction(s, t).transactions;
    forall i, j | 0 <= i < j < |r| ensures r[i].id != r[j].id {
      if j == |s.transactions| {
        assert r[i] in s.transactions;
      }
    }
  }

  /**
   * With distinct ids, `delete_transaction` keeps the cached balances in step:
   * the one removed transaction's amount leaves its account.
   */
  lemma DeleteKeepsBalances(s: State, opening: seq<int>, id: string)
    requires BalancesFollow(s, opening) && UniqueIds(s.transactions)
    ensures BalancesFollow(DeleteTransaction(s, id), opening)
  {
    var trans := s.transactions;
    if FindTransaction(trans, id).Some? {
      var k :| 0 <= k < |trans| && trans[k] == FindTransaction(trans, id).value && trans[k].id == id;
      var r := DeleteTransaction(s, id);
      forall i | 0 <= i < |r.accounts|
        ensures r.accounts[i].balance == opening[i] + AccountBalance(r.transactions, r.accounts[i].id)
      {
        WithoutIdBalance(trans, k, s.accounts[i].id);
      }
    }
  }

  /**
   * With distinct ids, removing the id of entry `k` removes exactly that entry:
   * the history sum loses its amount when it belongs to the account.
   */
  lemma WithoutIdBalance(trans: seq<Transaction>, k: nat, accId: string)
    requires UniqueIds(trans) && k < |trans|
    ensures AccountBalance(WithoutId(trans, trans[k].id), accId)
         == AccountBalance(trans, accId) - (if trans[k].accountId == accId then trans[k].amount else 0)
  {
    WithoutIdAtUnique(trans, k);
    var pre, post := trans[..k], trans[k + 1..];
    assert trans == pre + [trans[k]] + post;
    AccountBalanceConcat(pre + [trans[k]], post, accId);
    AccountBalanceAppend(pre, trans[k], accId);
    AccountBalanceConcat(pre, post, accId);
  }

  /** With distinct ids, removing the id of entry `k` removes exactly that entry. */
  lemma WithoutIdAtUnique(trans: seq<Transaction>, k: nat)
    requires UniqueIds(trans) && k < |trans|
    ensures WithoutId(trans, trans[k].id) == trans[..k] + trans[k + 1..]
  {
    var pre, x, post := trans[..k], trans[k], trans[k + 1..];
    assert (forall y :: y in pre ==> y.id != x.id) && (forall y :: y in post ==> y.id != x.id) by {
      IdOnlyAt(trans, k);
    }
    WithoutIdSplit(pre, x, post);
    SplitAt(trans, k);
  }

  /** A sequence is its prefix, entry `k` and suffix put back together. */
  lemma SplitAt<T>(s: seq<T>, k: nat)
    requires k < |s|
    ensures s[..k] + [s[k]] + s[k + 1..] == s
  {
  }

  /** Removing the id of an entry that no other entry shares removes exactly that entry. */
  lemma WithoutIdSplit(pre: seq<Transaction>, x: Transaction, post: seq<Transaction>)
    requires forall y :: y in pre ==> y.id != x.id
    requires forall y :: y in post ==> y.id != x.id
    ensures WithoutId(pre + [x] + post, x.id) == pre + post
  {
    WithoutIdAbsent(pre, x.id);
    WithoutIdAbsent(post, x.id);
    WithoutIdConcat(pre + [x], post, x.id);
    assert WithoutId(pre + [x], x.id) == WithoutId(pre, x.id) by {
      assert (pre + [x])[..|pre|] == pre;
    }
  }

  /** With distinct ids, no entry before or after `k` shares its id. */
  lemma IdOnlyAt(trans: seq<Transaction>, k: nat)
    requires UniqueIds(trans) && k < |trans|
    ensures forall x :: x in trans[..k] ==> x.id != trans[k].id
    ensures forall x :: x in trans[k + 1..] ==> x.id != trans[k].id
  {
    forall x | x in trans[k + 1..] ensures x.id != trans[k].id {
      var m :| 0 <= m < |trans[k + 1..]| && trans[k + 1..][m] == x;
      assert trans[k + 1 + m] == x;
    }
  }

  /** Distinct ids stay distinct after a delete. */
  lemma DeleteKeepsIdsUnique(s: State, id: string)
    requires UniqueIds(s.transactions)
    ensures UniqueIds(DeleteTransaction(s, id).transactions)
  {
    UniqueIdsFilter(s.transactions, id);
  }

  lemma {:induction false} UniqueIdsFilter(trans: seq<Transaction>, id: string)
    requires UniqueIds(trans)
    ensures UniqueIds(WithoutId(trans, id))
  {
    if trans != [] {
      var init := trans[..|trans| - 1];
      var last := trans[|trans| - 1];
      UniqueIdsFilter(init, id);
      var w := WithoutId(init, id);
      WithoutIdMembers(init, id);
      forall x | x in w ensures x.id != last.id {
        var m :| 0 <= m < |init| && init[m] == x;
      }
    }
  }

  /** Replacing one entry moves an account's history sum by the difference of the two entries. */
  lemma AccountBalanceReplace(a: seq<Transaction>, b: seq<Transaction>, k: nat, accId: string)
    requires |a| == |b| && k < |a|
    requires forall i :: 0 <= i < |a| && i != k ==> a[i] == b[i]
    ensures AccountBalance(b, accId)
         == AccountBalance(a, accId) - (if a[k].accountId == accId then a[k].amount else 0)
                                     + (if b[k].accountId == accId then b[k].amount else 0)
  {
    assert a == a[..k] + [a[k]] + a[k + 1..];
    assert b == b[..k] + [b[k]] + b[k + 1..];
    assert a[..k] == b[..k];
    assert a[k + 1..] == b[k + 1..];
    AccountBalanceConcat(a[..k] + [a[k]], a[k + 1..], accId);
    AccountBalanceConcat(b[..k] + [b[k]], b[k + 1..], accId);
    AccountBalanceAppend(a[..k], a[k], accId);
    AccountBalanceAppend(b[..k], b[k], accId);
  }

  /**
   * With distinct ids and a patch that keeps the transaction on its account,
   * `update_transaction` keeps the cached balances in step: the account moves
   * by the new amount minus the old one.
   */
  lemma UpdateKeepsBalances(s: State, opening: seq<int>, id: string, p: Patch)
    requires BalancesFollow(s, opening) && UniqueIds(s.transactions)
    requires forall x :: x in s.transactions && x.id == id ==> p.accountId.GetOr(x.accountId) == x.accountId
    ensures BalancesFollow(UpdateTransaction(s, id, p), opening)
  {
    var trans := s.transactions;
    if FindTransaction(trans, id).Some? {
      var k :| 0 <= k < |trans| && trans[k] == FindTransaction(trans, id).value && trans[k].id == id
               && forall j :: 0 <= j < k ==> trans[j].id != id;
      var r := UpdateTransaction(s, id, p);
      assert trans[k] in trans;
      forall i | 0 <= i < |trans| && i != k ensures r.transactions[i] == trans[i] {
        if i < k {
        } else {
          assert trans[k].id != trans[i].id;
        }
      }
      forall i | 0 <= i < |r.accounts|
        ensures r.accounts[i].balance == opening[i] + AccountBalance(r.transactions, r.accounts[i].id)
      {
        AccountBalanceReplace(trans, r.transactions, k, s.accounts[i].id);
      }
    }
  }

  /** `update_transaction` never changes ids, so distinct ids stay distinct. */
  lemma UpdateKeepsIdsUnique(s: State, id: string, p: Patch)
    requires UniqueIds(s.transactions)
    ensures UniqueIds(UpdateTransaction(s, id, p).transactions)
  {
    var r := UpdateTransaction(s, id, p).transactions;
    assert forall i :: 0 <= i < |r| ==> r[i].id == s.transactions[i].id;
  }

  /**
   * Moving a transaction to another account through the patch desynchronises
   * the balances: only the original account is adjusted, and it is adjusted
   * as if the transaction had stayed.
   */
  lemma UpdateReassignmentDesynchronises()
    ensures
      var s := ReassignExample();
      var r := UpdateTransaction(s, "t1", Patch(Some("a2"), None, None, None, None));
      && BalancesFollow(s, [0, 0])
      && r.accounts == s.accounts
      && AccountBalance(r.transactions, "a2") == 100
      && !BalancesFollow(r, [0, 0])
  {
    ReassignExampleFollows();
    ReassignExampleResult();
    ReassignedOutOfStep(UpdateTransaction(ReassignExample(), "t1", Patch(Some("a2"), None, None, None, None)));
  }

  /** Before the update, both balances follow the history from zero openings. */
  lemma ReassignExampleFollows()
    ensures BalancesFollow(ReassignExample(), [0, 0])
  {
    var t1 := ReassignExample().transactions[0];
    assert AccountBalance([t1], "a1") == 100 by { assert [t1][..0] == []; }
    assert AccountBalance([t1], "a2") == 0 by { assert [t1][..0] == []; }
  }

  /** Unchanged accounts next to the moved transaction: `a2` owns 100 in the history but holds 0. */
  lemma ReassignedOutOfStep(r: State)
    requires r.accounts == ReassignExample().accounts
    requires r.transactions == [Transaction("t1", "a2", "c1", 100, "ts", "n")]
    ensures AccountBalance(r.transactions, "a2") == 100
    ensures !BalancesFollow(r, [0, 0])
  {
    var t1' := Transaction("t1", "a2", "c1", 100, "ts", "n");
    AccountBalanceAppend([], t1', "a2");
    assert [] + [t1'] == [t1'];
    assert r.accounts[1].balance != 0 + AccountBalance(r.transactions, r.accounts[1].id);
  }

  /** Two accounts, and one income of 100 booked on the first. */
  function ReassignExample(): State
  {
    State([Account("a1", "n", 100, "c"), Account("a2", "n", 0, "c")], [],
          [Transaction("t1", "a1", "c1", 100, "ts", "n")], [], [])
  }

  /** The patch moves the transaction to `a2`, yet no account changes. */
  lemma ReassignExampleResult()
    ensures
      var s := ReassignExample();
      var r := UpdateTransaction(s, "t1", Patch(Some("a2"), None, None, None, None));
      && r.transactions == [Transaction("t1", "a2", "c1", 100, "ts", "n")]
      && r.accounts == s.accounts
  {
    var s := ReassignExample();
    var t1 := s.transactions[0];
    assert FindTransaction(s.transactions, "t1") == Some(t1);
    var r := UpdateTransaction(s, "t1", Patch(Some("a2"), None, None, None, None));
    assert r.accounts == s.accounts by {
      assert Shifted(s.accounts, r.accounts, "a1", 0);
      assert r.accounts[0] == s.accounts[0] && r.accounts[1] == s.accounts[1];
    }
  }

  /**
   * Duplicate ids: `delete_transaction` removes every copy but subtracts only
   * the first copy's amount.
   */
  lemma DeleteDuplicateSubtractsOnce()
    ensures
      var t := Transaction("t1", "a1", "c1", -10, "ts", "n");
      var s := State([Account("a1", "n", 80, "c")], [], [t, t], [], []);
      var r := DeleteTransaction(s, "t1");
      r.transactions == [] && r.accounts[0].balance == 90
  {
    var t := Transaction("t1", "a1", "c1", -10, "ts", "n");
    assert [t, t][..1] == [t];
    assert [t][..0] == [];
  }
}
