/**
 * The coin ledger: how transactions and balances relate, and the per-element
 * updates through which the application's handlers move money.
 *
 * A balance is stored on the user record and written directly by the handlers;
 * the transaction list is a log appended beside it. `Reconciled` states the
 * property the log is meant to have: every user's balance is an opening amount
 * plus the signed sum of that user's Completed transactions. The lemmas below
 * show which updates keep that property.
 */
module Ledger {
  import opened Common
  import opened Types

  /** The amount with the sign its type implies: deposits add, withdrawals subtract. */
  function Signed(t: CoinTransaction): int
  {
    if t.kind == Deposit then t.amount else -t.amount
  }

  /** What one transaction contributes to the balance of user `uid`: only Completed entries count. */
  function Effect(t: CoinTransaction, uid: int): int
  {
    if t.userId == uid && t.status == TxStatus.Completed then Signed(t) else 0
  }

  /** Net effect of the whole ledger on the balance of user `uid`. */
  function Net(txs: seq<CoinTransaction>, uid: int): int
  {
    if |txs| == 0 then 0 else Net(txs[..|txs| - 1], uid) + Effect(txs[|txs| - 1], uid)
  }

  lemma NetAppend(txs: seq<CoinTransaction>, t: CoinTransaction, uid: int)
    ensures Net(txs + [t], uid) == Net(txs, uid) + Effect(t, uid)
  {
    assert (txs + [t])[..|txs|] == txs;
  }

  /** A user no transaction refers to has a net effect of zero. */
  lemma {:induction false} NetUnreferenced(txs: seq<CoinTransaction>, uid: int)
    requires forall k :: 0 <= k < |txs| ==> txs[k].userId != uid
    ensures Net(txs, uid) == 0
  {
    if |txs| > 0 {
      NetUnreferenced(txs[..|txs| - 1], uid);
    }
  }

  /** Overwriting one entry changes the net effect by exactly the difference of the two entries' effects. */
  lemma {:induction false} NetUpdateAt(txs: seq<CoinTransaction>, i: nat, t: CoinTransaction, uid: int)
    requires i < |txs|
    ensures Net(txs[i := t], uid) == Net(txs, uid) - Effect(txs[i], uid) + Effect(t, uid)
  {
    var n := |txs|;
    if i == n - 1 {
      assert txs[i := t][..n - 1] == txs[..n - 1];
    } else {
      assert txs[i := t][..n - 1] == txs[..n - 1][i := t];
      NetUpdateAt(txs[..n - 1], i, t, uid);
    }
  }

  // ----- Invariants of the entity store -----

  /** User ids are pairwise distinct: no two positions of the list hold the same id. */
  predicate UniqueUserIds(users: seq<User>)
  {
    forall i, j :: 0 <= i < j < |users| ==> users[i].id != users[j].id
  }

  /** Transaction ids are pairwise distinct. */
  predicate UniqueTxIds(txs: seq<CoinTransaction>)
  {
    forall i, j :: 0 <= i < j < |txs| ==> txs[i].id != txs[j].id
  }

  /** `id` is not the id of any transaction yet. */
  predicate TxIdFresh(txs: seq<CoinTransaction>, id: int)
  {
    forall k :: 0 <= k < |txs| ==> txs[k].id != id
  }

  /** `id` is usable for a new user: not the "new" marker 0, not taken, not referred to by the ledger. */
  predicate UserIdFresh(users: seq<User>, txs: seq<CoinTransaction>, id: int)
  {
    && id != 0
    && (forall u :: u in users ==> u.id != id)
    && (forall k :: 0 <= k < |txs| ==> txs[k].userId != id)
  }

  /** Only withdrawal requests are ever Pending, so completing a Pending entry is a debit. */
  predicate PendingAreWithdrawals(txs: seq<CoinTransaction>)
  {
    forall t :: t in txs && t.status == TxStatus.Pending ==> t.kind == Withdrawal
  }

  /** Amounts are magnitudes. */
  predicate AmountsNonNegative(txs: seq<CoinTransaction>)
  {
    forall t :: t in txs ==> t.amount >= 0
  }

  /** Every balance is its opening amount plus the net effect of the ledger on it. */
  ghost predicate Reconciled(users: seq<User>, txs: seq<CoinTransaction>, opening: map<int, int>)
  {
    forall u :: u in users ==> u.id in opening && u.balance == opening[u.id] + Net(txs, u.id)
  }

  /** The opening amounts that make a given store reconciled: whatever the ledger does not explain. */
  ghost function OpeningOf(users: seq<User>, txs: seq<CoinTransaction>): map<int, int>
  {
    if |users| == 0 then map[]
    else
      var last := users[|users| - 1];
      OpeningOf(users[..|users| - 1], txs)[last.id := last.balance - Net(txs, last.id)]
  }

  lemma {:induction false} OpeningReconciles(users: seq<User>, txs: seq<CoinTransaction>)
    requires UniqueUserIds(users)
    ensures Reconciled(users, txs, OpeningOf(users, txs))
  {
    if |users| > 0 {
      var init := users[..|users| - 1];
      var last := users[|users| - 1];
      assert forall u :: u in init ==> u in users;
      OpeningReconciles(init, txs);
      forall u | u in users
        ensures u.id in OpeningOf(users, txs) && u.balance == OpeningOf(users, txs)[u.id] + Net(txs, u.id)
      {
        var k :| 0 <= k < |users| && users[k] == u;
        if k < |users| - 1 {
          assert init[k] == u;
        }
      }
    }
  }

  // ----- Per-element updates used by the handlers -----

  /** Every user with id `uid` gains `delta`; nothing else about any record changes. */
  function AdjustBalance(users: seq<User>, uid: int, delta: int): (r: seq<User>)
    ensures |r| == |users|
    ensures forall k :: 0 <= k < |users| ==>
      r[k].balance == users[k].balance + (if users[k].id == uid then delta else 0)
    ensures forall k :: 0 <= k < |users| ==> r[k] == users[k].(balance := r[k].balance)
  {
    seq(|users|, k requires 0 <= k < |users| =>
      if users[k].id == uid then users[k].(balance := users[k].balance + delta) else users[k])
  }

  /** Each record with the id of `u` becomes `u`; records with other ids stay where they are. */
  function ReplaceUser(users: seq<User>, u: User): (r: seq<User>)
    ensures |r| == |users|
    ensures forall k :: 0 <= k < |users| ==> r[k].id == users[k].id
    ensures forall k :: 0 <= k < |users| && users[k].id == u.id ==> r[k] == u
    ensures forall k :: 0 <= k < |users| && users[k].id != u.id ==> r[k] == users[k]
  {
    seq(|users|, k requires 0 <= k < |users| => if users[k].id == u.id then u else users[k])
  }

  /** Every entry with id `tid` takes the new status; only statuses change. */
  function SetTxStatus(txs: seq<CoinTransaction>, tid: int, status: TxStatus): (r: seq<CoinTransaction>)
    ensures |r| == |txs|
    ensures forall k :: 0 <= k < |txs| ==> r[k].status == if txs[k].id == tid then status else txs[k].status
    ensures forall k :: 0 <= k < |txs| ==> r[k] == txs[k].(status := r[k].status)
  {
    seq(|txs|, k requires 0 <= k < |txs| => if txs[k].id == tid then txs[k].(status := status) else txs[k])
  }

  /** With unique ids, updating by id is updating the one entry that has it. */
  lemma SetTxStatusAt(txs: seq<CoinTransaction>, i: nat, status: TxStatus)
    requires UniqueTxIds(txs) && i < |txs|
    ensures SetTxStatus(txs, txs[i].id, status) == txs[i := txs[i].(status := status)]
  {
  }

  /** The entry an admin balance edit appends: the difference as a magnitude, its sign as the type. */
  function AdjustmentTx(id: int, uid: int, diff: int, reason: string, date: string): (r: CoinTransaction)
    ensures r.id == id && r.userId == uid && r.source == reason && r.date == date
    ensures r.status == TxStatus.Completed && r.amount >= 0
    ensures Signed(r) == diff
    ensures r.kind == Deposit <==> diff > 0
  {
    CoinTransaction(id, uid, if diff > 0 then Deposit else Withdrawal, reason,
                    if diff < 0 then -diff else diff, date, TxStatus.Completed)
  }

  /** The payout appended for one assignee when a task is approved (its id is `now + uid`). */
  function Payout(uid: int, task: Task, now: int, date: string): (r: CoinTransaction)
    ensures r.id == now + uid && r.userId == uid && r.date == date
    ensures r.kind == Deposit && r.status == TxStatus.Completed && r.amount == task.reward
    ensures r.source == "Task Payout: " + task.title
    ensures Effect(r, uid) == task.reward
    ensures forall v :: v != uid ==> Effect(r, v) == 0
  {
    CoinTransaction(now + uid, uid, Deposit, "Task Payout: " + task.title, task.reward, date, TxStatus.Completed)
  }

  /** One payout per listed assignee, in the order of `ids`. */
  function Payouts(ids: seq<int>, task: Task, now: int, date: string): (r: seq<CoinTransaction>)
    ensures |r| == |ids|
    ensures forall k :: 0 <= k < |ids| ==> r[k].userId == ids[k] && r[k].id == now + ids[k]
    ensures forall t :: t in r ==> t.kind == Deposit && t.status == TxStatus.Completed && t.amount == task.reward
    ensures forall t :: t in r ==> t.source == "Task Payout: " + task.title && t.date == date
  {
    seq(|ids|, k requires 0 <= k < |ids| => Payout(ids[k], task, now, date))
  }

  /** One balance adjustment by `reward` per listed assignee, applied in the order of `ids`. */
  function CreditAll(users: seq<User>, ids: seq<int>, reward: int): (r: seq<User>)
    ensures |r| == |users|
    ensures forall k :: 0 <= k < |users| ==> r[k] == users[k].(balance := r[k].balance)
  {
    if |ids| == 0 then users
    else AdjustBalance(CreditAll(users, ids[..|ids| - 1], reward), ids[|ids| - 1], reward)
  }

  /** Each payout id `now + uid` is unused, including by the other payouts of the same approval. */
  predicate PayoutIdsFresh(txs: seq<CoinTransaction>, ids: seq<int>, now: int)
  {
    NoDuplicates(ids) && forall k :: 0 <= k < |ids| ==> TxIdFresh(txs, now + ids[k])
  }

  // ----- Properties of the updates -----

  /** An admin edit's entry has the edited difference as its signed amount, and a non-negative magnitude. */
  lemma AdjustmentTxSigned(id: int, uid: int, diff: int, reason: string, date: string)
    requires diff != 0
    ensures Signed(AdjustmentTx(id, uid, diff, reason, date)) == diff
    ensures AdjustmentTx(id, uid, diff, reason, date).amount > 0
    ensures Effect(AdjustmentTx(id, uid, diff, reason, date), uid) == diff
  {
  }

  /** Approval pays every assignee the reward once per occurrence in `ids`; nothing else about users changes. */
  lemma {:induction false} CreditAllBalance(users: seq<User>, ids: seq<int>, reward: int)
    ensures |CreditAll(users, ids, reward)| == |users|
    ensures forall k :: 0 <= k < |users| ==>
      CreditAll(users, ids, reward)[k]
        == users[k].(balance := users[k].balance + reward * multiset(ids)[users[k].id])
  {
    if |ids| > 0 {
      var init := ids[..|ids| - 1];
      var last := ids[|ids| - 1];
      CreditAllBalance(users, init, reward);
      assert ids == init + [last];
      assert multiset(ids) == multiset(init) + multiset{last};
    }
  }

  /** With duplicate-free assignees, each assignee present in `users` is credited exactly once. */
  lemma CreditAllOnce(users: seq<User>, ids: seq<int>, reward: int, k: nat)
    requires NoDuplicates(ids) && k < |users|
    ensures |CreditAll(users, ids, reward)| == |users|
    ensures CreditAll(users, ids, reward)[k].balance
              == users[k].balance + (if users[k].id in ids then reward else 0)
  {
    CreditAllBalance(users, ids, reward);
    MultisetCountOfDistinct(ids, users[k].id);
  }

  lemma {:induction false} MultisetCountOfDistinct(ids: seq<int>, x: int)
    requires NoDuplicates(ids)
    ensures multiset(ids)[x] == if x in ids then 1 else 0
  {
    if |ids| > 0 {
      assert ids == [ids[0]] + ids[1..];
      assert multiset(ids) == multiset{ids[0]} + multiset(ids[1..]);
      MultisetCountOfDistinct(ids[1..], x);
      if x == ids[0] {
        assert x !in ids[1..];
      }
    }
  }

  lemma AdjustBalanceKeepsUniqueIds(users: seq<User>, uid: int, delta: int)
    requires UniqueUserIds(users)
    ensures UniqueUserIds(AdjustBalance(users, uid, delta))
  {
  }

  lemma {:induction false} CreditAllKeepsUniqueIds(users: seq<User>, ids: seq<int>, reward: int)
    requires UniqueUserIds(users)
    ensures UniqueUserIds(CreditAll(users, ids, reward))
  {
    if |ids| > 0 {
      CreditAllKeepsUniqueIds(users, ids[..|ids| - 1], reward);
      AdjustBalanceKeepsUniqueIds(CreditAll(users, ids[..|ids| - 1], reward), ids[|ids| - 1], reward);
    }
  }

  /** Appending a user whose id nobody has keeps ids unique. */
  lemma AppendFreshUserKeepsUniqueIds(users: seq<User>, nu: User)
    requires UniqueUserIds(users)
    requires forall u :: u in users ==> u.id != nu.id
    ensures UniqueUserIds(users + [nu])
  {
    var r := users + [nu];
    forall i, j | 0 <= i < j < |r| ensures r[i].id != r[j].id {
      if j == |users| {
        assert r[i] in users;
      }
    }
  }

  lemma ReplaceUserKeepsUniqueIds(users: seq<User>, u: User)
    requires UniqueUserIds(users)
    ensures UniqueUserIds(ReplaceUser(users, u))
  {
  }

  /** Setting a status other than Pending creates no Pending entry and keeps the ids. */
  lemma SetTxStatusKeepsShape(txs: seq<CoinTransaction>, tid: int, status: TxStatus)
    requires status != TxStatus.Pending
    ensures |SetTxStatus(txs, tid, status)| == |txs|
    ensures UniqueTxIds(txs) ==> UniqueTxIds(SetTxStatus(txs, tid, status))
    ensures PendingAreWithdrawals(txs) ==> PendingAreWithdrawals(SetTxStatus(txs, tid, status))
    ensures AmountsNonNegative(txs) ==> AmountsNonNegative(SetTxStatus(txs, tid, status))
  {
    var r := SetTxStatus(txs, tid, status);
    if PendingAreWithdrawals(txs) {
      forall t | t in r && t.status == TxStatus.Pending ensures t.kind == Withdrawal {
        var k :| 0 <= k < |r| && r[k] == t;
        assert txs[k].kind == t.kind;
      }
    }
    if AmountsNonNegative(txs) {
      forall t | t in r ensures t.amount >= 0 {
        var k :| 0 <= k < |r| && r[k] == t;
        assert txs[k] in txs;
      }
    }
  }

  /** Appending a Completed entry under a fresh id keeps the ledger's shape. */
  lemma AppendCompletedKeepsShape(txs: seq<CoinTransaction>, t: CoinTransaction)
    requires TxIdFresh(txs, t.id) && t.status == TxStatus.Completed
    ensures UniqueTxIds(txs) ==> UniqueTxIds(txs + [t])
    ensures PendingAreWithdrawals(txs) ==> PendingAreWithdrawals(txs + [t])
    ensures AmountsNonNegative(txs) && t.amount >= 0 ==> AmountsNonNegative(txs + [t])
  {
    var r := txs + [t];
    if UniqueTxIds(txs) {
      forall i, j | 0 <= i < j < |r| ensures r[i].id != r[j].id {
        if j == |txs| {
          assert r[i] == txs[i];
        }
      }
    }
  }

  lemma PayoutsKeepShape(txs: seq<CoinTransaction>, ids: seq<int>, task: Task, now: int, date: string)
    requires PayoutIdsFresh(txs, ids, now)
    ensures UniqueTxIds(txs) ==> UniqueTxIds(txs + Payouts(ids, task, now, date))
    ensures PendingAreWithdrawals(txs) ==> PendingAreWithdrawals(txs + Payouts(ids, task, now, date))
    ensures AmountsNonNegative(txs) && task.reward >= 0 ==> AmountsNonNegative(txs + Payouts(ids, task, now, date))
  {
    var p := Payouts(ids, task, now, date);
    var r := txs + p;
    if UniqueTxIds(txs) {
      forall i, j | 0 <= i < j < |r| ensures r[i].id != r[j].id {
        if j >= |txs| && i >= |txs| {
          assert r[i].id == now + ids[i - |txs|] && r[j].id == now + ids[j - |txs|];
        } else if j >= |txs| {
          assert TxIdFresh(txs, now + ids[j - |txs|]);
        }
      }
    }
  }

  // ----- Which updates keep the ledger reconciled -----

  /** A Pending (or Rejected) entry does not affect any balance. */
  lemma UnsettledEntryKeepsReconciled(users: seq<User>, txs: seq<CoinTransaction>, opening: map<int, int>, t: CoinTransaction)
    requires Reconciled(users, txs, opening)
    requires t.status != TxStatus.Completed
    ensures Reconciled(users, txs + [t], opening)
  {
    forall u | u in users ensures u.balance == opening[u.id] + Net(txs + [t], u.id) {
      NetAppend(txs, t, u.id);
    }
  }

  /** Moving every `uid` balance by `delta` and appending a `uid` entry whose effect is `delta`. */
  lemma EntryMatchesAdjustment(users: seq<User>, txs: seq<CoinTransaction>, opening: map<int, int>,
                               uid: int, delta: int, t: CoinTransaction)
    requires Reconciled(users, txs, opening)
    requires t.userId == uid && Effect(t, uid) == delta
    ensures Reconciled(AdjustBalance(users, uid, delta), txs + [t], opening)
  {
    var r := AdjustBalance(users, uid, delta);
    forall u | u in r ensures u.id in opening && u.balance == opening[u.id] + Net(txs + [t], u.id) {
      var k :| 0 <= k < |r| && r[k] == u;
      assert users[k] in users;
      NetAppend(txs, t, u.id);
    }
  }

  /** Completing a Pending entry together with debiting its owner by its amount (App.tsx:131-133). */
  lemma CompletingPendingDebits(users: seq<User>, txs: seq<CoinTransaction>, opening: map<int, int>, i: nat)
    requires Reconciled(users, txs, opening) && UniqueTxIds(txs) && PendingAreWithdrawals(txs)
    requires i < |txs| && txs[i].status == TxStatus.Pending
    ensures Reconciled(AdjustBalance(users, txs[i].userId, -txs[i].amount),
                       SetTxStatus(txs, txs[i].id, TxStatus.Completed), opening)
  {
    var t := txs[i];
    assert t in txs;
    SetTxStatusAt(txs, i, TxStatus.Completed);
    var r := AdjustBalance(users, t.userId, -t.amount);
    forall u | u in r
      ensures u.id in opening && u.balance == opening[u.id] + Net(txs[i := t.(status := TxStatus.Completed)], u.id)
    {
      var k :| 0 <= k < |r| && r[k] == u;
      assert users[k] in users;
      NetUpdateAt(txs, i, t.(status := TxStatus.Completed), u.id);
    }
  }

  /** A status change that neither enters nor leaves Completed affects no balance. */
  lemma UnsettledStatusChange(users: seq<User>, txs: seq<CoinTransaction>, opening: map<int, int>, i: nat, status: TxStatus)
    requires Reconciled(users, txs, opening) && UniqueTxIds(txs)
    requires i < |txs| && (txs[i].status == TxStatus.Completed <==> status == TxStatus.Completed)
    ensures Reconciled(users, SetTxStatus(txs, txs[i].id, status), opening)
  {
    SetTxStatusAt(txs, i, status);
    forall u | u in users ensures u.balance == opening[u.id] + Net(txs[i := txs[i].(status := status)], u.id) {
      NetUpdateAt(txs, i, txs[i].(status := status), u.id);
    }
  }

  /**
   * Rejecting a transaction that is already Completed changes neither balance nor
   * refunds anything, yet the entry stops counting: a reconciled store stops being one.
   */
  lemma RejectingCompletedLosesTrack()
    ensures var u := User(1, "", "u", "", "", 7000, Active, UserRole, "", None);
            var t := CoinTransaction(9, 1, Withdrawal, "Withdrawal Request", 3000, "", TxStatus.Completed);
            var opening := map[1 := 10000];
            Reconciled([u], [t], opening) && !Reconciled([u], SetTxStatus([t], 9, Rejected), opening)
  {
    var u := User(1, "", "u", "", "", 7000, Active, UserRole, "", None);
    var t := CoinTransaction(9, 1, Withdrawal, "Withdrawal Request", 3000, "", TxStatus.Completed);
    assert Net([t], 1) == -3000 by { assert [t][..0] == []; }
    var after := SetTxStatus([t], 9, Rejected);
    assert after == [t.(status := Rejected)];
    assert Net(after, 1) == 0 by { assert after[..0] == []; }
    assert u in [u];
  }

  /** An admin edit of an existing user whose balance changed, with its adjustment entry (App.tsx:165-179). */
  lemma AdminEditReconciles(users: seq<User>, txs: seq<CoinTransaction>, opening: map<int, int>,
                            u: User, i: nat, id: int, reason: string, date: string)
    requires Reconciled(users, txs, opening)
    requires i < |users| && users[i].id == u.id && users[i].balance != u.balance
    ensures Reconciled(ReplaceUser(users, u),
                       txs + [AdjustmentTx(id, u.id, u.balance - users[i].balance, reason, date)], opening)
  {
    var t := AdjustmentTx(id, u.id, u.balance - users[i].balance, reason, date);
    assert users[i] in users;
    var r := ReplaceUser(users, u);
    forall v | v in r ensures v.id in opening && v.balance == opening[v.id] + Net(txs + [t], v.id) {
      var k :| 0 <= k < |r| && r[k] == v;
      assert users[k] in users;
      NetAppend(txs, t, v.id);
    }
  }

  /** An admin edit that keeps the balance needs no entry; an edit of an unknown id changes nothing. */
  lemma AdminEditSameBalance(users: seq<User>, txs: seq<CoinTransaction>, opening: map<int, int>, u: User)
    requires Reconciled(users, txs, opening)
    requires forall k :: 0 <= k < |users| && users[k].id == u.id ==> users[k].balance == u.balance
    ensures Reconciled(ReplaceUser(users, u), txs, opening)
  {
    var r := ReplaceUser(users, u);
    forall v | v in r ensures v.id in opening && v.balance == opening[v.id] + Net(txs, v.id) {
      var k :| 0 <= k < |r| && r[k] == v;
      assert users[k] in users;
    }
  }

  /**
   * A new user with a fresh id and opening amount 0, plus the initial deposit
   * when the balance is positive (App.tsx:144-163). A negative starting balance
   * has no entry, so such a user is not covered.
   */
  lemma NewUserReconciles(users: seq<User>, txs: seq<CoinTransaction>, opening: map<int, int>,
                          nu: User, extra: seq<CoinTransaction>)
    requires Reconciled(users, txs, opening)
    requires UserIdFresh(users, txs, nu.id)
    requires nu.balance >= 0
    requires nu.balance == 0 ==> extra == []
    requires nu.balance > 0 ==> |extra| == 1 && extra[0].userId == nu.id && extra[0].kind == Deposit
                                && extra[0].amount == nu.balance && extra[0].status == TxStatus.Completed
    ensures Reconciled(users + [nu], txs + extra, opening[nu.id := 0])
  {
    var o := opening[nu.id := 0];
    NetUnreferenced(txs, nu.id);
    if nu.balance > 0 {
      NetAppend(txs, extra[0], nu.id);
      assert txs + extra == txs + [extra[0]];
    } else {
      assert txs + extra == txs;
    }
    forall v | v in users + [nu] ensures v.id in o && v.balance == o[v.id] + Net(txs + extra, v.id) {
      if v != nu {
        assert v in users;
        if nu.balance > 0 { NetAppend(txs, extra[0], v.id); }
      }
    }
  }

  /** Approving a task: all the balance increases and all the payout entries together (App.tsx:204-219). */
  lemma {:induction false} ApprovalReconciles(users: seq<User>, txs: seq<CoinTransaction>, opening: map<int, int>,
                                              ids: seq<int>, task: Task, now: int, date: string)
    requires Reconciled(users, txs, opening)
    ensures Reconciled(CreditAll(users, ids, task.reward), txs + Payouts(ids, task, now, date), opening)
  {
    if |ids| > 0 {
      var init := ids[..|ids| - 1];
      var last := ids[|ids| - 1];
      ApprovalReconciles(users, txs, opening, init, task, now, date);
      assert Payouts(ids, task, now, date) == Payouts(init, task, now, date) + [Payout(last, task, now, date)];
      assert txs + Payouts(ids, task, now, date) == (txs + Payouts(init, task, now, date)) + [Payout(last, task, now, date)];
      EntryMatchesAdjustment(CreditAll(users, init, task.reward), txs + Payouts(init, task, now, date), opening,
                             last, task.reward, Payout(last, task, now, date));
    } else {
      assert txs + Payouts(ids, task, now, date) == txs;
    }
  }
}
