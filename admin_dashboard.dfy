/**
 * The admin dashboard's form checks, list operations, derived figures and
 * defaults (AdminDashboard.tsx). None of these changes the application state by
 * itself: the results go to the application's handlers (see `App.Store`).
 */
module AdminDashboard {
  import opened Common
  import opened Types
  import opened Ledger
  import App

  // ----- User form (AdminDashboard.tsx:60-94, 140-143, 473) -----

  datatype UserFormError = PasswordMissingOrDiffers

  /** The form the "add user" button opens: id 0 marks the account as new. */
  function NewUserDefaults(): (r: User)
    ensures r.id == 0 && r.balance == 0 && r.status == Active && r.role == UserRole
    ensures r.password == None && r.username == "" && r.fullName == ""
  {
    User(0, "", "", "", "", 0, Active, UserRole, "", None)
  }

  /**
   * The user form's submit: a new account needs a non-empty password equal to its
   * confirmation; the record saved carries the typed password, or the stored one
   * when none was typed.
   */
  function SubmitUserForm(form: User, password: string, confirm: string): (r: Result<User, UserFormError>)
    ensures form.id == 0 && (password == "" || password != confirm) ==> r == Err(PasswordMissingOrDiffers)
    ensures r.Ok? <==> form.id != 0 || (password != "" && password == confirm)
    ensures r.Ok? && password != "" ==> r.value == form.(password := Some(password))
    ensures r.Ok? && password == "" ==> r.value == form
  {
    if form.id == 0 && (password == "" || password != confirm) then Err(PasswordMissingOrDiffers)
    else Ok(form.(password := if password != "" then Some(password) else form.password))
  }

  /** Editing an account without typing a password keeps the stored one (the edit form has no password inputs). */
  lemma EditKeepsPassword(form: User, confirm: string)
    requires form.id != 0
    ensures SubmitUserForm(form, "", confirm) == Ok(form)
  {
  }

  /** A new account is saved only with a password that was typed twice, and it goes down the creation path. */
  lemma NewAccountPassword(form: User, password: string, confirm: string)
    requires form.id == 0 && SubmitUserForm(form, password, confirm).Ok?
    ensures SubmitUserForm(form, password, confirm).value.password == Some(confirm)
    ensures confirm != "" && SubmitUserForm(form, password, confirm).value.id == 0
  {
  }

  // ----- Assignees (AdminDashboard.tsx:195-203) -----

  /** Clicking a user in the task form: unassign if assigned, otherwise assign at the end. */
  function ToggleAssignee(ids: seq<int>, uid: int): (r: seq<int>)
    ensures uid in r <==> uid !in ids
    ensures forall x :: x != uid ==> (x in r <==> x in ids)
    ensures uid !in ids ==> r == ids + [uid]
  {
    if uid in ids then Filter(ids, (x: int) => x != uid) else ids + [uid]
  }

  /** Toggling keeps an assignee list free of repeats. */
  lemma ToggleKeepsNoDuplicates(ids: seq<int>, uid: int)
    requires NoDuplicates(ids)
    ensures NoDuplicates(ToggleAssignee(ids, uid))
  {
    if uid in ids {
      FilterKeepsNoDuplicates(ids, (x: int) => x != uid);
    }
  }

  /**
   * Toggling the same user twice gives back the same set of assignees, and the
   * very same list when the user was not assigned to begin with.
   */
  lemma ToggleTwice(ids: seq<int>, uid: int)
    ensures forall x :: x in ToggleAssignee(ToggleAssignee(ids, uid), uid) <==> x in ids
    ensures uid !in ids ==> ToggleAssignee(ToggleAssignee(ids, uid), uid) == ids
  {
    if uid !in ids {
      var p := (x: int) => x != uid;
      FilterAppend(ids, [uid], p);
      FilterKeepsAll(ids, p);
      assert Filter([uid], p) == [];
    }
  }

  // ----- Task list (AdminDashboard.tsx:501-519) -----

  /** The form the "add task" button opens. */
  function NewTaskDefaults(today: string): (r: Task)
    ensures r.id == 0 && r.reward == 0 && r.status == Open && r.deadline == today
    ensures r.assignedTo == [] && r.submissionType == Notes && r.submission == None
    ensures App.AwaitingSubmission(r)
  {
    Task(0, "", "", "", 0, Open, today, [], Notes, None)
  }

  /** handleSaveTask: a task with id 0 is appended under a fresh id; otherwise the tasks with its id are replaced in place. */
  function SaveTask(tasks: seq<Task>, t: Task, freshId: int): (r: seq<Task>)
    ensures t.id == 0 ==> r == tasks + [t.(id := freshId)]
    ensures t.id != 0 ==> |r| == |tasks|
    ensures t.id != 0 ==> forall k :: 0 <= k < |tasks| ==> r[k] == if tasks[k].id == t.id then t else tasks[k]
  {
    if t.id == 0 then tasks + [t.(id := freshId)]
    else seq(|tasks|, k requires 0 <= k < |tasks| => if tasks[k].id == t.id then t else tasks[k])
  }

  /** Saving never changes which ids sit where, and a new task is found under its fresh id. */
  lemma SaveTaskIds(tasks: seq<Task>, t: Task, freshId: int)
    ensures t.id != 0 ==> forall k :: 0 <= k < |tasks| ==> SaveTask(tasks, t, freshId)[k].id == tasks[k].id
    ensures t.id == 0 && (forall k :: 0 <= k < |tasks| ==> tasks[k].id != freshId) ==>
              App.TaskIndex(SaveTask(tasks, t, freshId), freshId) == Some(|tasks|)
  {
    if t.id == 0 {
      var r := SaveTask(tasks, t, freshId);
      assert r[|tasks|].id == freshId;
    }
  }

  /** handleDeleteTask, once confirmed: the tasks with that id go, the others stay. */
  function DeleteTask(tasks: seq<Task>, id: int): (r: seq<Task>)
    ensures forall t :: t in r <==> t in tasks && t.id != id
    ensures forall t: Task :: t.id != id ==> multiset(r)[t] == multiset(tasks)[t]
  {
    var keep := (t: Task) => t.id != id;
    FilterMultiset(tasks, keep);
    Filter(tasks, keep)
  }

  /** After deleting, no task has the id; deleting from a joined list deletes from each part, so order is kept. */
  lemma DeleteTaskProperties(a: seq<Task>, b: seq<Task>, id: int)
    ensures App.TaskIndex(DeleteTask(a, id), id).None?
    ensures DeleteTask(a + b, id) == DeleteTask(a, id) + DeleteTask(b, id)
    ensures (forall k :: 0 <= k < |a| ==> a[k].id != id) ==> DeleteTask(a, id) == a
  {
    var p := (t: Task) => t.id != id;
    FilterAppend(a, b, p);
    if forall k :: 0 <= k < |a| ==> a[k].id != id {
      FilterKeepsAll(a, p);
    }
    var r := DeleteTask(a, id);
    forall k | 0 <= k < |r| ensures r[k].id != id {
      assert r[k] in r;
    }
  }

  // ----- Derived figures (AdminDashboard.tsx:532, 561-563) -----

  /** The payments page's list: withdrawal entries still Pending. */
  function PendingWithdrawals(txs: seq<CoinTransaction>): (r: seq<CoinTransaction>)
    ensures forall t :: t in r <==> t in txs && t.kind == Withdrawal && t.status == TxStatus.Pending
  {
    Filter(txs, (t: CoinTransaction) => t.kind == Withdrawal && t.status == TxStatus.Pending)
  }

  /** Since only withdrawals are ever Pending, the list is every Pending entry of the ledger, in ledger order. */
  lemma PendingWithdrawalsAreAllPending(txs: seq<CoinTransaction>)
    requires PendingAreWithdrawals(txs)
    ensures PendingWithdrawals(txs) == Filter(txs, (t: CoinTransaction) => t.status == TxStatus.Pending)
  {
    forall i | 0 <= i < |txs| ensures (txs[i].kind == Withdrawal && txs[i].status == TxStatus.Pending) == (txs[i].status == TxStatus.Pending) {
      assert txs[i] in txs;
    }
    FilterCongruent(txs, (t: CoinTransaction) => t.kind == Withdrawal && t.status == TxStatus.Pending,
                    (t: CoinTransaction) => t.status == TxStatus.Pending);
  }

  /** The "Active Tasks" figure: how many tasks are still awaiting a submission. */
  function ActiveTaskCount(tasks: seq<Task>): (r: nat)
    ensures r == |Positions(tasks, App.AwaitingSubmission)|
    ensures r <= |tasks|
    ensures r == 0 <==> forall k :: 0 <= k < |tasks| ==> !App.AwaitingSubmission(tasks[k])
  {
    var active := Filter(tasks, App.AwaitingSubmission);
    assert forall k :: 0 <= k < |tasks| && App.AwaitingSubmission(tasks[k]) ==> tasks[k] in active;
    FilterLength(tasks, App.AwaitingSubmission);
    |active|
  }

  /** The "Total Earnings" figure: the sum of all balances. */
  function TotalBalance(users: seq<User>): int
  {
    if |users| == 0 then 0 else TotalBalance(users[..|users| - 1]) + users[|users| - 1].balance
  }

  /** With no negative balance the total is not negative and no single balance exceeds it. */
  lemma {:induction false} TotalBalanceBounds(users: seq<User>)
    requires forall k :: 0 <= k < |users| ==> users[k].balance >= 0
    ensures TotalBalance(users) >= 0
    ensures forall k :: 0 <= k < |users| ==> users[k].balance <= TotalBalance(users)
  {
    if |users| > 0 {
      var n := |users| - 1;
      TotalBalanceBounds(users[..n]);
      forall k | 0 <= k < n ensures users[k].balance <= TotalBalance(users) {
        assert users[..n][k] == users[k];
      }
    }
  }

  /** How many users carry the id. */
  function CountWithId(users: seq<User>, uid: int): nat
  {
    if |users| == 0 then 0 else CountWithId(users[..|users| - 1], uid) + (if users[|users| - 1].id == uid then 1 else 0)
  }

  /** Moving one user's balance by `delta` moves the total by `delta` for each user with that id. */
  lemma {:induction false} TotalBalanceAdjust(users: seq<User>, uid: int, delta: int)
    ensures TotalBalance(AdjustBalance(users, uid, delta)) == TotalBalance(users) + delta * CountWithId(users, uid)
  {
    if |users| > 0 {
      var n := |users| - 1;
      var init := users[..n];
      TotalBalanceAdjust(init, uid, delta);
      var r := AdjustBalance(users, uid, delta);
      var q := AdjustBalance(init, uid, delta);
      assert r[..n] == q by {
        forall k | 0 <= k < n ensures r[k] == q[k] {
          assert init[k] == users[k];
        }
      }
      assert TotalBalance(r) == TotalBalance(q) + r[n].balance;
      assert TotalBalance(users) == TotalBalance(init) + users[n].balance;
      var c := CountWithId(init, uid);
      var before := TotalBalance(init);
      assert TotalBalance(q) == before + delta * c;
      if users[n].id == uid {
        assert CountWithId(users, uid) == c + 1;
        assert r[n].balance == users[n].balance + delta;
        assert delta * (c + 1) == delta * c + delta;
        assert TotalBalance(r) == before + users[n].balance + delta * (c + 1);
      } else {
        assert CountWithId(users, uid) == c;
        assert r[n].balance == users[n].balance;
      }
    }
  }

  /** With unique ids an id is carried by one user when some user has it, and by none otherwise. */
  lemma {:induction false} CountWithUniqueId(users: seq<User>, uid: int)
    requires UniqueUserIds(users)
    ensures CountWithId(users, uid) == if exists k :: 0 <= k < |users| && users[k].id == uid then 1 else 0
  {
    if |users| > 0 {
      var init := users[..|users| - 1];
      CountWithUniqueId(init, uid);
      if users[|users| - 1].id == uid {
        assert forall k :: 0 <= k < |init| ==> init[k].id != uid;
      } else if exists k :: 0 <= k < |users| && users[k].id == uid {
        var k :| 0 <= k < |users| && users[k].id == uid;
        assert init[k].id == uid;
      }
    }
  }

  /** In a consistent store an adjustment of an existing user moves the total by exactly `delta`. */
  lemma TotalBalanceAdjustUnique(users: seq<User>, k: nat, delta: int)
    requires UniqueUserIds(users) && k < |users|
    ensures TotalBalance(AdjustBalance(users, users[k].id, delta)) == TotalBalance(users) + delta
  {
    TotalBalanceAdjust(users, users[k].id, delta);
    CountWithUniqueId(users, users[k].id);
  }
}
