/**
 * The application state (App.tsx): users, tasks, the coin ledger, the settings
 * and the signed-in user, with one method per handler that changes them.
 *
 * Ids and dates, which the application takes from the clock, are parameters
 * here; each id comes with a precondition that it is not in use yet.
 */
module App {
  import opened Common
  import opened Types
  import opened Strings
  import opened Ledger
  import AccessGate
  import Seed

  /** Why a password change is refused. */
  datatype PasswordError = CurrentPasswordMismatch | NewPasswordsDiffer

  /** Why a guarded operation (one the dashboards only offer in some states) is refused. */
  datatype StateError = NotFound | NotInExpectedState

  // ----- Lookups and the per-element updates of the handlers -----

  /** Where the user with id `id` sits, if any user has it. */
  function UserIndex(users: seq<User>, id: int): (r: Option<nat>)
    ensures r.Some? ==> r.value < |users| && users[r.value].id == id
    ensures r.None? <==> forall k :: 0 <= k < |users| ==> users[k].id != id
  {
    FirstIndex(users, (u: User) => u.id == id)
  }

  /** Where the ledger entry with id `id` sits, if any entry has it. */
  function TxIndex(txs: seq<CoinTransaction>, id: int): (r: Option<nat>)
    ensures r.Some? ==> r.value < |txs| && txs[r.value].id == id
    ensures r.None? <==> forall k :: 0 <= k < |txs| ==> txs[k].id != id
  {
    FirstIndex(txs, (t: CoinTransaction) => t.id == id)
  }

  /** Where the first task with id `id` sits, if any task has it. */
  function TaskIndex(tasks: seq<Task>, id: int): (r: Option<nat>)
    ensures r.Some? ==> r.value < |tasks| && tasks[r.value].id == id
    ensures r.Some? ==> forall k :: 0 <= k < r.value ==> tasks[k].id != id
    ensures r.None? <==> forall k :: 0 <= k < |tasks| ==> tasks[k].id != id
  {
    FirstIndex(tasks, (t: Task) => t.id == id)
  }

  /** Every user with id `uid` gets the new password; nothing else about any record changes. */
  function SetPassword(users: seq<User>, uid: int, password: string): (r: seq<User>)
    ensures |r| == |users|
    ensures forall k :: 0 <= k < |users| ==>
      r[k].password == if users[k].id == uid then Some(password) else users[k].password
    ensures forall k :: 0 <= k < |users| ==> r[k] == users[k].(password := r[k].password)
  {
    seq(|users|, k requires 0 <= k < |users| =>
      if users[k].id == uid then users[k].(password := Some(password)) else users[k])
  }

  /** The users left after deleting id `id`, in their order. */
  function RemoveUser(users: seq<User>, id: int): (r: seq<User>)
    ensures forall u :: u in r <==> u in users && u.id != id
  {
    Filter(users, (u: User) => u.id != id)
  }

  /** Every task with id `tid` goes to Pending Review with the given submission; other tasks are kept. */
  function MarkSubmitted(tasks: seq<Task>, tid: int, sub: Submission): (r: seq<Task>)
    ensures |r| == |tasks|
    ensures forall k :: 0 <= k < |tasks| && tasks[k].id != tid ==> r[k] == tasks[k]
    ensures forall k :: 0 <= k < |tasks| && tasks[k].id == tid ==>
      r[k].status == PendingReview && r[k].submission == Some(sub)
    ensures forall k :: 0 <= k < |tasks| ==> r[k] == tasks[k].(status := r[k].status, submission := r[k].submission)
  {
    seq(|tasks|, k requires 0 <= k < |tasks| =>
      if tasks[k].id == tid then tasks[k].(status := PendingReview, submission := Some(sub)) else tasks[k])
  }

  /** Every task with id `tid` becomes Completed, keeping its submission; other tasks are kept. */
  function MarkApproved(tasks: seq<Task>, tid: int): (r: seq<Task>)
    ensures |r| == |tasks|
    ensures forall k :: 0 <= k < |tasks| && tasks[k].id != tid ==> r[k] == tasks[k]
    ensures forall k :: 0 <= k < |tasks| && tasks[k].id == tid ==> r[k].status == TaskStatus.Completed
    ensures forall k :: 0 <= k < |tasks| ==> r[k] == tasks[k].(status := r[k].status)
  {
    seq(|tasks|, k requires 0 <= k < |tasks| =>
      if tasks[k].id == tid then tasks[k].(status := TaskStatus.Completed) else tasks[k])
  }

  /** Every task with id `tid` goes back to In Progress with its submission cleared; other tasks are kept. */
  function MarkRejected(tasks: seq<Task>, tid: int): (r: seq<Task>)
    ensures |r| == |tasks|
    ensures forall k :: 0 <= k < |tasks| && tasks[k].id != tid ==> r[k] == tasks[k]
    ensures forall k :: 0 <= k < |tasks| && tasks[k].id == tid ==> r[k].status == InProgress && r[k].submission == None
    ensures forall k :: 0 <= k < |tasks| ==> r[k] == tasks[k].(status := r[k].status, submission := r[k].submission)
  {
    seq(|tasks|, k requires 0 <= k < |tasks| =>
      if tasks[k].id == tid then tasks[k].(status := InProgress, submission := None) else tasks[k])
  }

  /** The submission record stored for a payload handed in at `at`. */
  function SubmissionOf(data: SubmissionData, at: string): (r: Submission)
    ensures r.notes == data.notes && r.attachments == data.attachments && r.link == data.link
    ensures r.submittedAt == at
  {
    Submission(data.notes, data.attachments, data.link, at)
  }

  /** A task a user may still hand work in for. */
  predicate AwaitingSubmission(t: Task)
  {
    t.status == Open || t.status == InProgress
  }

  /** The ledger entries of one user, in ledger order (App.tsx:271, before sorting by date). */
  function UserTransactions(txs: seq<CoinTransaction>, uid: int): (r: seq<CoinTransaction>)
    ensures |r| <= |txs|
    ensures forall t :: t in r <==> t in txs && t.userId == uid
    ensures forall t: CoinTransaction :: t.userId == uid ==> multiset(r)[t] == multiset(txs)[t]
  {
    var own := (t: CoinTransaction) => t.userId == uid;
    FilterMultiset(txs, own);
    Filter(txs, own)
  }

  /** The username an admin-created account gets: the typed one, or the full name lowercased without whitespace. */
  function DefaultUsername(u: User): (r: string)
    ensures u.username != "" ==> r == u.username
    ensures u.username == "" ==> r == Filter(Lower(u.fullName), (c: char) => !IsWhitespace(c))
    ensures u.username == "" ==> |r| <= |u.fullName|
    ensures u.username == "" ==> forall i :: 0 <= i < |r| ==> !IsWhitespace(r[i])
  {
    if u.username != "" then u.username
    else
      RemoveWhitespaceFilters(Lower(u.fullName));
      RemoveWhitespace(Lower(u.fullName))
  }

  /** The record a sign-up creates. */
  function SignupUser(data: SignupData, id: int, today: string): (r: User)
    ensures r.id == id && r.balance == 0 && r.status == UserStatus.Pending && r.role == UserRole
    ensures r.fullName == data.fullName && r.username == data.username && r.email == data.email
    ensures r.phone == data.phone && r.password == data.password && r.joined == today
  {
    User(id, data.fullName, data.username, data.email, data.phone, 0, UserStatus.Pending, UserRole, today, data.password)
  }

  /** The record an administrator creates from form `u` (whose id is the "new" marker 0). */
  function AdminCreatedUser(u: User, id: int, today: string): (r: User)
    ensures r.id == id && r.username == DefaultUsername(u) && r.joined == today
    ensures r == u.(id := id, username := r.username, joined := today)
  {
    u.(id := id, username := DefaultUsername(u), joined := today)
  }

  /** The ledger entry recording an admin-created account's starting balance. */
  function InitialBalanceTx(id: int, u: User, date: string): (r: CoinTransaction)
    ensures r.id == id && r.userId == u.id && r.date == date && r.source == "Initial Balance (Admin)"
    ensures r.kind == Deposit && r.status == TxStatus.Completed && r.amount == u.balance
    ensures Signed(r) == u.balance
  {
    CoinTransaction(id, u.id, Deposit, "Initial Balance (Admin)", u.balance, date, TxStatus.Completed)
  }

  // ----- Properties of the pure parts -----

  /** Changing a password changes no id and no balance, so the store stays consistent and reconciled. */
  lemma SetPasswordKeeps(users: seq<User>, txs: seq<CoinTransaction>, opening: map<int, int>, uid: int, p: string)
    ensures |SetPassword(users, uid, p)| == |users|
    ensures UniqueUserIds(users) ==> UniqueUserIds(SetPassword(users, uid, p))
    ensures Reconciled(users, txs, opening) ==> Reconciled(SetPassword(users, uid, p), txs, opening)
  {
    var r := SetPassword(users, uid, p);
    if Reconciled(users, txs, opening) {
      forall v | v in r ensures v.id in opening && v.balance == opening[v.id] + Net(txs, v.id) {
        var i :| 0 <= i < |r| && r[i] == v;
        assert users[i] in users;
      }
    }
  }

  /** Removing users keeps the others' ids unique and their balances reconciled. */
  lemma RemoveUserKeeps(users: seq<User>, txs: seq<CoinTransaction>, opening: map<int, int>, id: int)
    ensures UniqueUserIds(users) ==> UniqueUserIds(RemoveUser(users, id))
    ensures Reconciled(users, txs, opening) ==> Reconciled(RemoveUser(users, id), txs, opening)
    ensures forall u :: u in users && u.id == id ==> u !in RemoveUser(users, id)
  {
    if UniqueUserIds(users) {
      FilterKeepsDistinctKeys(users, (u: User) => u.id != id, (u: User) => u.id);
    }
  }

  /**
   * A rejected task can be handed in again: rejecting leaves it In Progress with
   * no submission, and the next submission makes it Pending Review with exactly
   * that submission, every other field and every other task being kept.
   */
  lemma RejectThenResubmit(tasks: seq<Task>, tid: int, sub: Submission, i: nat)
    requires i < |tasks| && tasks[i].id == tid
    ensures var rejected := MarkRejected(tasks, tid);
      && |rejected| == |tasks|
      && AwaitingSubmission(rejected[i]) && rejected[i].submission == None
    ensures var again := MarkSubmitted(MarkRejected(tasks, tid), tid, sub);
      && |again| == |tasks|
      && again[i] == tasks[i].(status := PendingReview, submission := Some(sub))
      && forall k :: 0 <= k < |tasks| && tasks[k].id != tid ==> again[k] == tasks[k]
  {
  }

  /** An account created by signing up cannot sign in until an administrator changes its status. */
  lemma SignupCannotSignIn(users: seq<User>, data: SignupData, id: int, today: string, password: string)
    requires !exists k :: 0 <= k < |users| && AccessGate.NameMatches(users[k], data.username)
    ensures AccessGate.Authenticate(users + [SignupUser(data, id, today)], data.username, password).Err?
  {
    var all := users + [SignupUser(data, id, today)];
    var found := AccessGate.LookupByUsername(all, data.username);
    assert AccessGate.NameMatches(all[|users|], data.username);
    if found.Some? {
      assert found.value == |users|;
    }
  }

  /** The derived username is already in the form a lowercase, whitespace-free name has. */
  lemma DefaultUsernameNormal(u: User)
    requires u.username == ""
    ensures Lower(DefaultUsername(u)) == DefaultUsername(u)
    ensures RemoveWhitespace(DefaultUsername(u)) == DefaultUsername(u)
  {
    LowerRemoveWhitespace(u.fullName);
    LowerIdempotent(RemoveWhitespace(u.fullName));
    RemoveWhitespaceIdempotent(Lower(u.fullName));
  }

  lemma {:induction false} RemoveWhitespaceIdempotent(s: string)
    ensures RemoveWhitespace(RemoveWhitespace(s)) == RemoveWhitespace(s)
  {
    if |s| > 0 {
      RemoveWhitespaceIdempotent(s[1..]);
      var head: string := if IsWhitespace(s[0]) then "" else [s[0]];
      var rest := RemoveWhitespace(s[1..]);
      if head == "" {
        assert RemoveWhitespace(s) == rest;
      } else {
        assert RemoveWhitespace(s) == [s[0]] + rest;
        assert (head + rest)[1..] == rest;
      }
    }
  }

  // ----- The updates of the store's handlers, on values -----

  /**
   * Completing a Pending entry and debiting its owner (App.tsx:131-135): the
   * ledger keeps its shape and keeps explaining every balance.
   */
  lemma SettleKeeps(users: seq<User>, txs: seq<CoinTransaction>, opening: map<int, int>, i: nat)
    requires UniqueUserIds(users) && UniqueTxIds(txs) && PendingAreWithdrawals(txs)
    requires i < |txs| && txs[i].status == TxStatus.Pending
    ensures var after := SetTxStatus(txs, txs[i].id, TxStatus.Completed);
      var debited := AdjustBalance(users, txs[i].userId, -txs[i].amount);
      && UniqueUserIds(debited) && UniqueTxIds(after) && PendingAreWithdrawals(after)
      && (AmountsNonNegative(txs) ==> AmountsNonNegative(after))
      && (Reconciled(users, txs, opening) ==> Reconciled(debited, after, opening))
  {
    var t := txs[i];
    SetTxStatusKeepsShape(txs, t.id, TxStatus.Completed);
    AdjustBalanceKeepsUniqueIds(users, t.userId, -t.amount);
    if Reconciled(users, txs, opening) {
      CompletingPendingDebits(users, txs, opening, i);
    }
  }

  /**
   * An admin edit of the accounts with the id of `u` (App.tsx:165-179), with the
   * adjustment entry when a found user's balance changes: the store keeps its
   * shape and stays reconciled.
   */
  lemma AdminEditKeeps(users: seq<User>, txs: seq<CoinTransaction>, opening: map<int, int>,
                       u: User, reason: string, txId: int, today: string)
    requires UniqueUserIds(users) && UniqueTxIds(txs) && PendingAreWithdrawals(txs) && TxIdFresh(txs, txId)
    ensures var ix := UserIndex(users, u.id);
      var after := txs + (if ix.Some? && users[ix.value].balance != u.balance
                          then [AdjustmentTx(txId, u.id, u.balance - users[ix.value].balance, reason, today)]
                          else []);
      && UniqueUserIds(ReplaceUser(users, u)) && UniqueTxIds(after) && PendingAreWithdrawals(after)
      && (AmountsNonNegative(txs) ==> AmountsNonNegative(after))
      && (Reconciled(users, txs, opening) ==> Reconciled(ReplaceUser(users, u), after, opening))
  {
    var ix := UserIndex(users, u.id);
    ReplaceUserKeepsUniqueIds(users, u);
    if ix.Some? && users[ix.value].balance != u.balance {
      var t := AdjustmentTx(txId, u.id, u.balance - users[ix.value].balance, reason, today);
      AppendCompletedKeepsShape(txs, t);
      if Reconciled(users, txs, opening) {
        AdminEditReconciles(users, txs, opening, u, ix.value, txId, reason, today);
      }
    } else {
      assert txs + [] == txs;
      if Reconciled(users, txs, opening) {
        forall k | 0 <= k < |users| && users[k].id == u.id ensures users[k].balance == u.balance {
          assert ix.Some? && k == ix.value;
        }
        AdminEditSameBalance(users, txs, opening, u);
      }
    }
  }

  /**
   * Approving a task (App.tsx:204-219): every assignee is credited the reward
   * once and gets one payout entry; the store keeps its shape and stays
   * reconciled.
   */
  lemma ApprovalKeeps(users: seq<User>, txs: seq<CoinTransaction>, opening: map<int, int>,
                      task: Task, now: int, date: string)
    requires UniqueUserIds(users) && UniqueTxIds(txs) && PendingAreWithdrawals(txs)
    requires PayoutIdsFresh(txs, task.assignedTo, now)
    ensures var credited := CreditAll(users, task.assignedTo, task.reward);
      var after := txs + Payouts(task.assignedTo, task, now, date);
      && UniqueUserIds(credited) && UniqueTxIds(after) && PendingAreWithdrawals(after)
      && (AmountsNonNegative(txs) && task.reward >= 0 ==> AmountsNonNegative(after))
      && (Reconciled(users, txs, opening) ==> Reconciled(credited, after, opening))
      && |credited| == |users| && |after| == |txs| + |task.assignedTo|
      && forall k :: 0 <= k < |users| ==>
           credited[k].balance == users[k].balance + (if users[k].id in task.assignedTo then task.reward else 0)
  {
    var ids := task.assignedTo;
    CreditAllKeepsUniqueIds(users, ids, task.reward);
    forall k | 0 <= k < |users|
      ensures CreditAll(users, ids, task.reward)[k].balance
                == users[k].balance + (if users[k].id in ids then task.reward else 0)
    {
      CreditAllOnce(users, ids, task.reward, k);
    }
    PayoutsKeepShape(txs, ids, task, now, date);
    if Reconciled(users, txs, opening) {
      ApprovalReconciles(users, txs, opening, ids, task, now, date);
    }
  }

  // ----- The store -----

  class Store {
    var users: seq<User>
    var tasks: seq<Task>
    var transactions: seq<CoinTransaction>
    var settings: AppSettings
    var loggedInUser: Option<User>
    /** Each user's balance before the ledger's Completed entries: the amount nothing in the ledger explains. */
    ghost var opening: map<int, int>

    /** Ids are unique and only withdrawal requests are Pending (the debit at App.tsx:133 relies on it). */
    ghost predicate Consistent()
      reads this
    {
      UniqueUserIds(users) && UniqueTxIds(transactions) && PendingAreWithdrawals(transactions)
    }

    /** Every balance change so far is matched by a Completed ledger entry. */
    ghost predicate Balanced()
      reads this
    {
      Reconciled(users, transactions, opening)
    }

    constructor (users0: seq<User>, tasks0: seq<Task>, txs0: seq<CoinTransaction>, settings0: AppSettings)
      requires UniqueUserIds(users0) && UniqueTxIds(txs0) && PendingAreWithdrawals(txs0)
      ensures users == users0 && tasks == tasks0 && transactions == txs0 && settings == settings0
      ensures loggedInUser == None
      ensures Consistent() && Balanced()
    {
      users := users0;
      tasks := tasks0;
      transactions := txs0;
      settings := settings0;
      loggedInUser := None;
      opening := OpeningOf(users0, txs0);
      new;
      OpeningReconciles(users0, txs0);
    }

    /** The store the application starts with (App.tsx:8-39). */
    constructor Seeded()
      ensures users == Seed.InitialUsers() && tasks == Seed.InitialTasks()
      ensures transactions == Seed.InitialTransactions() && settings == Seed.InitialSettings()
      ensures loggedInUser == None
      ensures Consistent() && Balanced()
    {
      Seed.SeedIsConsistent();
      OpeningReconciles(Seed.InitialUsers(), Seed.InitialTransactions());
      users := Seed.InitialUsers();
      tasks := Seed.InitialTasks();
      transactions := Seed.InitialTransactions();
      settings := Seed.InitialSettings();
      loggedInUser := None;
      opening := OpeningOf(Seed.InitialUsers(), Seed.InitialTransactions());
      new;
    }

    /** App.handleLogin: sign the user in, unless maintenance is on and they are no administrator. */
    method Login(user: User) returns (granted: bool)
      modifies this
      ensures loggedInUser == AccessGate.Gate(settings, user)
      ensures granted <==> loggedInUser == Some(user)
      ensures !granted ==> loggedInUser == None
      ensures users == old(users) && tasks == old(tasks) && transactions == old(transactions)
      ensures settings == old(settings) && opening == old(opening)
    {
      loggedInUser := Some(user);
      if settings.maintenanceMode && user.role != AdminRole {
        loggedInUser := None;
        granted := false;
        return;
      }
      granted := true;
    }

    /** The login page's attempt followed by App.handleLogin for an accepted account; no record changes. */
    method SignIn(username: string, password: string) returns (r: Result<User, AccessGate.LoginError>)
      modifies this
      ensures r == AccessGate.SignIn(old(users), old(settings), username, password)
      ensures r.Ok? ==> loggedInUser == Some(r.value)
      ensures r == Err(AccessGate.MaintenanceMode) ==> loggedInUser == None
      ensures r.Err? && r.error != AccessGate.MaintenanceMode ==> loggedInUser == old(loggedInUser)
      ensures users == old(users) && tasks == old(tasks) && transactions == old(transactions)
      ensures settings == old(settings) && opening == old(opening)
    {
      var attempt := AccessGate.Authenticate(users, username, password);
      if attempt.Err? {
        r := Err(attempt.error);
        return;
      }
      var granted := Login(attempt.value);
      r := if granted then Ok(attempt.value) else Err(AccessGate.MaintenanceMode);
    }

    method Logout()
      modifies this
      ensures loggedInUser == None
      ensures users == old(users) && tasks == old(tasks) && transactions == old(transactions)
      ensures settings == old(settings) && opening == old(opening)
    {
      loggedInUser := None;
    }

    /** App.handleUserSignup: a new account with no coins that waits for approval. */
    method Signup(data: SignupData, id: int, today: string)
      requires Consistent() && UserIdFresh(users, transactions, id)
      modifies this
      ensures users == old(users) + [SignupUser(data, id, today)]
      ensures tasks == old(tasks) && transactions == old(transactions) && settings == old(settings)
      ensures loggedInUser == old(loggedInUser) && opening == old(opening)[id := 0]
      ensures Consistent()
      ensures old(Balanced()) ==> Balanced()
    {
      ghost var wasBalanced := Balanced();
      var nu := SignupUser(data, id, today);
      if wasBalanced {
        NewUserReconciles(users, transactions, opening, nu, []);
      }
      assert transactions + [] == transactions;
      AppendFreshUserKeepsUniqueIds(users, nu);
      users := users + [nu];
      opening := opening[id := 0];
    }

    /**
     * App.handleChangePassword: refused, changing nothing, when the user is
     * missing or the current password differs; otherwise only that user's
     * password changes, mirrored into the signed-in user when it is them.
     */
    method ChangePassword(userId: int, current: string, newPassword: string) returns (r: Outcome<PasswordError>)
      requires Consistent()
      modifies this
      ensures var ix := UserIndex(old(users), userId);
        r.Fail? <==> ix.None? || old(users)[ix.value].password != Some(current)
      ensures r.Fail? ==> r.error == CurrentPasswordMismatch && users == old(users) && loggedInUser == old(loggedInUser)
      ensures r.Pass? ==> users == SetPassword(old(users), userId, newPassword)
      ensures r.Pass? && old(loggedInUser).Some? && old(loggedInUser).value.id == userId ==>
                loggedInUser == Some(old(loggedInUser).value.(password := Some(newPassword)))
      ensures r.Pass? && (old(loggedInUser).None? || old(loggedInUser).value.id != userId) ==>
                loggedInUser == old(loggedInUser)
      ensures tasks == old(tasks) && transactions == old(transactions) && settings == old(settings)
      ensures opening == old(opening)
      ensures Consistent()
      ensures old(Balanced()) ==> Balanced()
    {
      var ix := UserIndex(users, userId);
      if ix.None? || users[ix.value].password != Some(current) {
        r := Fail(CurrentPasswordMismatch);
        return;
      }
      SetPasswordKeeps(users, transactions, opening, userId, newPassword);
      users := SetPassword(users, userId, newPassword);
      if loggedInUser.Some? && loggedInUser.value.id == userId {
        loggedInUser := Some(loggedInUser.value.(password := Some(newPassword)));
      }
      r := Pass;
    }

    /**
     * The dashboards' password form (UserDashboard.tsx:238-252, and its twin in
     * AdminDashboard.tsx:368-382): a new password that differs from its
     * confirmation is refused before the application is asked.
     */
    method SavePassword(userId: int, current: string, newPassword: string, confirm: string)
      returns (r: Outcome<PasswordError>)
      requires Consistent()
      modifies this
      ensures newPassword != confirm ==> r == Fail(NewPasswordsDiffer)
      ensures r == Fail(NewPasswordsDiffer) ==> users == old(users) && loggedInUser == old(loggedInUser)
      ensures newPassword == confirm ==>
        var ix := UserIndex(old(users), userId);
        (r.Pass? <==> ix.Some? && old(users)[ix.value].password == Some(current))
      ensures r.Pass? ==> newPassword == confirm && users == SetPassword(old(users), userId, newPassword)
      ensures r.Fail? ==> users == old(users) && loggedInUser == old(loggedInUser)
      ensures tasks == old(tasks) && transactions == old(transactions) && settings == old(settings)
      ensures opening == old(opening)
      ensures Consistent()
      ensures old(Balanced()) ==> Balanced()
    {
      if newPassword != confirm {
        r := Fail(NewPasswordsDiffer);
        return;
      }
      r := ChangePassword(userId, current, newPassword);
    }

    /** App.handleRequestWithdrawal: one Pending withdrawal entry is appended and no balance moves yet. */
    method RequestWithdrawal(userId: int, amount: int, id: int, date: string)
      requires Consistent() && TxIdFresh(transactions, id)
      modifies this
      ensures transactions == old(transactions)
                + [CoinTransaction(id, userId, Withdrawal, "Withdrawal Request", amount, date, TxStatus.Pending)]
      ensures users == old(users) && tasks == old(tasks) && settings == old(settings)
      ensures loggedInUser == old(loggedInUser) && opening == old(opening)
      ensures Consistent()
      ensures old(Balanced()) ==> Balanced()
      ensures old(AmountsNonNegative(transactions)) && amount >= 0 ==> AmountsNonNegative(transactions)
    {
      var t := CoinTransaction(id, userId, Withdrawal, "Withdrawal Request", amount, date, TxStatus.Pending);
      if Balanced() {
        UnsettledEntryKeepsReconciled(users, transactions, opening, t);
      }
      transactions := transactions + [t];
    }

    /**
     * App.handleUpdateTransactionStatus as written: the addressed entry's status
     * is overwritten whatever it was, and its owner is debited only on the
     * Pending-to-Completed step. The ledger still explains every balance when
     * the entry was Pending or already had the new status; rejecting a
     * Completed entry refunds nothing (see Ledger.RejectingCompletedLosesTrack).
     */
    method UpdateTransactionStatus(tid: int, newStatus: TxStatus)
      requires Consistent() && newStatus != TxStatus.Pending
      modifies this
      ensures transactions == SetTxStatus(old(transactions), tid, newStatus)
      ensures var ix := TxIndex(old(transactions), tid);
        users == if ix.Some? && newStatus == TxStatus.Completed && old(transactions)[ix.value].status == TxStatus.Pending
                 then AdjustBalance(old(users), old(transactions)[ix.value].userId, -old(transactions)[ix.value].amount)
                 else old(users)
      ensures tasks == old(tasks) && settings == old(settings)
      ensures loggedInUser == old(loggedInUser) && opening == old(opening)
      ensures Consistent()
      ensures var ix := TxIndex(old(transactions), tid);
        old(Balanced()) && (ix.None? || old(transactions)[ix.value].status == TxStatus.Pending || old(transactions)[ix.value].status == newStatus) ==> Balanced()
      ensures old(AmountsNonNegative(transactions)) ==> AmountsNonNegative(transactions)
    {
      var ix := TxIndex(transactions, tid);
      if ix.Some? && newStatus == TxStatus.Completed && transactions[ix.value].status == TxStatus.Pending {
        SettlePending(ix.value);
      } else {
        OverwriteStatus(tid, newStatus);
      }
    }

    /** The Pending-to-Completed step (App.tsx:131-135): the entry is completed and its owner debited. */
    method SettlePending(i: nat)
      requires Consistent() && i < |transactions| && transactions[i].status == TxStatus.Pending
      modifies this
      ensures transactions == SetTxStatus(old(transactions), old(transactions)[i].id, TxStatus.Completed)
      ensures users == AdjustBalance(old(users), old(transactions)[i].userId, -old(transactions)[i].amount)
      ensures tasks == old(tasks) && settings == old(settings)
      ensures loggedInUser == old(loggedInUser) && opening == old(opening)
      ensures Consistent()
      ensures old(Balanced()) ==> Balanced()
      ensures old(AmountsNonNegative(transactions)) ==> AmountsNonNegative(transactions)
    {
      SettleKeeps(users, transactions, opening, i);
      var t := transactions[i];
      users, transactions := AdjustBalance(users, t.userId, -t.amount), SetTxStatus(transactions, t.id, TxStatus.Completed);
    }

    /**
     * Every other status update (App.tsx:129-138 without the debit): the status is
     * overwritten and no balance moves, so the ledger still explains every balance
     * when the entry was Pending or already had the new status.
     */
    method OverwriteStatus(tid: int, newStatus: TxStatus)
      requires Consistent() && newStatus != TxStatus.Pending
      requires var ix := TxIndex(transactions, tid);
        !(ix.Some? && newStatus == TxStatus.Completed && transactions[ix.value].status == TxStatus.Pending)
      modifies this
      ensures transactions == SetTxStatus(old(transactions), tid, newStatus)
      ensures users == old(users)
      ensures tasks == old(tasks) && settings == old(settings)
      ensures loggedInUser == old(loggedInUser) && opening == old(opening)
      ensures Consistent()
      ensures var ix := TxIndex(old(transactions), tid);
        old(Balanced()) && (ix.None? || old(transactions)[ix.value].status == TxStatus.Pending || old(transactions)[ix.value].status == newStatus) ==> Balanced()
      ensures old(AmountsNonNegative(transactions)) ==> AmountsNonNegative(transactions)
    {
      var ix := TxIndex(transactions, tid);
      SetTxStatusKeepsShape(transactions, tid, newStatus);
      if ix.None? {
        assert SetTxStatus(transactions, tid, newStatus) == transactions;
      } else if Balanced() && (transactions[ix.value].status == TxStatus.Pending || transactions[ix.value].status == newStatus) {
        UnsettledStatusChange(users, transactions, opening, ix.value, newStatus);
      }
      transactions := SetTxStatus(transactions, tid, newStatus);
    }

    /**
     * Resolving a withdrawal request the way the admin dashboard offers it
     * (AdminDashboard.tsx:727-734): only a Pending entry can be approved or
     * rejected, so each request is debited at most once and the ledger keeps
     * explaining every balance.
     */
    method ResolveWithdrawal(tid: int, outcome: TxStatus) returns (r: Outcome<StateError>)
      requires Consistent() && outcome != TxStatus.Pending
      modifies this
      ensures var ix := TxIndex(old(transactions), tid);
        && (ix.None? ==> r == Fail(NotFound))
        && (ix.Some? && old(transactions)[ix.value].status != TxStatus.Pending ==> r == Fail(NotInExpectedState))
        && (r.Pass? <==> ix.Some? && old(transactions)[ix.value].status == TxStatus.Pending)
      ensures r.Fail? ==> users == old(users) && transactions == old(transactions)
      ensures var ix := TxIndex(old(transactions), tid);
        r.Pass? ==>
          && transactions == old(transactions)[ix.value := old(transactions)[ix.value].(status := outcome)]
          && users == if outcome == TxStatus.Completed
                      then AdjustBalance(old(users), old(transactions)[ix.value].userId, -old(transactions)[ix.value].amount)
                      else old(users)
      ensures tasks == old(tasks) && settings == old(settings)
      ensures loggedInUser == old(loggedInUser) && opening == old(opening)
      ensures Consistent()
      ensures old(Balanced()) ==> Balanced()
      ensures old(AmountsNonNegative(transactions)) ==> AmountsNonNegative(transactions)
    {
      var ix := TxIndex(transactions, tid);
      if ix.None? {
        r := Fail(NotFound);
        return;
      }
      if transactions[ix.value].status != TxStatus.Pending {
        r := Fail(NotInExpectedState);
        return;
      }
      SetTxStatusAt(transactions, ix.value, outcome);
      UpdateTransactionStatus(tid, outcome);
      r := Pass;
    }

    /**
     * App.handleSaveUserByAdmin. A form with id 0 creates an account
     * (`CreateUserByAdmin`); any other form edits the accounts with its id
     * (`EditUserByAdmin`).
     */
    method SaveUserByAdmin(u: User, reason: string, newId: int, txId: int, today: string)
      requires Consistent() && TxIdFresh(transactions, txId)
      requires u.id == 0 ==> UserIdFresh(users, transactions, newId)
      modifies this
      ensures u.id == 0 ==>
        && users == old(users) + [AdminCreatedUser(u, newId, today)]
        && transactions == old(transactions)
             + (if u.balance > 0 then [InitialBalanceTx(txId, AdminCreatedUser(u, newId, today), today)] else [])
        && opening == old(opening)[newId := 0]
      ensures u.id != 0 ==>
        var ix := UserIndex(old(users), u.id);
        && users == ReplaceUser(old(users), u)
        && transactions == old(transactions)
             + (if ix.Some? && old(users)[ix.value].balance != u.balance
                then [AdjustmentTx(txId, u.id, u.balance - old(users)[ix.value].balance, reason, today)]
                else [])
        && opening == old(opening)
      ensures tasks == old(tasks) && settings == old(settings) && loggedInUser == old(loggedInUser)
      ensures Consistent()
      ensures old(Balanced()) && (u.id != 0 || u.balance >= 0) ==> Balanced()
      ensures old(AmountsNonNegative(transactions)) ==> AmountsNonNegative(transactions)
    {
      if u.id == 0 {
        CreateUserByAdmin(u, newId, txId, today);
      } else {
        EditUserByAdmin(u, reason, txId, today);
      }
    }

    /**
     * The creating half of App.handleSaveUserByAdmin: the account is appended
     * under the fresh id with the derived username, and a positive starting
     * balance is recorded as a Completed "Initial Balance (Admin)" deposit.
     */
    method CreateUserByAdmin(u: User, newId: int, txId: int, today: string)
      requires Consistent() && TxIdFresh(transactions, txId) && UserIdFresh(users, transactions, newId)
      modifies this
      ensures users == old(users) + [AdminCreatedUser(u, newId, today)]
      ensures transactions == old(transactions)
                + (if u.balance > 0 then [InitialBalanceTx(txId, AdminCreatedUser(u, newId, today), today)] else [])
      ensures opening == old(opening)[newId := 0]
      ensures tasks == old(tasks) && settings == old(settings) && loggedInUser == old(loggedInUser)
      ensures Consistent()
      ensures old(Balanced()) && u.balance >= 0 ==> Balanced()
      ensures old(AmountsNonNegative(transactions)) ==> AmountsNonNegative(transactions)
    {
      ghost var wasBalanced := Balanced();
      var nu := AdminCreatedUser(u, newId, today);
      var extra := if nu.balance > 0 then [InitialBalanceTx(txId, nu, today)] else [];
      if wasBalanced && nu.balance >= 0 {
        NewUserReconciles(users, transactions, opening, nu, extra);
      }
      AppendFreshUserKeepsUniqueIds(users, nu);
      if nu.balance > 0 {
        AppendCompletedKeepsShape(transactions, extra[0]);
        assert transactions + extra == transactions + [extra[0]];
      } else {
        assert transactions + extra == transactions;
      }
      users := users + [nu];
      transactions := transactions + extra;
      opening := opening[newId := 0];
    }

    /**
     * The editing half of App.handleSaveUserByAdmin: every user with the form's
     * id is replaced, and a changed balance of a found user is recorded as one
     * Completed entry, with source `reason`, whose signed amount is the difference.
     */
    method EditUserByAdmin(u: User, reason: string, txId: int, today: string)
      requires Consistent() && TxIdFresh(transactions, txId)
      modifies this
      ensures
        var ix := UserIndex(old(users), u.id);
        && users == ReplaceUser(old(users), u)
        && transactions == old(transactions)
             + (if ix.Some? && old(users)[ix.value].balance != u.balance
                then [AdjustmentTx(txId, u.id, u.balance - old(users)[ix.value].balance, reason, today)]
                else [])
      ensures opening == old(opening)
      ensures tasks == old(tasks) && settings == old(settings) && loggedInUser == old(loggedInUser)
      ensures Consistent()
      ensures old(Balanced()) ==> Balanced()
      ensures old(AmountsNonNegative(transactions)) ==> AmountsNonNegative(transactions)
    {
      AdminEditKeeps(users, transactions, opening, u, reason, txId, today);
      var ix := UserIndex(users, u.id);
      var extra := if ix.Some? && users[ix.value].balance != u.balance
                   then [AdjustmentTx(txId, u.id, u.balance - users[ix.value].balance, reason, today)]
                   else [];
      users, transactions := ReplaceUser(users, u), transactions + extra;
    }

    /** App.handleDeleteUser: every account with that id goes; the ledger keeps its entries. */
    method DeleteUser(id: int)
      requires Consistent()
      modifies this
      ensures users == RemoveUser(old(users), id)
      ensures tasks == old(tasks) && transactions == old(transactions) && settings == old(settings)
      ensures loggedInUser == old(loggedInUser) && opening == old(opening)
      ensures Consistent()
      ensures old(Balanced()) ==> Balanced()
    {
      RemoveUserKeeps(users, transactions, opening, id);
      users := RemoveUser(users, id);
    }

    /** App.handleTaskSubmission: the task goes to Pending Review holding the submission and its time. */
    method SubmitTask(taskId: int, data: SubmissionData, submittedAt: string)
      modifies this
      ensures tasks == MarkSubmitted(old(tasks), taskId, SubmissionOf(data, submittedAt))
      ensures users == old(users) && transactions == old(transactions) && settings == old(settings)
      ensures loggedInUser == old(loggedInUser) && opening == old(opening)
    {
      tasks := MarkSubmitted(tasks, taskId, SubmissionOf(data, submittedAt));
    }

    /**
     * Handing work in the way the user dashboard offers it (UserDashboard.tsx:310,
     * 405): only for a task that is assigned to the user and still awaits a submission.
     */
    method SubmitAssignedTask(userId: int, taskId: int, data: SubmissionData, submittedAt: string)
      returns (r: Outcome<StateError>)
      modifies this
      ensures var ix := TaskIndex(old(tasks), taskId);
        && (ix.None? ==> r == Fail(NotFound))
        && (r.Pass? <==> ix.Some? && userId in old(tasks)[ix.value].assignedTo && AwaitingSubmission(old(tasks)[ix.value]))
      ensures r.Pass? ==> tasks == MarkSubmitted(old(tasks), taskId, SubmissionOf(data, submittedAt))
      ensures r.Fail? ==> tasks == old(tasks)
      ensures users == old(users) && transactions == old(transactions) && settings == old(settings)
      ensures loggedInUser == old(loggedInUser) && opening == old(opening)
    {
      var ix := TaskIndex(tasks, taskId);
      if ix.None? {
        r := Fail(NotFound);
        return;
      }
      if !(userId in tasks[ix.value].assignedTo && AwaitingSubmission(tasks[ix.value])) {
        r := Fail(NotInExpectedState);
        return;
      }
      SubmitTask(taskId, data, submittedAt);
      r := Pass;
    }

    /**
     * App.handleTaskReview. An unknown task changes nothing. Approving marks the
     * task Completed and, for each assignee in order, raises that user's balance
     * by the reward and appends one Completed "Task Payout" deposit; rejecting
     * returns the task to In Progress without its submission.
     */
    method ReviewTask(taskId: int, approved: bool, now: int, date: string)
      requires Consistent()
      requires approved && TaskIndex(tasks, taskId).Some? ==>
                 PayoutIdsFresh(transactions, tasks[TaskIndex(tasks, taskId).value].assignedTo, now)
      modifies this
      ensures TaskIndex(old(tasks), taskId).None? ==>
                users == old(users) && tasks == old(tasks) && transactions == old(transactions)
      ensures var ix := TaskIndex(old(tasks), taskId);
        ix.Some? && approved ==>
          var task := old(tasks)[ix.value];
          && tasks == MarkApproved(old(tasks), taskId)
          && users == CreditAll(old(users), task.assignedTo, task.reward)
          && transactions == old(transactions) + Payouts(task.assignedTo, task, now, date)
      ensures var ix := TaskIndex(old(tasks), taskId);
        ix.Some? && approved ==>
          var task := old(tasks)[ix.value];
          && |users| == |old(users)|
          && |transactions| == |old(transactions)| + |task.assignedTo|
          && forall k :: 0 <= k < |users| ==>
               users[k].balance == old(users)[k].balance + (if old(users)[k].id in task.assignedTo then task.reward else 0)
      ensures var ix := TaskIndex(old(tasks), taskId);
        ix.Some? && !approved ==>
          tasks == MarkRejected(old(tasks), taskId) && users == old(users) && transactions == old(transactions)
      ensures settings == old(settings) && loggedInUser == old(loggedInUser) && opening == old(opening)
      ensures Consistent()
      ensures old(Balanced()) ==> Balanced()
      ensures var ix := TaskIndex(old(tasks), taskId);
        old(AmountsNonNegative(transactions)) && (ix.None? || old(tasks)[ix.value].reward >= 0) ==>
          AmountsNonNegative(transactions)
    {
      var ix := TaskIndex(tasks, taskId);
      if ix.None? {
        return;
      }
      var task := tasks[ix.value];
      if !approved {
        tasks := MarkRejected(tasks, taskId);
        return;
      }
      tasks := MarkApproved(tasks, taskId);
      PayAssignees(task, now, date);
      ApprovalKeeps(old(users), old(transactions), opening, task, now, date);
    }

    /**
     * The payout loop of an approval (App.tsx:204-219): for each assignee in order,
     * that user's balance rises by the reward and one "Task Payout" deposit is appended.
     */
    method PayAssignees(task: Task, now: int, date: string)
      modifies this
      ensures users == CreditAll(old(users), task.assignedTo, task.reward)
      ensures transactions == old(transactions) + Payouts(task.assignedTo, task, now, date)
      ensures tasks == old(tasks) && settings == old(settings)
      ensures loggedInUser == old(loggedInUser) && opening == old(opening)
    {
      var ids := task.assignedTo;
      var i := 0;
      while i < |ids|
        invariant 0 <= i <= |ids|
        invariant users == CreditAll(old(users), ids[..i], task.reward)
        invariant transactions == old(transactions) + Payouts(ids[..i], task, now, date)
        invariant tasks == old(tasks) && settings == old(settings)
        invariant loggedInUser == old(loggedInUser) && opening == old(opening)
      {
        assert ids[..i + 1][..i] == ids[..i];
        assert Payouts(ids[..i + 1], task, now, date) == Payouts(ids[..i], task, now, date) + [Payout(ids[i], task, now, date)];
        users := AdjustBalance(users, ids[i], task.reward);
        transactions := transactions + [Payout(ids[i], task, now, date)];
        i := i + 1;
      }
      assert ids[..i] == ids;
    }

    /**
     * Reviewing the way the admin dashboard offers it (AdminDashboard.tsx:288, 673):
     * only a Pending Review task that holds a submission.
     */
    method ReviewSubmittedTask(taskId: int, approved: bool, now: int, date: string) returns (r: Outcome<StateError>)
      requires Consistent()
      requires approved && TaskIndex(tasks, taskId).Some? ==>
                 PayoutIdsFresh(transactions, tasks[TaskIndex(tasks, taskId).value].assignedTo, now)
      modifies this
      ensures var ix := TaskIndex(old(tasks), taskId);
        && (ix.None? ==> r == Fail(NotFound))
        && (r.Pass? <==> ix.Some? && old(tasks)[ix.value].status == PendingReview && old(tasks)[ix.value].submission.Some?)
      ensures r.Fail? ==> users == old(users) && tasks == old(tasks) && transactions == old(transactions)
      ensures var ix := TaskIndex(old(tasks), taskId);
        r.Pass? && approved ==>
          var task := old(tasks)[ix.value];
          && tasks == MarkApproved(old(tasks), taskId)
          && users == CreditAll(old(users), task.assignedTo, task.reward)
          && transactions == old(transactions) + Payouts(task.assignedTo, task, now, date)
      ensures var ix := TaskIndex(old(tasks), taskId);
        r.Pass? && approved ==>
          var task := old(tasks)[ix.value];
          && |users| == |old(users)|
          && |transactions| == |old(transactions)| + |task.assignedTo|
          && forall k :: 0 <= k < |users| ==>
               users[k].balance == old(users)[k].balance + (if old(users)[k].id in task.assignedTo then task.reward else 0)
      ensures r.Pass? && !approved ==>
          tasks == MarkRejected(old(tasks), taskId) && users == old(users) && transactions == old(transactions)
      ensures settings == old(settings) && loggedInUser == old(loggedInUser) && opening == old(opening)
      ensures Consistent()
      ensures old(Balanced()) ==> Balanced()
      ensures var ix := TaskIndex(old(tasks), taskId);
        old(AmountsNonNegative(transactions)) && (ix.None? || old(tasks)[ix.value].reward >= 0) ==>
          AmountsNonNegative(transactions)
    {
      var ix := TaskIndex(tasks, taskId);
      if ix.None? {
        r := Fail(NotFound);
        return;
      }
      if tasks[ix.value].status != PendingReview || tasks[ix.value].submission.None? {
        r := Fail(NotInExpectedState);
        return;
      }
      ReviewTask(taskId, approved, now, date);
      r := Pass;
    }

    /** The admin dashboard's task list replaces the tasks wholesale (App.tsx:255). */
    method SetTasks(newTasks: seq<Task>)
      modifies this
      ensures tasks == newTasks
      ensures users == old(users) && transactions == old(transactions) && settings == old(settings)
      ensures loggedInUser == old(loggedInUser) && opening == old(opening)
    {
      tasks := newTasks;
    }

    /** The admin settings panel replaces the settings wholesale (App.tsx:261). */
    method SetAppSettings(s: AppSettings)
      modifies this
      ensures settings == s
      ensures users == old(users) && tasks == old(tasks) && transactions == old(transactions)
      ensures loggedInUser == old(loggedInUser) && opening == old(opening)
    {
      settings := s;
    }
  }

  // ----- Scenarios over a fresh store -----

  /**
   * A withdrawal request of 30.00 against a balance of 100.00 leaves the balance
   * alone until it is approved, is debited once on approval, and a second
   * approval is refused.
   */
  method WithdrawOnce() returns (atRequest: int, afterApproval: int, second: Outcome<StateError>, afterSecond: int)
    ensures atRequest == 10000 && afterApproval == 7000
    ensures second == Fail(NotInExpectedState) && afterSecond == 7000
  {
    var alice := User(1, "Alice", "alice", "", "", 10000, Active, UserRole, "", Some("pw"));
    var s := new Store([alice], [], [], Seed.InitialSettings());
    s.RequestWithdrawal(1, 3000, 100, "d");
    atRequest := s.users[0].balance;
    assert TxIndex(s.transactions, 100) == Some(0);
    var first := s.ResolveWithdrawal(100, TxStatus.Completed);
    afterApproval := s.users[0].balance;
    assert TxIndex(s.transactions, 100) == Some(0);
    second := s.ResolveWithdrawal(100, TxStatus.Completed);
    afterSecond := s.users[0].balance;
  }

  /** Approving a task assigned to two users pays each of them the reward once and writes two entries. */
  method ApproveTwoAssignees() returns (a: int, b: int, entries: nat)
    ensures a == 500 && b == 1500 && entries == 2
  {
    var ann := User(1, "Ann", "ann", "", "", 0, Active, UserRole, "", None);
    var bob := User(2, "Bob", "bob", "", "", 1000, Active, UserRole, "", None);
    var task := Task(7, "P", "T", "", 500, PendingReview, "", [1, 2], Notes, Some(Submission("done", None, None, "t")));
    var s := new Store([ann, bob], [task], [], Seed.InitialSettings());
    assert TaskIndex(s.tasks, 7) == Some(0);
    assert PayoutIdsFresh([], [1, 2], 1000);
    s.ReviewTask(7, true, 1000, "d");
    assert 1 in task.assignedTo && 2 in task.assignedTo;
    a := s.users[0].balance;
    b := s.users[1].balance;
    entries := |s.transactions|;
  }
}
