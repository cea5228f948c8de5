/**
 * The user dashboard's input checks and lists (UserDashboard.tsx): the
 * withdrawal amount, the task submission form with its attachment list, and
 * the user's task lists.
 */
module UserDashboard {
  import opened Common
  import opened Types
  import opened Strings
  import opened Ledger
  import App
  import Seed

  // ----- Withdrawal amount (UserDashboard.tsx:62-73) -----

  datatype WithdrawError = InvalidAmount | ExceedsBalance

  /**
   * The amount a user may request, already parsed (None when the text is not a
   * number): positive and at most `balance`. Pending requests are not taken into
   * account. The dashboard passes the balance of the signed-in user's snapshot
   * (App.Store.loggedInUser), which the application refreshes only on a password
   * change, so after a credit or a debit the check runs against the balance as it
   * was at sign-in.
   */
  function ValidateWithdrawal(amount: Option<int>, balance: int): (r: Result<int, WithdrawError>)
    ensures r.Ok? <==> amount.Some? && 0 < amount.value <= balance
    ensures r.Ok? ==> r.value == amount.value
    ensures (amount.None? || amount.value <= 0) ==> r == Err(InvalidAmount)
    ensures amount.Some? && 0 < amount.value && balance < amount.value ==> r == Err(ExceedsBalance)
  {
    if amount.None? || amount.value <= 0 then Err(InvalidAmount)
    else if amount.value > balance then Err(ExceedsBalance)
    else Ok(amount.value)
  }

  /**
   * Nothing is set aside at request time: two requests of 80.00 against a balance
   * of 100.00 both pass the check and both reach the ledger as Pending, together
   * asking for more than the balance.
   */
  method OvercommittedWithdrawals() returns (first: Result<int, WithdrawError>, second: Result<int, WithdrawError>,
                                             requested: int, balance: int)
    ensures first == Ok(8000) && second == Ok(8000)
    ensures balance == 10000 && requested == 16000 && requested > balance
  {
    var carol := User(1, "Carol", "carol", "", "", 10000, Active, UserRole, "", Some("pw"));
    var s := new App.Store([carol], [], [], Seed.InitialSettings());
    first := ValidateWithdrawal(Some(8000), s.users[0].balance);
    s.RequestWithdrawal(1, first.value, 1, "d");
    second := ValidateWithdrawal(Some(8000), s.users[0].balance);
    s.RequestWithdrawal(1, second.value, 2, "d");
    requested := s.transactions[0].amount + s.transactions[1].amount;
    balance := s.users[0].balance;
  }

  // ----- Task submission (UserDashboard.tsx:120-139) -----

  datatype SubmissionError = MissingNotes | MissingLink

  /**
   * The payload the submission form forwards: notes must not be blank, a link
   * task also needs a non-blank link; the notes go through untrimmed, the
   * attachments only for a file task and the link only for a link task.
   */
  function BuildSubmission(kind: SubmissionType, notes: string, link: string, attachments: seq<string>)
    : (r: Result<SubmissionData, SubmissionError>)
    ensures IsBlank(notes) ==> r == Err(MissingNotes)
    ensures !IsBlank(notes) && kind == Link && IsBlank(link) ==> r == Err(MissingLink)
    ensures r.Ok? <==> !IsBlank(notes) && (kind == Link ==> !IsBlank(link))
    ensures r.Ok? ==> r.value.notes == notes
    ensures r.Ok? ==> r.value.attachments == (if kind == File then Some(attachments) else None)
    ensures r.Ok? ==> r.value.link == (if kind == Link then Some(link) else None)
  {
    if IsBlank(notes) then Err(MissingNotes)
    else if kind == Link && IsBlank(link) then Err(MissingLink)
    else
      Ok(SubmissionData(notes,
                        if kind == File then Some(attachments) else None,
                        if kind == Link then Some(link) else None))
  }

  /** An accepted submission has notes with some visible character, and a link task a visible link. */
  lemma AcceptedSubmissionHasContent(kind: SubmissionType, notes: string, link: string, attachments: seq<string>)
    requires BuildSubmission(kind, notes, link, attachments).Ok?
    ensures exists i :: 0 <= i < |notes| && !IsWhitespace(notes[i])
    ensures kind == Link ==> exists i :: 0 <= i < |link| && !IsWhitespace(link[i])
  {
    BlankIffAllWhitespace(notes);
    BlankIffAllWhitespace(link);
  }

  // ----- Attachment list (UserDashboard.tsx:109-118) -----

  /** Adding the typed name: its trimmed form is appended unless it is blank. */
  function AddAttachment(list: seq<string>, current: string): (r: seq<string>)
    ensures IsBlank(current) ==> r == list
    ensures !IsBlank(current) ==> |r| == |list| + 1 && r[..|list|] == list && r[|list|] == Trim(current)
  {
    if Trim(current) != "" then list + [Trim(current)] else list
  }

  /** No entry of the list is blank and every entry is trimmed. */
  predicate CleanAttachments(list: seq<string>)
  {
    forall a :: a in list ==> !IsBlank(a) && Trim(a) == a
  }

  /** Adding keeps the list clean: what it appends is already trimmed and not blank. */
  lemma AddAttachmentKeepsClean(list: seq<string>, current: string)
    requires CleanAttachments(list)
    ensures CleanAttachments(AddAttachment(list, current))
  {
    TrimIdempotent(current);
  }

  /** The list without the entry at position `i`, or the list itself when there is no such position. */
  function RemoveAttachment(list: seq<string>, i: int): (r: seq<string>)
    ensures r == if 0 <= i < |list| then list[..i] + list[i + 1..] else list
  {
    if |list| == 0 then []
    else
      var last := |list| - 1;
      RemoveAttachment(list[..last], i) + (if last == i then [] else [list[last]])
  }

  /** Removing drops exactly one occurrence of the removed entry. */
  lemma RemoveAttachmentCounts(list: seq<string>, i: int)
    requires 0 <= i < |list|
    ensures |RemoveAttachment(list, i)| == |list| - 1
    ensures multiset(RemoveAttachment(list, i)) + multiset{list[i]} == multiset(list)
  {
    MultisetRemoveAt(list, i);
  }

  /** Removing keeps a clean list clean. */
  lemma RemoveAttachmentKeepsClean(list: seq<string>, i: int)
    requires CleanAttachments(list)
    ensures CleanAttachments(RemoveAttachment(list, i))
  {
    var r := RemoveAttachment(list, i);
    forall j | 0 <= j < |r| ensures r[j] in list {
      if 0 <= i < |list| && j >= i {
        assert r[j] == list[j + 1];
      } else {
        assert r[j] == list[j];
      }
    }
  }

  // ----- The user's task lists (UserDashboard.tsx:308-310) -----

  predicate AssignedTo(t: Task, uid: int)
  {
    uid in t.assignedTo
  }

  /** Tasks assigned to the user, in list order. */
  function UserTasks(tasks: seq<Task>, uid: int): (r: seq<Task>)
    ensures forall t :: t in r <==> t in tasks && uid in t.assignedTo
    ensures forall t: Task :: uid in t.assignedTo ==> multiset(r)[t] == multiset(tasks)[t]
  {
    var mine := (t: Task) => AssignedTo(t, uid);
    FilterMultiset(tasks, mine);
    Filter(tasks, mine)
  }

  /** Of those, the ones still awaiting a submission (Open or In Progress). */
  function SubmittableTasks(tasks: seq<Task>, uid: int): (r: seq<Task>)
    ensures forall t :: t in r <==> t in tasks && uid in t.assignedTo && App.AwaitingSubmission(t)
    ensures |r| <= |UserTasks(tasks, uid)| <= |tasks|
    ensures forall t :: multiset(r)[t] == if App.AwaitingSubmission(t) then multiset(UserTasks(tasks, uid))[t] else 0
  {
    FilterMultiset(UserTasks(tasks, uid), App.AwaitingSubmission);
    Filter(UserTasks(tasks, uid), App.AwaitingSubmission)
  }

  /** The dashboard's active-task counter. */
  function ActiveUserTasksCount(tasks: seq<Task>, uid: int): (r: nat)
    ensures r == |SubmittableTasks(tasks, uid)|
  {
    var mine := UserTasks(tasks, uid);
    FilterCongruent(mine, (t: Task) => t.status == Open || t.status == InProgress, App.AwaitingSubmission);
    |Filter(mine, (t: Task) => t.status == Open || t.status == InProgress)|
  }

  /** A task listed as submittable passes the guard of `App.Store.SubmitAssignedTask` (the first task with its id). */
  lemma SubmittableIsSubmittable(tasks: seq<Task>, uid: int, t: Task)
    requires t in SubmittableTasks(tasks, uid)
    requires forall i, j :: 0 <= i < j < |tasks| && tasks[i].id == tasks[j].id ==> tasks[i] == tasks[j]
    ensures var ix := App.TaskIndex(tasks, t.id);
      ix.Some? && uid in tasks[ix.value].assignedTo && App.AwaitingSubmission(tasks[ix.value])
  {
    var k :| 0 <= k < |tasks| && tasks[k] == t;
    var ix := App.TaskIndex(tasks, t.id);
    assert ix.Some?;
    if ix.value != k {
      assert tasks[ix.value] == tasks[k];
    }
  }
}
