# EarnEdge task marketplace: a verified model of its state and validation rules

EarnEdge is a single-page React application. Users sign up, sign in, work on tasks an administrator assigns them, hand in submissions and request withdrawals of the coins they earned. Administrators manage accounts and tasks, review submissions, approve or reject withdrawal requests and change the site settings. The whole application state lives in `App.tsx`: the users, tasks, coin transactions (the ledger), the settings and the signed-in user. The dashboards and the login and sign-up pages check their inputs and then call the application's handlers.

This project models that state and those checks in Dafny and proves what they guarantee.

- `Types` (`types.dfy`) holds the records and their closed enumerations:
  - user status Active/Inactive/Pending/Blocked; role Admin/User;
  - task status Open/In Progress/Completed/Pending Review; submission type notes/file/link;
  - transaction type Deposit/Withdrawal; transaction status Completed/Pending/Rejected.

  Money is a whole number of cents, so that sums are exact. The transaction's `type` field is called `kind`, because `type` is a Dafny keyword. A submission is optional on a task; when present it has notes and a submission time, with optional attachments and link.
- `Seed` (`seed.dfy`) is the initial data.
- `Ledger` (`ledger.dfy`) holds the per-element updates of the handlers and the theory of the ledger. `Net(txs, uid)` is the signed sum of a user's Completed entries: deposits add, withdrawals subtract. `Reconciled(users, txs, opening)` says that every balance equals its opening amount plus that net effect, i.e. every balance change is matched by a ledger entry.
- `App` (`app.dfy`) holds class `Store`, with one method per handler.
  - Every handler as written keeps `Consistent()`: no two positions of the user list, and no two of the ledger, hold the same id, and only withdrawals are ever Pending.
  - Every handler states whether it keeps `Balanced()`, i.e. whether the store stays `Reconciled` against its ghost opening amounts. Most keep it unconditionally; the exceptions are below.
  - The state checks that exist only in the dashboards are wrapped around the handlers as `ResolveWithdrawal`, `SubmitAssignedTask` and `ReviewSubmittedTask`, so the handlers themselves stay as written.
- `AccessGate` (`access_gate.dfy`) is the login page's decision and the application's maintenance gate.
- `UserDashboard`, `SignupPage` and `AdminDashboard` hold the pure input checks, list operations and derived figures of those components.
- `Common` and `Strings` hold `find`/`filter`, and JavaScript's `trim`, `\s` and `toLowerCase` (ASCII letters only).

What the proofs establish, in the system's own terms:

- A withdrawal request moves no balance. It is debited exactly at its Pending→Completed step.
- `UpdateTransactionStatus` as written overwrites any status. It keeps the ledger reconciled when the entry was Pending or already had the new status; otherwise it may not. For example, rejecting a Completed entry refunds nothing, and `Ledger.RejectingCompletedLosesTrack` exhibits the mismatch.
- The admin dashboard only offers approve and reject for Pending entries. Under that guard (`ResolveWithdrawal`) each request is debited at most once, and the ledger always stays reconciled.
- Approving a task credits each assignee exactly once, and the ledger grows by one payout per assignee.
- Nothing is reserved at request time, so accepted requests may together exceed the balance (`UserDashboard.OvercommittedWithdrawals`).
- An administrator-created account with a negative starting balance gets no ledger entry. That is the only other way the store leaves reconciliation.
- The seed's Pending withdrawal (entry 3, 100.00 for user 1) is already taken out of that user's seeded balance: 1234.56 is the 1334.56 of user 1's Completed entries minus those 100.00 (`Seed.SeedPendingAlreadyDebited`). Approving it as the application offers debits the 100.00 a second time. The model takes the seeded balances as opening amounts, so the store is reconciled at the start and stays so; the double debit stays visible only against the seed's own ledger.

## Model

| member | source | states |
|---|---|---|
| Seed.SeedIdsArePositions | App.tsx:8-32 | The seeded users and entries are numbered 1, 2, 3, … in list order. |
| Seed.SeedPendingAlreadyDebited | App.tsx:9-30 | Entry 3 is user 1's Pending 100.00 withdrawal, and user 1's seeded balance equals their Completed net minus those 100.00: the request is already debited before approval. |
| Seed.SeedIsConsistent | App.tsx:8-32 | The seed has unique user and transaction ids, amounts are non-negative, and its one Pending entry is a withdrawal. |
| Ledger.OpeningReconciles | App.tsx:8-32 | Any store with unique user ids is reconciled against opening amounts taken from its own balances, so the seed starts balanced. |
| Ledger.AdjustBalance | App.tsx:132-134 | Every user with the id has the amount added to their balance. All other users, and all other fields, stay as they were, in place. |
| Ledger.ReplaceUser | App.tsx:179 | Each record with the saved record's id becomes that record; the others stay in place, and no position changes its id. |
| Ledger.SetTxStatus | App.tsx:129-139 | Each entry with the id takes the new status, the others keep theirs, and nothing but the status changes. |
| Ledger.AdjustmentTx | App.tsx:167-176 | The entry carries the given id, user, reason as source and date, is Completed with a non-negative amount, is a deposit iff the difference is positive, and its signed value is the difference. |
| Ledger.Payout | App.tsx:209-217 | A Completed deposit of the reward for the user under id `now + userId`, dated, with the source "Task Payout: " followed by the task's title. It changes that user's net by the reward and nobody else's. |
| Ledger.Payouts | App.tsx:204-219 | One entry per listed assignee, in list order, with that assignee's user and id. Each is a Completed deposit of the reward, on the given date, with the source "Task Payout: " followed by the task's title. |
| Ledger.CreditAll | App.tsx:204-207 | Crediting the assignees keeps every user in place and changes nothing but balances. |
| Ledger.AdjustmentTxSigned | App.tsx:166-176 | The entry an admin balance edit appends has a positive amount. Its signed value, and its effect on that user, equal the new balance minus the old. |
| Ledger.SetTxStatusAt | App.tsx:129-139 | With unique ids, the status update by id changes exactly the one entry with that id and nothing else. |
| Ledger.SetTxStatusKeepsShape | App.tsx:128-141 | A status update keeps the ledger's length, unique ids, non-negative amounts and "only withdrawals are Pending". |
| Ledger.PayoutsKeepShape | App.tsx:209-218 | Payout entries with fresh ids keep ids unique and add no Pending entry. With a non-negative reward they keep amounts non-negative. |
| Ledger.CreditAllBalance | App.tsx:204-207 | Crediting the assignees in order raises each user's balance by the reward times the number of times their id is listed; nothing else changes. |
| Ledger.CreditAllOnce | App.tsx:204-207 | With a duplicate-free assignee list, each assignee gains the reward exactly once and everyone else nothing. |
| Ledger.AdjustBalanceKeepsUniqueIds | App.tsx:132-134 | Changing a balance keeps user ids unique. |
| Ledger.CreditAllKeepsUniqueIds | App.tsx:204-207 | Crediting all assignees keeps user ids unique. |
| Ledger.AppendFreshUserKeepsUniqueIds | App.tsx:151 | Appending a user whose id no user has keeps user ids unique. |
| Ledger.AppendCompletedKeepsShape | App.tsx:152-162 | Appending a Completed entry under an unused id keeps ledger ids unique and adds no Pending entry; with a non-negative amount it keeps amounts non-negative. |
| Ledger.ReplaceUserKeepsUniqueIds | App.tsx:179 | Replacing the users that have the saved record's id keeps user ids unique. |
| Ledger.UnsettledEntryKeepsReconciled | App.tsx:115-126 | Appending an entry that is not Completed (a withdrawal request) leaves every balance explained. |
| Ledger.EntryMatchesAdjustment | App.tsx:204-218 | Moving one user's balance by d while appending an entry whose effect on that user is d keeps the store reconciled. |
| Ledger.CompletingPendingDebits | App.tsx:130-136 | Completing a Pending withdrawal, together with the debit of its amount, keeps the store reconciled. |
| Ledger.UnsettledStatusChange | App.tsx:130-136 | A status change that neither enters nor leaves Completed keeps the store reconciled without a balance change. |
| Ledger.RejectingCompletedLosesTrack | App.tsx:130-136 | Counterexample: rejecting a Completed withdrawal turns a reconciled store into one that is not, because no refund is made. |
| Ledger.AdminEditReconciles | App.tsx:165-179 | Saving a user with a changed balance, plus the adjustment entry, keeps the store reconciled. |
| Ledger.AdminEditSameBalance | App.tsx:165-179 | Saving a user with an unchanged balance and no entry keeps the store reconciled. |
| Ledger.NewUserReconciles | App.tsx:144-163 | A new account with a fresh id and opening 0 keeps the store reconciled. Its balance must be 0 with no entry, or positive with one matching Completed deposit. |
| Ledger.ApprovalReconciles | App.tsx:201-219 | All the balance credits of an approval, together with all its payout entries, keep the store reconciled. |
| App.UserIndex | App.tsx:100 | `find` by id: the index returned holds the id, and None means no user has it. |
| App.SetPassword | App.tsx:105 | The users with the id get the new password; no other user and no other field changes, and every user stays in place. |
| App.MarkSubmitted | App.tsx:188-194 | The tasks with the id become Pending Review holding the submission; only status and submission change, and other tasks are untouched. |
| App.MarkApproved | App.tsx:202 | The tasks with the id become Completed; only the status changes, and other tasks are untouched. |
| App.MarkRejected | App.tsx:223 | The tasks with the id become In Progress without a submission; only those two fields change, and other tasks are untouched. |
| App.TaskIndex | App.tsx:198 | `find` by id: the first task with the id, or None when no task has it. |
| App.RemoveUser | App.tsx:183-185 | Exactly the users without the id remain. |
| App.UserTransactions | App.tsx:271 | A user's ledger view holds exactly that user's entries, each as often as in the ledger. |
| App.DefaultUsername | App.tsx:148 | The typed username is kept. A blank one becomes exactly the non-whitespace characters of the lowercased full name, in order: never longer than the name and free of whitespace. |
| Strings.RemoveWhitespaceFilters | App.tsx:148 | Deleting every `\s` match keeps exactly the non-whitespace characters, in order. |
| App.DefaultUsernameNormal | App.tsx:148 | A derived username is already lowercase and whitespace-free: lowercasing or stripping it again changes nothing. |
| App.SignupUser | App.tsx:82-96 | A signed-up account has the typed details, balance 0, status Pending and role User. |
| App.AdminCreatedUser | App.tsx:145-150 | An admin-created account is the form with the fresh id, the derived username and today's date. |
| App.InitialBalanceTx | App.tsx:152-161 | The starting-balance entry has the given id, date and account, the source "Initial Balance (Admin)", and is a Completed deposit of exactly the account's balance. |
| App.SubmissionOf | App.tsx:192 | The stored submission is the forwarded payload plus its submission time. |
| App.SetPasswordKeeps | App.tsx:105-106 | Changing a password changes no id and no balance: ids stay unique and the store stays reconciled. |
| App.RemoveUserKeeps | App.tsx:183-185 | Deleting users keeps the remaining ids unique and balances reconciled, and no user with the id is left. |
| App.SettleKeeps | App.tsx:131-136 | Completing a Pending entry together with its owner's debit keeps the ids unique, adds no Pending entry, keeps amounts non-negative and keeps the store reconciled. |
| App.AdminEditKeeps | App.tsx:165-179 | An admin edit, with its adjustment entry when the found user's balance changes, keeps ids unique, adds no Pending entry, keeps amounts non-negative and keeps the store reconciled. |
| App.ApprovalKeeps | App.tsx:201-219 | An approval's credits and payout entries keep ids unique, add no Pending entry and keep the store reconciled. Each user's balance rises by the reward iff listed, and the ledger grows by one entry per assignee. |
| App.RejectThenResubmit | App.tsx:187-224 | A rejected task is In Progress with no submission, so it can be handed in again. The next submission makes it Pending Review with exactly that submission; other tasks are untouched. |
| App.SignupCannotSignIn | App.tsx:82-96 | A freshly signed-up account, whose name no earlier account has, is refused at login whatever password is typed. |
| App.Store.constructor | App.tsx:43-48 | A store over any records with unique ids and Pending-only-withdrawals starts consistent and balanced, signed out. |
| App.Store.Seeded | App.tsx:8-48 | The initial store holds the seed, is consistent and balanced, and no one is signed in. |
| App.Store.Login | App.tsx:68-80 | The signed-in user becomes the account, unless maintenance is on and it is no administrator; then no one is signed in. |
| App.Store.SignIn | components/LoginPage.tsx:18-43 | One attempt has one outcome: the gate's decision. Only an accepted account is signed in. Users, tasks, ledger and settings are unchanged. |
| App.Store.Logout | App.tsx:63-66 | No one is signed in; nothing else changes. |
| App.Store.Signup | App.tsx:82-96 | Exactly the new account is appended; consistency and reconciliation are kept. |
| App.Store.ChangePassword | App.tsx:98-113 | Refused, changing nothing, iff the user is missing or the current password differs. Otherwise only that user's password changes, mirrored into the signed-in user when it is them. |
| App.Store.SavePassword | components/UserDashboard.tsx:238-252 | A new password that differs from its confirmation is refused before anything is asked. Otherwise the outcome is that of the password change. |
| App.Store.RequestWithdrawal | App.tsx:115-126 | Exactly one Pending "Withdrawal Request" entry with the given user and amount is appended; no balance moves. |
| App.Store.UpdateTransactionStatus | App.tsx:128-141 | Only the addressed entry's status is overwritten. Its owner is debited its amount exactly when it goes from Pending to Completed, and no balance moves otherwise. Reconciliation is kept when the entry was Pending or already had the status. |
| App.Store.SettlePending | App.tsx:131-136 | The Pending entry becomes Completed and its owner is debited its amount. The store stays consistent, and reconciled if it was. |
| App.Store.OverwriteStatus | App.tsx:129-139 | Any other status update overwrites the status and moves no balance. The store stays consistent, and reconciled when the entry was Pending or already had the status. |
| App.Store.ResolveWithdrawal | components/AdminDashboard.tsx:727-734 | Only a Pending entry is resolved, with its owner debited on approval alone. Others are refused unchanged, so each request is debited at most once and reconciliation is always kept. |
| App.Store.SaveUserByAdmin | App.tsx:143-181 | A new account gets the fresh id, and a starting deposit iff its balance is positive. An edit replaces the user; a changed balance appends one Completed entry from the reason whose signed amount is the difference, an unchanged one none. |
| App.Store.CreateUserByAdmin | App.tsx:144-163 | The account is appended under the fresh id with a starting deposit iff its balance is positive. The store stays consistent, and reconciled for a balance >= 0. |
| App.Store.EditUserByAdmin | App.tsx:165-179 | The user is replaced, and a changed balance appends one Completed entry from the reason whose signed amount is the difference. The store stays consistent and reconciled. |
| App.Store.DeleteUser | App.tsx:183-185 | The users with the id are removed; the ledger is untouched and stays reconciled. |
| App.Store.SubmitTask | App.tsx:187-195 | The tasks with the id become Pending Review holding the payload and its time; nothing else changes. |
| App.Store.SubmitAssignedTask | components/UserDashboard.tsx:308-310 | A submission is accepted iff the task exists, is assigned to the user and is Open or In Progress. Otherwise the task is unchanged. |
| App.Store.ReviewTask | App.tsx:197-225 | An unknown task changes nothing. Approval marks it Completed, credits every assignee once and appends one payout each. Rejection makes it In Progress without a submission. Reconciliation is kept. |
| App.Store.PayAssignees | App.tsx:204-219 | Balances become those of crediting every assignee in order, and exactly one payout per assignee is appended; nothing else changes. |
| App.Store.ReviewSubmittedTask | components/AdminDashboard.tsx:287-288 | Review happens iff the task is Pending Review and holds a submission, with the effects of the review; otherwise nothing changes. |
| App.Store.SetTasks | App.tsx:255 | The task list is replaced wholesale; nothing else changes. |
| App.Store.SetAppSettings | App.tsx:261 | The settings are replaced wholesale; nothing else changes. |
| App.WithdrawOnce | App.tsx:115-141 | A 30.00 request against 100.00 leaves the balance at 100.00, approval makes it 70.00, and a second approval is refused with the balance still 70.00. |
| App.ApproveTwoAssignees | App.tsx:197-219 | Approving a 5.00 task assigned to two users pays each 5.00 once and writes two entries. |
| AccessGate.LookupByUsername | components/LoginPage.tsx:19 | The first user, in list order, whose username equals the typed one ignoring case; None when no user matches. |
| AccessGate.Authenticate | components/LoginPage.tsx:18-43 | Credentials come first: a missing user or a password that is absent or unequal gives invalid credentials, whatever the status. Success iff found, the password is equal and the status is Active. Inactive, Blocked and Pending each give their own error. |
| AccessGate.Gate | App.tsx:68-80 | During maintenance only administrators stay signed in. |
| AccessGate.SignIn | components/LoginPage.tsx:27-28 | An attempt succeeds iff the page accepts it and, during maintenance, the account is an administrator's. Page errors pass through unchanged. |
| AccessGate.CaseInsensitiveLookup | components/LoginPage.tsx:19 | Usernames equal up to letter case reach the same account with the same outcome. |
| AccessGate.StoredNameInAnyCase | components/LoginPage.tsx:19 | Typing the lowercased username gives the same outcome as typing it as stored. |
| AccessGate.NoPasswordNoLogin | components/LoginPage.tsx:21 | An account without a stored password is refused with invalid credentials whatever is typed. |
| AccessGate.SignInAt | components/LoginPage.tsx:18-43 | Once the lookup lands on a user: a wrong password gives invalid credentials, each non-Active status its own error, and an Active account the gate's decision. |
| AccessGate.LookupAt | components/LoginPage.tsx:19 | The lookup lands on the first matching user. |
| AccessGate.SeedAdminDuringMaintenance | App.tsx:68-80 | During maintenance the seeded administrator still signs in. |
| AccessGate.SeedUserDuringMaintenance | App.tsx:68-80 | The seeded Active user signs in (name typed in mixed case) and is refused during maintenance. |
| AccessGate.SeedInactiveRefused | components/LoginPage.tsx:30-32 | The seeded Inactive account is refused with its error even with the right password. |
| AccessGate.SeedPendingRefused | components/LoginPage.tsx:36-38 | The seeded Pending account is refused with its error even with the right password. |
| AccessGate.SeedBlockedRefused | components/LoginPage.tsx:21-35 | The seeded Blocked account gets its own error with the right password, and invalid credentials with a wrong one. |
| UserDashboard.ValidateWithdrawal | components/UserDashboard.tsx:62-73 | Accepted iff a number with 0 < amount <= balance. A missing or non-positive amount is invalid; a larger one exceeds the balance. |
| UserDashboard.OvercommittedWithdrawals | components/UserDashboard.tsx:62-73 | Two accepted 80.00 requests against 100.00 both reach the ledger, asking 160.00 in total. |
| UserDashboard.BuildSubmission | components/UserDashboard.tsx:120-139 | Blank notes are refused first, then a blank link on a link task. The payload carries the untrimmed notes, attachments only for a file task and the link only for a link task. |
| UserDashboard.AcceptedSubmissionHasContent | components/UserDashboard.tsx:120-128 | Accepted notes, and the link of a link task, contain a visible character. |
| UserDashboard.AddAttachment | components/UserDashboard.tsx:109-114 | A blank name leaves the list; otherwise its trimmed form is appended. |
| UserDashboard.AddAttachmentKeepsClean | components/UserDashboard.tsx:109-114 | The list never gains a blank or untrimmed entry. |
| UserDashboard.RemoveAttachment | components/UserDashboard.tsx:116-118 | The entry at the index is removed and the others keep their order; an index outside the list removes nothing. |
| UserDashboard.RemoveAttachmentCounts | components/UserDashboard.tsx:116-118 | Removing shortens the list by one and removes exactly one occurrence of that entry. |
| UserDashboard.RemoveAttachmentKeepsClean | components/UserDashboard.tsx:116-118 | Removing keeps a clean list clean. |
| UserDashboard.UserTasks | components/UserDashboard.tsx:308 | Exactly the tasks assigned to the user, each as often as listed. |
| UserDashboard.SubmittableTasks | components/UserDashboard.tsx:310 | Exactly the user's tasks that are Open or In Progress, each as often as among the user's tasks. |
| UserDashboard.ActiveUserTasksCount | components/UserDashboard.tsx:309 | The counter is the number of submittable tasks. |
| UserDashboard.SubmittableIsSubmittable | components/UserDashboard.tsx:308-310 | With one record per task id, a listed task passes the submission guard. |
| SignupPage.UpdateField | components/SignupPage.tsx:33-35 | Only the named field takes the new value. |
| SignupPage.HandleSignup | components/SignupPage.tsx:37-58 | A password mismatch is reported first, then any empty required field. Success iff neither, forwarding exactly the five account fields. |
| SignupPage.AcceptedPassword | components/SignupPage.tsx:40-48 | A forwarded password is non-empty and equal to the confirmation. |
| SignupPage.FilledFormForwards | components/SignupPage.tsx:33-56 | Filling the form field by field and submitting forwards exactly what was typed. |
| SignupPage.ConfirmationNotForwarded | components/SignupPage.tsx:50-56 | The confirmation affects only acceptance, never the forwarded record. |
| AdminDashboard.NewUserDefaults | components/AdminDashboard.tsx:473 | The "add user" form has id 0, balance 0, status Active, role User and no password. |
| AdminDashboard.SubmitUserForm | components/AdminDashboard.tsx:80-92 | A new account needs a non-empty password equal to its confirmation. The record saved carries the typed password, or keeps the stored one when none is typed. |
| AdminDashboard.EditKeepsPassword | components/AdminDashboard.tsx:90 | Editing without typing a password saves the form with its stored password. |
| AdminDashboard.NewAccountPassword | components/AdminDashboard.tsx:83-90 | A new account is saved only with the twice-typed password, and under id 0 (the creation path). |
| AdminDashboard.ToggleAssignee | components/AdminDashboard.tsx:195-203 | The user is unassigned if assigned and appended otherwise; every other assignee stays. |
| AdminDashboard.ToggleKeepsNoDuplicates | components/AdminDashboard.tsx:195-203 | Toggling keeps an assignee list free of repeats. |
| AdminDashboard.ToggleTwice | components/AdminDashboard.tsx:195-203 | Toggling twice restores the set of assignees, and the exact list when the user was not assigned. |
| AdminDashboard.NewTaskDefaults | components/AdminDashboard.tsx:501 | The "add task" form has id 0, reward 0, status Open, today's deadline, no assignees and the notes type. |
| AdminDashboard.SaveTask | components/AdminDashboard.tsx:511-519 | A task with id 0 is appended under the fresh id. Otherwise only the tasks with its id are replaced, keeping length and order. |
| AdminDashboard.SaveTaskIds | components/AdminDashboard.tsx:511-519 | An edit moves no id, and a new task is found under its fresh id. |
| AdminDashboard.DeleteTask | components/AdminDashboard.tsx:505-509 | Exactly the tasks with another id remain, each as often as before. |
| AdminDashboard.DeleteTaskProperties | components/AdminDashboard.tsx:505-509 | After deletion no task has the id, the order of the rest is kept, and an absent id deletes nothing. |
| AdminDashboard.PendingWithdrawals | components/AdminDashboard.tsx:532 | Exactly the withdrawal entries that are Pending. |
| AdminDashboard.PendingWithdrawalsAreAllPending | components/AdminDashboard.tsx:532 | Because only withdrawals are Pending, the list is every Pending entry, in ledger order. |
| AdminDashboard.ActiveTaskCount | components/AdminDashboard.tsx:561 | The number of positions holding an Open or In Progress task: at most the number of tasks, and zero iff there is none. |
| AdminDashboard.TotalBalanceBounds | components/AdminDashboard.tsx:563 | The "Total Earnings" sum of balances is not negative when no balance is, and no single balance exceeds it. |
| AdminDashboard.TotalBalanceAdjust | components/AdminDashboard.tsx:563 | Moving a balance by d moves the total by d for each user with that id. |
| AdminDashboard.CountWithUniqueId | components/AdminDashboard.tsx:563 | With unique ids, that count is 1 when the user exists and 0 otherwise. |
| AdminDashboard.TotalBalanceAdjustUnique | components/AdminDashboard.tsx:563 | With unique ids, moving one existing user's balance by d moves the total by exactly d. |

## Left out

- Rendering, modals, navigation, the theme toggle, icons, notifications and timers are presentation only.
- Time sources: `Date.now()` ids and `toISOString` dates are parameters. Every id has a precondition that it is unused. Payout ids keep the form `now + userId`. A review reads the clock once: `App.Store.ReviewTask` and `App.Store.PayAssignees` use one `now` and one date for every payout, where the source reads the clock again for each assignee (App.tsx:211, 216).
- Sorting by date (App.tsx:271, components/AdminDashboard.tsx:533) depends on host date parsing. `App.UserTransactions` keeps ledger order.
- `parseFloat` and NaN: amounts arrive already parsed. Non-numeric input is `None` in `UserDashboard.ValidateWithdrawal`.
- `toLowerCase` maps ASCII letters only, not full Unicode case mapping.
- Host calls: `alert` and `window.confirm` (the delete confirmation is taken as given) and the Promise around the password change, which becomes an `Outcome`.
- The user search filter and the display helpers (avatar initials and colours, number formatting) are display only.
- React state batching: each handler is one atomic update.
- The maintenance screen shown to a signed-in non-administrator (App.tsx:228-231) is navigation, not state.
- The login page's `default` status branch (components/LoginPage.tsx:39-41) cannot be reached with the closed status enumeration.
- App.Store.SaveUserByAdmin: the default reason 'Admin Adjustment' (App.tsx:143) is never used, because the dashboard always passes a reason.
- App.Store.SavePassword: the administrator's password form (components/AdminDashboard.tsx:368-382) is the same check on the administrator's id. It is modelled by this one method.
- App.Store.UpdateTransactionStatus: requires the store's id uniqueness (`Consistent()`). With duplicate ids the handler would debit once per matching Pending entry; that state is unreachable from the seed under fresh ids.
- App.Store.ReviewTask: requires the payout ids `now + userId` unused and the assignee list duplicate-free. The source gives no such guarantee; the UI's toggle keeps lists duplicate-free (`AdminDashboard.ToggleKeepsNoDuplicates`).
- App.Store.SaveUserByAdmin: keeps the ledger reconciled only for a starting balance >= 0. Creating an account with a negative balance records no entry.
- UserDashboard.ValidateWithdrawal: takes the balance as a parameter. The dashboard passes the signed-in user's snapshot, which the application refreshes only on a password change, so after a credit or a debit the check runs against the balance as it was at sign-in. The model does not tie that parameter to the store.
- The adjustment reason chosen in the admin user form (components/AdminDashboard.tsx:63, 140-144) is a free string in `App.Store.SaveUserByAdmin`; the dropdown's fixed list of options is presentation.
- App.Store.PayAssignees: one clock reading for the whole loop, so all payouts of a review share `now` and the date; the source's per-assignee readings could differ between assignees.
