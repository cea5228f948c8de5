/**
 * The records of the marketplace: users, tasks, coin transactions and the
 * application settings. Monetary values are whole cents, so that balances and
 * sums are exact.
 */
module Types {
  import opened Common

  /** Login gate of an account. */
  datatype UserStatus = Active | Inactive | Pending | Blocked

  datatype Role = AdminRole | UserRole

  /** Which evidence a task asks for when work is submitted. */
  datatype SubmissionType = Notes | File | Link

  /** Task lifecycle: Open and InProgress both await a submission. */
  datatype TaskStatus = Open | InProgress | Completed | PendingReview

  datatype TxType = Deposit | Withdrawal

  datatype TxStatus = Completed | Pending | Rejected

  /** A user account; `password` is optional, as in the record type. */
  datatype User = User(
    id: int,
    fullName: string,
    username: string,
    email: string,
    phone: string,
    balance: int,
    status: UserStatus,
    role: Role,
    joined: string,
    password: Option<string>)

  /** What a user hands in for a task, with the time it was handed in. */
  datatype Submission = Submission(
    notes: string,
    attachments: Option<seq<string>>,
    link: Option<string>,
    submittedAt: string)

  /** The payload a dashboard forwards for a submission (the handler adds the timestamp). */
  datatype SubmissionData = SubmissionData(
    notes: string,
    attachments: Option<seq<string>>,
    link: Option<string>)

  datatype Task = Task(
    id: int,
    projectName: string,
    title: string,
    description: string,
    reward: int,
    status: TaskStatus,
    deadline: string,
    assignedTo: seq<int>,
    submissionType: SubmissionType,
    submission: Option<Submission>)

  /** One ledger entry; `amount` is a magnitude whose sign `kind` implies. */
  datatype CoinTransaction = CoinTransaction(
    id: int,
    userId: int,
    kind: TxType,
    source: string,
    amount: int,
    date: string,
    status: TxStatus)

  datatype AppSettings = AppSettings(
    siteName: string,
    maintenanceMode: bool,
    allowRegistration: bool,
    contactPhone: string)

  /** The fields the sign-up form forwards to the application. */
  datatype SignupData = SignupData(
    fullName: string,
    username: string,
    email: string,
    phone: string,
    password: Option<string>)
}
