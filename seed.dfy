/**
 * The records the application starts with (App.tsx:8-39), amounts in cents.
 */
module Seed {
  import opened Common
  import opened Types
  import opened Ledger

  function InitialUsers(): seq<User>
  {
    [ User(1, "John Doe", "johndoe", "john.d@example.com", "+11234567890", 123456, Active, UserRole, "2023-01-15", Some("johndoe")),
      User(2, "Jane Smith", "janesmith", "jane.s@example.com", "+1234567891", 58000, Active, UserRole, "2023-02-20", Some("janesmith")),
      User(3, "Mike Johnson", "mikej", "mike.j@example.com", "+1345678912", 0, Inactive, UserRole, "2023-03-10", Some("mikej")),
      User(4, "Admin User", "admin", "admin@earnedge.com", "+1456789123", 9999900, Active, AdminRole, "2023-01-01", Some("admin")),
      User(5, "Emily Brown", "emilyb", "emily.b@example.com", "+1567891234", 7520, UserStatus.Pending, UserRole, "2023-05-01", Some("emilyb")),
      User(6, "Sam Wilson", "samw", "sam.w@example.com", "+1678912345", 15000, Blocked, UserRole, "2023-06-12", Some("samw")) ]
  }

  const CrmDetails: string := "Enter 500 records into the new CRM system. Details are in the attached spreadsheet."
  const GraphicsDetails: string := "Create 10 engaging graphics for our upcoming social media campaign. Submit the link to the Canva project."
  const TranslationDetails: string := "Translate 5 blog posts from English to Spanish."
  const BetaDetails: string := "Perform user testing on the new website beta and report any bugs found in the notes."

  function InitialTasks(): seq<Task>
  {
    [ Task(1, "CRM Update", "Data Entry Project",
           CrmDetails,
           15000, Open, "2025-08-15", [1, 2], File, None),
      Task(2, "Marketing Campaign", "Social Media Graphics",
           GraphicsDetails,
           20000, InProgress, "2025-08-10", [2], Link, None),
      Task(3, "Global Outreach", "Content Translation",
           TranslationDetails,
           35000, TaskStatus.Completed, "2025-07-20", [1], File, None),
      Task(4, "Website Launch", "Website Beta Testing",
           BetaDetails,
           10000, Open, "2025-08-25", [1], Notes, None) ]
  }

  function InitialTransactions(): seq<CoinTransaction>
  {
    [ CoinTransaction(1, 1, Deposit, "Initial Balance", 100000, "2023-01-15", TxStatus.Completed),
      CoinTransaction(2, 2, Deposit, "Task Payout: Social Media Graphics", 20000, "2025-08-11", TxStatus.Completed),
      CoinTransaction(3, 1, Withdrawal, "Withdrawal Request", 10000, "2025-08-12", TxStatus.Pending),
      CoinTransaction(4, 2, Withdrawal, "Withdrawal Request", 5000, "2025-08-13", TxStatus.Completed),
      CoinTransaction(5, 5, Deposit, "Welcome Bonus", 7520, "2023-05-01", TxStatus.Completed),
      CoinTransaction(6, 1, Deposit, "Task Payout: Content Translation", 33456, "2025-07-21", TxStatus.Completed),
      CoinTransaction(7, 2, Withdrawal, "Withdrawal Request", 2500, "2025-08-15", Rejected) ]
  }

  function InitialSettings(): AppSettings
  {
    AppSettings("EarnEdge", false, true, "+1 (800) 555-0123")
  }

  /** The seed's ids are 1, 2, 3, ... in list order. */
  lemma SeedIdsArePositions()
    ensures forall k :: 0 <= k < |InitialUsers()| ==> InitialUsers()[k].id == k + 1
    ensures forall k :: 0 <= k < |InitialTransactions()| ==> InitialTransactions()[k].id == k + 1
  {
  }

  /**
   * The seeded balance of user 1 already has the still-Pending withdrawal
   * request 3 (100.00) taken off: it is 100.00 below what that user's Completed
   * entries add up to. Approving request 3 therefore debits those 100.00 a
   * second time.
   */
  lemma SeedPendingAlreadyDebited()
    ensures InitialTransactions()[2].userId == 1 && InitialTransactions()[2].status == TxStatus.Pending
    ensures InitialTransactions()[2].kind == Withdrawal && InitialTransactions()[2].amount == 10000
    ensures InitialUsers()[0].id == 1
    ensures InitialUsers()[0].balance == Net(InitialTransactions(), 1) - InitialTransactions()[2].amount
  {
    var txs := InitialTransactions();
    assert Net(txs[..1], 1) == 100000 by { assert txs[..1][..0] == []; }
    assert Net(txs[..2], 1) == 100000 by { assert txs[..2][..1] == txs[..1]; }
    assert Net(txs[..3], 1) == 100000 by { assert txs[..3][..2] == txs[..2]; }
    assert Net(txs[..4], 1) == 100000 by { assert txs[..4][..3] == txs[..3]; }
    assert Net(txs[..5], 1) == 100000 by { assert txs[..5][..4] == txs[..4]; }
    assert Net(txs[..6], 1) == 133456 by { assert txs[..6][..5] == txs[..5]; }
    assert Net(txs, 1) == 100000 + 33456 by { assert txs[..6] == txs[..|txs| - 1]; }
  }

  /** The seed has unique ids and its one Pending entry is a withdrawal request. */
  lemma SeedIsConsistent()
    ensures UniqueUserIds(InitialUsers())
    ensures UniqueTxIds(InitialTransactions())
    ensures PendingAreWithdrawals(InitialTransactions())
    ensures AmountsNonNegative(InitialTransactions())
  {
    SeedIdsArePositions();
  }
}
