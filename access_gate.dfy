/**
 * Signing in: the login page's lookup, password and status checks
 * (LoginPage.tsx:18-43) followed by the application's maintenance gate
 * (App.tsx:68-80).
 */
module AccessGate {
  import opened Common
  import opened Types
  import opened Strings
  import Seed

  /** One error per way an attempt can fail; each has its own message in the source. */
  datatype LoginError =
    | InvalidCredentials
    | AccountInactive
    | AccountBlocked
    | AccountPending
    | MaintenanceMode

  predicate NameMatches(u: User, username: string)
  {
    Lower(u.username) == Lower(username)
  }

  /** Index of the first user whose username equals `username` ignoring case. */
  function LookupByUsername(users: seq<User>, username: string): (r: Option<nat>)
    ensures r.Some? ==> r.value < |users| && NameMatches(users[r.value], username)
    ensures r.Some? ==> forall j :: 0 <= j < r.value ==> !NameMatches(users[j], username)
    ensures r.None? <==> forall j :: 0 <= j < |users| ==> !NameMatches(users[j], username)
  {
    FirstIndex(users, (u: User) => NameMatches(u, username))
  }

  /**
   * The login page's decision. Credentials are checked before the status, the
   * password must be present and equal, and only an Active account is let in.
   */
  function Authenticate(users: seq<User>, username: string, password: string): (r: Result<User, LoginError>)
    ensures var found := LookupByUsername(users, username);
      (found.None? || users[found.value].password != Some(password)) ==> r == Err(InvalidCredentials)
    ensures var found := LookupByUsername(users, username);
      r.Ok? <==> found.Some? && users[found.value].password == Some(password) && users[found.value].status == Active
    ensures r.Ok? ==> exists i :: 0 <= i < |users| && r.value == users[i] && NameMatches(users[i], username)
                               && forall j :: 0 <= j < i ==> !NameMatches(users[j], username)
    ensures r.Ok? ==> r.value.password == Some(password) && r.value.status == Active
    ensures var found := LookupByUsername(users, username);
      found.Some? && users[found.value].password == Some(password) ==>
        && (users[found.value].status == Inactive ==> r == Err(AccountInactive))
        && (users[found.value].status == Blocked ==> r == Err(AccountBlocked))
        && (users[found.value].status == UserStatus.Pending ==> r == Err(AccountPending))
    ensures r != Err(MaintenanceMode)
  {
    match LookupByUsername(users, username)
    case None => Err(InvalidCredentials)
    case Some(i) =>
      var u := users[i];
      if u.password != Some(password) then Err(InvalidCredentials)
      else match u.status
        case Active => Ok(u)
        case Inactive => Err(AccountInactive)
        case Blocked => Err(AccountBlocked)
        case Pending => Err(AccountPending)
  }

  /** The application's gate: during maintenance only administrators stay signed in. */
  function Gate(settings: AppSettings, user: User): (r: Option<User>)
    ensures r.Some? ==> r.value == user
    ensures r.None? <==> settings.maintenanceMode && user.role != AdminRole
  {
    if settings.maintenanceMode && user.role != AdminRole then None else Some(user)
  }

  /** A whole attempt: the page's decision, then the gate for an accepted user. */
  function SignIn(users: seq<User>, settings: AppSettings, username: string, password: string): (r: Result<User, LoginError>)
    ensures r.Ok? <==> Authenticate(users, username, password).Ok?
                       && (!settings.maintenanceMode || Authenticate(users, username, password).value.role == AdminRole)
    ensures r.Ok? ==> r == Authenticate(users, username, password)
    ensures Authenticate(users, username, password).Err? ==> r == Authenticate(users, username, password)
    ensures r == Err(MaintenanceMode) <==>
              && Authenticate(users, username, password).Ok?
              && settings.maintenanceMode
              && Authenticate(users, username, password).value.role != AdminRole
  {
    match Authenticate(users, username, password)
    case Err(e) => Err(e)
    case Ok(u) => if Gate(settings, u).None? then Err(MaintenanceMode) else Ok(u)
  }

  // ----- Properties -----

  /** Usernames that agree up to letter case sign in to the same account with the same outcome. */
  lemma CaseInsensitiveLookup(users: seq<User>, a: string, b: string, password: string)
    requires Lower(a) == Lower(b)
    ensures LookupByUsername(users, a) == LookupByUsername(users, b)
    ensures Authenticate(users, a, password) == Authenticate(users, b, password)
  {
    FirstIndexCongruent(users, (u: User) => NameMatches(u, a), (u: User) => NameMatches(u, b));
  }

  /** Typing a username in any letter case reaches the account it names. */
  lemma StoredNameInAnyCase(users: seq<User>, username: string, password: string)
    ensures Authenticate(users, Lower(username), password) == Authenticate(users, username, password)
  {
    LowerIdempotent(username);
    CaseInsensitiveLookup(users, Lower(username), username, password);
  }

  /** An account without a stored password is never let in, whatever is typed. */
  lemma NoPasswordNoLogin(users: seq<User>, i: nat, password: string)
    requires i < |users| && users[i].password == None
    requires forall j :: 0 <= j < i ==> !NameMatches(users[j], users[i].username)
    ensures Authenticate(users, users[i].username, password) == Err(InvalidCredentials)
  {
    assert NameMatches(users[i], users[i].username);
    var found := LookupByUsername(users, users[i].username);
    assert found == Some(i);
  }

  /** The lookup lands on `i` when user `i` matches and no earlier one does. */
  lemma LookupAt(users: seq<User>, username: string, i: nat)
    requires i < |users| && NameMatches(users[i], username)
    requires forall j :: 0 <= j < i ==> !NameMatches(users[j], username)
    ensures LookupByUsername(users, username) == Some(i)
  {
  }

  /** A whole attempt whose lookup lands on `i`: the password, then the status, then the gate. */
  lemma SignInAt(users: seq<User>, settings: AppSettings, username: string, password: string, i: nat)
    requires i < |users| && NameMatches(users[i], username)
    requires forall j :: 0 <= j < i ==> !NameMatches(users[j], username)
    ensures users[i].password != Some(password) ==> SignIn(users, settings, username, password) == Err(InvalidCredentials)
    ensures users[i].password == Some(password) && users[i].status == Inactive ==>
              SignIn(users, settings, username, password) == Err(AccountInactive)
    ensures users[i].password == Some(password) && users[i].status == Blocked ==>
              SignIn(users, settings, username, password) == Err(AccountBlocked)
    ensures users[i].password == Some(password) && users[i].status == UserStatus.Pending ==>
              SignIn(users, settings, username, password) == Err(AccountPending)
    ensures users[i].password == Some(password) && users[i].status == Active ==>
              SignIn(users, settings, username, password) ==
                (if settings.maintenanceMode && users[i].role != AdminRole then Err(MaintenanceMode) else Ok(users[i]))
  {
    LookupAt(users, username, i);
  }

  /** With maintenance on, the seeded administrator still signs in. */
  lemma SeedAdminDuringMaintenance()
    ensures SignIn(Seed.InitialUsers(), Seed.InitialSettings().(maintenanceMode := true), "admin", "admin")
              == Ok(Seed.InitialUsers()[3])
  {
    assert Lower("admin") == "admin";
    SignInAt(Seed.InitialUsers(), Seed.InitialSettings().(maintenanceMode := true), "admin", "admin", 3);
  }

  /**
   * The seeded Active user, typing the right password in another letter case of
   * the name, signs in normally but is turned away during maintenance.
   */
  lemma SeedUserDuringMaintenance()
    ensures SignIn(Seed.InitialUsers(), Seed.InitialSettings(), "JohnDoe", "johndoe") == Ok(Seed.InitialUsers()[0])
    ensures SignIn(Seed.InitialUsers(), Seed.InitialSettings().(maintenanceMode := true), "JohnDoe", "johndoe")
              == Err(MaintenanceMode)
  {
    assert Lower("JohnDoe") == "johndoe";
    SignInAt(Seed.InitialUsers(), Seed.InitialSettings(), "JohnDoe", "johndoe", 0);
    SignInAt(Seed.InitialUsers(), Seed.InitialSettings().(maintenanceMode := true), "JohnDoe", "johndoe", 0);
  }

  /** The seeded Inactive account is refused with its own error, even with the right password. */
  lemma SeedInactiveRefused()
    ensures SignIn(Seed.InitialUsers(), Seed.InitialSettings(), "mikej", "mikej") == Err(AccountInactive)
  {
    assert Lower("mikej") == "mikej";
    SignInAt(Seed.InitialUsers(), Seed.InitialSettings(), "mikej", "mikej", 2);
  }

  /** The seeded Pending account is refused with its own error, even with the right password. */
  lemma SeedPendingRefused()
    ensures SignIn(Seed.InitialUsers(), Seed.InitialSettings(), "emilyb", "emilyb") == Err(AccountPending)
  {
    assert Lower("emilyb") == "emilyb";
    SignInAt(Seed.InitialUsers(), Seed.InitialSettings(), "emilyb", "emilyb", 4);
  }

  /** The seeded Blocked account is refused with its own error; a wrong password is refused first. */
  lemma SeedBlockedRefused()
    ensures SignIn(Seed.InitialUsers(), Seed.InitialSettings(), "samw", "samw") == Err(AccountBlocked)
    ensures SignIn(Seed.InitialUsers(), Seed.InitialSettings(), "samw", "Samw") == Err(InvalidCredentials)
  {
    assert Lower("samw") == "samw";
    SignInAt(Seed.InitialUsers(), Seed.InitialSettings(), "samw", "samw", 5);
    SignInAt(Seed.InitialUsers(), Seed.InitialSettings(), "samw", "Samw", 5);
  }
}
