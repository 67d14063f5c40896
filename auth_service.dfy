/** The authentication service of src/lib/auth/service.ts: `registerUser`, which
    inserts into the users table, and `loginUser`, which only reads it. Both
    validate first and return the `{success, message, user?}` envelope; every
    error they can meet is caught and turned into a failed envelope. */
module AuthService {
  import opened AuthTypes
  import opened Bcrypt
  import opened Validation
  import opened UserStore

  const InvalidInputPrefix := "Invalid input: "
  const RegisteredMessage := "User registered successfully"
  const DuplicateEmailMessage := "Email already registered"
  const InsertFailedMessage := "Failed to register user"
  const RegistrationFailedMessage := "Registration failed"
  const LoginSucceededMessage := "Login successful"
  const InvalidCredentialsMessage := "Invalid credentials"
  const LoginFailedMessage := "Login failed"

  /** What `registerUser` answers and what the table holds afterwards, for a given
      salt (from `genSalt`), insertion time (the column defaults) and fault (an
      error thrown by the hashing library or the database before the insert). */
  function Register(s: Store, c: UserCredentials, salt: Salt, now: string, fault: Option<Fault>): (res: (AuthResponse, Store))
    requires StoreValid(s)
    ensures StoreValid(res.1)
    ensures WellFormed(res.0)
    ensures !res.0.success ==> res.1 == s
    ensures FirstViolation(c).Some? ==> res.0 == Failure(InvalidInputPrefix + FirstViolation(c).value)
    ensures FirstViolation(c).None? && fault.Some? ==> res.0 == Failure(CaughtMessage(fault.value, RegistrationFailedMessage))
    ensures FirstViolation(c).None? && fault.None? && c.email in s.rows ==> res.0 == Failure(DuplicateEmailMessage)
    ensures res.0.success <==> FirstViolation(c).None? && fault.None? && c.email !in s.rows
    ensures res.0.success ==>
      && res.1 == Inserted(s, c.email, Hash(c.password, salt), now)
      && res.0.message == RegisteredMessage
      && res.0.user == Some(User(s.nextId, c.email, now, now))
  {
    match FirstViolation(c)
    case Some(violation) => (Failure(InvalidInputPrefix + violation), s)
    case None =>
      if fault.Some? then (Failure(CaughtMessage(fault.value, RegistrationFailedMessage)), s)
      else
        var (run, t) := InsertRow(s, c.email, Hash(c.password, salt), now);
        match run
        case UniqueViolation => (Failure(DuplicateEmailMessage), s)
        case Changed(changes, rowid) =>
          if changes == 1 then
            match SelectById(t, rowid)
            case Some(row) => (AuthResponse(true, RegisteredMessage, Some(StripHash(row))), t)
            case None => (AuthResponse(true, RegisteredMessage, None), t)
          else
            (Failure(InsertFailedMessage), t)
  }

  /** `registerUser`: validates, hashes and inserts into the table in place. */
  method RegisterUser(table: UsersTable, c: UserCredentials, salt: Salt, now: string, fault: Option<Fault>)
    returns (r: AuthResponse)
    requires table.Valid()
    modifies table
    ensures table.Valid()
    ensures (r, table.Snapshot()) == Register(old(table.Snapshot()), c, salt, now, fault)
  {
    var violation := FirstViolation(c);
    if violation.Some? {
      return Failure(InvalidInputPrefix + violation.value);
    }
    if fault.Some? {
      return Failure(CaughtMessage(fault.value, RegistrationFailedMessage));
    }
    var passwordHash := Hash(c.password, salt);
    var run := table.Insert(c.email, passwordHash, now);
    match run
    case UniqueViolation =>
      r := Failure(DuplicateEmailMessage);
    case Changed(changes, rowid) =>
      if changes == 1 {
        var row := SelectById(table.Snapshot(), rowid);
        r := AuthResponse(true, RegisteredMessage, if row.Some? then Some(StripHash(row.value)) else None);
      } else {
        r := Failure(InsertFailedMessage);
      }
  }

  /** `loginUser`: validates, looks the email up and compares the password with
      the stored hash. It only reads the table. `fault` is an error thrown by the
      database or the hashing library after validation. */
  function Login(s: Store, c: UserCredentials, fault: Option<Fault>): (r: AuthResponse)
    ensures WellFormed(r)
    ensures FirstViolation(c).Some? ==> r == Failure(InvalidInputPrefix + FirstViolation(c).value)
    ensures FirstViolation(c).None? && fault.Some? ==> r == Failure(CaughtMessage(fault.value, LoginFailedMessage))
    ensures r.success <==>
      FirstViolation(c).None? && fault.None? && c.email in s.rows && Compare(c.password, s.rows[c.email].passwordHash)
    ensures r.success ==> r == AuthResponse(true, LoginSucceededMessage, Some(StripHash(s.rows[c.email])))
    ensures FirstViolation(c).None? && fault.None? && !r.success ==> r == Failure(InvalidCredentialsMessage)
  {
    match FirstViolation(c)
    case Some(violation) => Failure(InvalidInputPrefix + violation)
    case None =>
      if fault.Some? then Failure(CaughtMessage(fault.value, LoginFailedMessage))
      else if c.email !in s.rows then Failure(InvalidCredentialsMessage)
      else
        var row := s.rows[c.email];
        if !Compare(c.password, row.passwordHash) then Failure(InvalidCredentialsMessage)
        else AuthResponse(true, LoginSucceededMessage, Some(StripHash(row)))
  }

  /** The insert of a valid, new email always changes exactly one row, so the
      "Failed to register user" branch is never taken. */
  lemma InsertNeverReportsFailure(s: Store, c: UserCredentials, salt: Salt, now: string)
    requires StoreValid(s)
    ensures Register(s, c, salt, now, None).0.message != InsertFailedMessage
  {
  }

  /** A second registration of an email that registered successfully fails
      with "Email already registered" and leaves the table as it was. */
  lemma DuplicateRegistrationAddsNoRow(s: Store, c1: UserCredentials, c2: UserCredentials,
                                       salt1: Salt, salt2: Salt, now1: string, now2: string)
    requires StoreValid(s)
    requires Register(s, c1, salt1, now1, None).0.success
    requires c2.email == c1.email && FirstViolation(c2).None?
    ensures var t := Register(s, c1, salt1, now1, None).1;
            Register(t, c2, salt2, now2, None) == (Failure(DuplicateEmailMessage), t)
  {
  }

  /** Registration followed by a login with the same credentials succeeds and
      returns the user registration returned, with the same id. */
  lemma RegisterThenLogin(s: Store, c: UserCredentials, salt: Salt, now: string)
    requires StoreValid(s)
    requires Register(s, c, salt, now, None).0.success
    ensures var (reg, t) := Register(s, c, salt, now, None);
            Login(t, c, None) == AuthResponse(true, LoginSucceededMessage, reg.user)
  {
  }

  /** An unknown email and a wrong password are answered with the same envelope. */
  lemma LoginFailuresIndistinguishable(s1: Store, c1: UserCredentials, s2: Store, c2: UserCredentials)
    requires FirstViolation(c1).None? && c1.email !in s1.rows
    requires FirstViolation(c2).None? && c2.email in s2.rows && !Compare(c2.password, s2.rows[c2.email].passwordHash)
    ensures Login(s1, c1, None) == Login(s2, c2, None) == Failure(InvalidCredentialsMessage)
  {
  }
}
