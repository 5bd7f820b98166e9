/**
 The values the strong-password extension works on: its configuration, one row of
 the `spassword` table, what each call is given from outside (clock reads, the
 outcome of Keystone's own password check, the directory entry, the mail server)
 and what each call answers.
 */
module Model {

  datatype Option<+T> = None | Some(value: T)

  type UserId = string

  /** Microseconds, the resolution of Python's datetime. */
  type Time = int

  const MINUTE: int := 60_000_000
  const HOUR: int := 60 * MINUTE
  const DAY: int := 24 * HOUR

  datatype Config = Config(
    enabled: bool,
    pwdExpDays: int,
    pwdMaxTries: int,
    pwdBlockMinutes: int,
    pwdUserBlacklist: seq<UserId>,
    sndfa: bool,
    sndfaTimeWindow: int)
  {
    function Expiry(): int { pwdExpDays * DAY }

    function Block(): int { pwdBlockMinutes * MINUTE }

    function Window(): int { sndfaTimeWindow * HOUR }
  }

  /** One row of `spassword`; a nullable column is an Option. */
  datatype Record = Record(
    userName: string,
    domainId: string,
    creationTime: Option<Time>,
    loginAttempts: int,
    lastLoginAttemptTime: Option<Time>,
    extra: map<string, string>,
    sndfa: bool,
    sndfaLast: Option<Time>,
    sndfaCode: Option<string>,
    sndfaTimeCode: Option<Time>,
    sndfaEmail: bool,
    sndfaEmailCode: Option<string>)

  type Table = map<UserId, Record>

  /** A Keystone user as `get_user` returns it; `email` is an optional key. */
  datatype DirUser = DirUser(name: string, domainId: string, email: Option<string>)

  /** Keystone's own `authenticate`, seen as the caller of `_check_password`; a match
      may still be followed by an exception. */
  datatype Base =
    | UnknownUser                                        // AssertionError before the password is looked at
    | RaisesBefore                                       // another exception before the password is looked at
    | PasswordChecked(matches: bool, raisesAfter: bool)  // `_check_password` runs

  datatype MailOutcome = MailSent | MailRefused | MailRaises

  /** Everything one `authenticate` call reads from outside. The six times are the
      separate clock reads of the call, in program order. */
  datatype LoginEnv = LoginEnv(
    gate: Time,
    expiry: Time,
    attempt: Time,
    lastCheck: Time,
    codeCheck: Time,
    issue: Time,
    base: Base,
    user: Option<DirUser>,
    freshCode: string,
    mail: MailOutcome)

  datatype Extras = Extras(
    passwordCreationTime: Time,
    passwordExpirationTime: Time,
    pwdUserInBlacklist: bool,
    lastLoginAttemptTime: Option<Time>,
    previousLoginAttempts: int,
    sndfaEmail: Option<bool>,
    sndfa: Option<bool>)

  /** How `authenticate` ends. */
  datatype LoginOut =
    | Success(extras: Option<Extras>)
    | BadPassword
    | Blocked
    | Expired
    | Challenge(code: Option<string>)
    | EmailUnverified
    | MailRaised(code: Option<string>)   // the mail server failed after it was handed `code`
    | NoEmail                            // the directory entry has no e-mail key
    | UserNotFound
    | BaseRaised
    | Crashed                            // None reached a date operation, or `eval` failed

  /** One call that may change a user's record. */
  datatype Event =
    | Login(env: LoginEnv)
    | SetUserCreationTime(user: DirUser, t: Time)
    | UpdateUserModificationTime(user: DirUser, t: Time)
    | RemoveUser
    | ModifySndfa(enable: bool)
    | ModifyBlack(enable: bool)
    | CheckSndfaCode(code: string, t: Time)
    | SetCheckEmailCode(code: string)
    | CheckEmailCode(code: string)

  datatype Reply = LoginReply(out: LoginOut) | Flag(value: bool) | Done

  /** What `get_pwd_expiration` answers: 0 without a record, and an exception if the
      record had no creation time. */
  datatype Expiration = NoRecord | ExpiresAt(t: Time) | NoDate

  function Lookup(rows: Table, u: UserId): Option<Record> {
    if u in rows then Some(rows[u]) else None
  }

  function Put(rows: Table, u: UserId, r: Option<Record>): Table {
    match r
    case None => rows - {u}
    case Some(row) => rows[u := row]
  }
}
