/**
 What each call does to the record of the user it names, as one sequential step.
 The methods of `Driver` and `Identity` are proved to take exactly these steps; the
 properties are proved about runs of them.
 */
module Steps {
  import opened Model

  // ----- The `black` flag is kept as the text of a Python boolean -----

  function Str(b: bool): string { if b then "True" else "False" }

  /** Python's `eval` on the texts `Str` produces; None stands for any other text. */
  function Eval(s: string): Option<bool> {
    if s == "True" then Some(true) else if s == "False" then Some(false) else None
  }

  function Black(extra: map<string, string>): Option<bool> {
    if "black" in extra then Eval(extra["black"]) else Some(false)
  }

  // ----- Login -----

  /** A row for a user the table does not know yet. */
  function NewRecord(user: DirUser, creation: Time, attempts: int, last: Option<Time>): Record {
    Record(user.name, user.domainId, Some(creation), attempts, last, map[],
           false, None, None, None, false, None)
  }

  datatype Verdict = Pass | Fail | Crash

  /** The lockout gate. */
  function LockoutGate(cfg: Config, u: UserId, r: Option<Record>, now: Time): Verdict {
    if cfg.enabled && u !in cfg.pwdUserBlacklist && r.Some? && r.value.loginAttempts > cfg.pwdMaxTries then
      match r.value.lastLoginAttemptTime
      case None => Crash
      case Some(last) => if last > now - cfg.Block() then Fail else Pass
    else
      Pass
  }

  /** The expiry gate at the head of `_check_password`. */
  function ExpiryGate(cfg: Config, u: UserId, r: Option<Record>, now: Time): Verdict {
    if cfg.enabled && r.Some? && u !in cfg.pwdUserBlacklist then
      match Black(r.value.extra)
      case None => Crash
      case Some(true) => Pass
      case Some(false) =>
        match r.value.creationTime
        case None => Crash
        case Some(creation) => if creation < now - cfg.Expiry() then Fail else Pass
    else
      Pass
  }

  datatype BaseResult = Right | Wrong | Stopped(out: LoginOut)

  /** Keystone's `authenticate` around the overridden `_check_password`. */
  function BaseAuthenticate(cfg: Config, u: UserId, r: Option<Record>, env: LoginEnv): BaseResult {
    match env.base
    case UnknownUser => Wrong
    case RaisesBefore => Stopped(BaseRaised)
    case PasswordChecked(matches, raisesAfter) =>
      match ExpiryGate(cfg, u, r, env.expiry)
      case Crash => Stopped(Crashed)
      case Fail => Stopped(Expired)
      case Pass =>
        if !matches then Wrong else if raisesAfter then Stopped(BaseRaised) else Right
  }

  /** A stored time lies strictly less than `window` before `now`. */
  predicate Recent(stored: Option<Time>, now: Time, window: int) {
    stored.Some? && stored.value > now - window
  }

  function IssueCode(row: Record, code: string, t: Time): Record {
    if row.sndfa && row.sndfaEmail then row.(sndfaCode := Some(code), sndfaTimeCode := Some(t)) else row
  }

  function RecordAttempt(row: Record, attempts: int, t: Time): Record {
    row.(loginAttempts := attempts, lastLoginAttemptTime := Some(t))
  }

  function SuccessExtras(cfg: Config, u: UserId, row: Record): Extras
    requires row.creationTime.Some?
  {
    Extras(row.creationTime.value, row.creationTime.value + cfg.Expiry(), u in cfg.pwdUserBlacklist,
           row.lastLoginAttemptTime, row.loginAttempts,
           if cfg.sndfa then Some(row.sndfaEmail) else None,
           if cfg.sndfa && row.sndfa then Some(row.sndfa) else None)
  }

  predicate NeedsCode(cfg: Config, row: Record, env: LoginEnv) {
    cfg.sndfa && row.sndfa && row.sndfaEmail && !Recent(row.sndfaLast, env.lastCheck, cfg.Window())
  }

  predicate Reissues(cfg: Config, row: Record, env: LoginEnv) {
    NeedsCode(cfg, row, env) && !Recent(row.sndfaTimeCode, env.codeCheck, cfg.Window())
  }

  /** The row once the code this login needs is stored. */
  function HeldRow(cfg: Config, row: Record, env: LoginEnv): Record {
    if Reissues(cfg, row, env) && env.user.Some? then IssueCode(row, env.freshCode, env.issue) else row
  }

  /** Where the second factor leaves a correct password. A lost call ends by an
      exception before the attempt is recorded. */
  datatype Factor = Accepted | Rejected(error: LoginOut) | Lost(error: LoginOut)

  function SecondFactor(cfg: Config, row: Record, env: LoginEnv): Factor {
    if !cfg.sndfa || !row.sndfa then Accepted
    else if !row.sndfaEmail then Rejected(EmailUnverified)
    else if !NeedsCode(cfg, row, env) then Accepted
    else if env.user.None? then Lost(UserNotFound)
    else if env.user.value.email.None? then Lost(NoEmail)
    else
      var code := if Reissues(cfg, row, env) then Some(env.freshCode) else row.sndfaCode;
      if env.mail.MailRaises? then Lost(MailRaised(code)) else Rejected(Challenge(code))
  }

  /** The correct password for a registered user. */
  function RightPassword(cfg: Config, u: UserId, row: Record, env: LoginEnv): (Record, LoginOut)
    requires row.creationTime.Some?
  {
    var held := HeldRow(cfg, row, env);
    match SecondFactor(cfg, row, env)
    case Accepted => (RecordAttempt(held, 0, env.attempt), Success(Some(SuccessExtras(cfg, u, row))))
    case Rejected(error) => (RecordAttempt(held, 0, env.attempt), error)
    case Lost(error) => (held, error)
  }

  /** The first login of a user without a record registers the user. */
  function FirstLogin(cfg: Config, u: UserId, right: bool, env: LoginEnv): (Option<Record>, LoginOut) {
    if env.user.None? then (None, UserNotFound)
    else
      var row := NewRecord(env.user.value, env.attempt, if right then 0 else 1, Some(env.attempt));
      (Some(row),
       if right then
         Success(Some(Extras(env.attempt, env.attempt + cfg.Expiry(), u in cfg.pwdUserBlacklist, None, 0,
                             Some(false), Some(false))))
       else BadPassword)
  }

  function LoginStep(cfg: Config, u: UserId, r: Option<Record>, env: LoginEnv): (Option<Record>, LoginOut) {
    match LockoutGate(cfg, u, r, env.gate)
    case Crash => (r, Crashed)
    case Fail => (r, Blocked)
    case Pass =>
      match BaseAuthenticate(cfg, u, r, env)
      case Stopped(out) => (r, out)
      case Right => Evaluated(cfg, u, r, true, env)
      case Wrong => Evaluated(cfg, u, r, false, env)
  }

  /** The part of `authenticate` after Keystone has answered right or wrong. */
  function Evaluated(cfg: Config, u: UserId, r: Option<Record>, right: bool, env: LoginEnv)
      : (Option<Record>, LoginOut) {
    if !cfg.enabled then (r, if right then Success(None) else BadPassword)
    else if r.None? then FirstLogin(cfg, u, right, env)
    else if r.value.creationTime.None? then (r, Crashed)
    else if !right then (Some(RecordAttempt(r.value, r.value.loginAttempts + 1, env.attempt)), BadPassword)
    else
      var (row, out) := RightPassword(cfg, u, r.value, env);
      (Some(row), out)
  }

  // ----- Every call -----

  /** The record after the call. */
  function Next(cfg: Config, u: UserId, r: Option<Record>, e: Event): Option<Record> {
    match e
    case Login(env) => LoginStep(cfg, u, r, env).0
    case SetUserCreationTime(user, t) => Some(Touched(r, user, t))
    case UpdateUserModificationTime(user, t) => Some(Touched(r, user, t))
    case RemoveUser => None
    case ModifySndfa(enable) =>
      if r.Some? && r.value.sndfaEmail then Some(r.value.(sndfa := enable)) else r
    case ModifyBlack(enable) =>
      if r.Some? then Some(r.value.(extra := map["black" := Str(enable)])) else r
    case CheckSndfaCode(code, t) =>
      if AcceptsSndfaCode(r, code) then Some(r.value.(sndfaLast := Some(t))) else r
    case SetCheckEmailCode(code) =>
      if r.Some? then Some(r.value.(sndfaEmailCode := Some(code), sndfaEmail := false)) else r
    case CheckEmailCode(code) =>
      if HasEmailCode(r) then Some(r.value.(sndfaEmail := r.value.sndfaEmailCode == Some(code))) else r
  }

  /** A user event starts the password's life again and clears the counter. */
  function Touched(r: Option<Record>, user: DirUser, t: Time): Record {
    match r
    case None => NewRecord(user, t, 0, None)
    case Some(row) => row.(creationTime := Some(t), loginAttempts := 0)
  }

  predicate AcceptsSndfaCode(r: Option<Record>, code: string) {
    r.Some? && r.value.sndfa && r.value.sndfaEmail && r.value.sndfaCode == Some(code)
  }

  /** The truth value of the e-mail code: None and "" are false. */
  predicate HasEmailCode(r: Option<Record>) {
    r.Some? && r.value.sndfaEmailCode.Some? && r.value.sndfaEmailCode.value != ""
  }

  /** What the caller is told. */
  function Answer(cfg: Config, u: UserId, r: Option<Record>, e: Event): Reply {
    match e
    case Login(env) => LoginReply(LoginStep(cfg, u, r, env).1)
    case SetUserCreationTime(_, _) => Done
    case UpdateUserModificationTime(_, _) => Done
    case RemoveUser => Done
    case ModifySndfa(_) => Flag(r.Some? && r.value.sndfaEmail)
    case ModifyBlack(_) => Flag(r.Some?)
    case CheckSndfaCode(code, _) => Flag(AcceptsSndfaCode(r, code))
    case SetCheckEmailCode(_) => Done
    case CheckEmailCode(code) => Flag(HasEmailCode(r) && r.value.sndfaEmailCode == Some(code))
  }

  /** `get_pwd_expiration`. */
  function PwdExpiration(cfg: Config, r: Option<Record>): Expiration {
    if r.None? then NoRecord
    else if r.value.creationTime.None? then NoDate
    else ExpiresAt(r.value.creationTime.value + cfg.Expiry())
  }

  function TableStep(cfg: Config, rows: Table, u: UserId, e: Event): Table {
    Put(rows, u, Next(cfg, u, Lookup(rows, u), e))
  }
}
