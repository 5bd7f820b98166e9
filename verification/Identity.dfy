/**
 The identity backend: `_check_password` with the expiry gate and `authenticate`
 around Keystone's own. `authenticate` holds one reference to the row while
 `set_user_sndfa_code` writes the same row through another.
 */
module Identity {
  import opened Model
  import opened Steps
  import opened Store
  import opened Driver

  datatype CheckOut = Returned(matches: bool) | Raised(out: LoginOut)

  /** What `authenticate` assigns through its own reference, and what
      `set_user_sndfa_code` assigns through the other. */
  const ATTEMPT_COLUMNS: set<Column> := {LoginAttempts, LastLoginAttemptTime}
  const CODE_COLUMNS: set<Column> := {SndfaCode, SndfaTimeCode}

  /** The code stored through the second reference and the attempt committed through
      the first are both in the row at the end, in either order of the commits. */
  lemma NestedWriteSurvives(row: Record, code: string, issue: Time, attempt: Time)
    requires row.sndfa && row.sndfaEmail
    ensures var issued, recorded := IssueCode(row, code, issue), RecordAttempt(row, 0, attempt);
            var final := Merge(issued, recorded, ATTEMPT_COLUMNS);
            && final == RecordAttempt(issued, 0, attempt) == Merge(recorded, issued, CODE_COLUMNS)
            && final.sndfaCode == Some(code) && final.sndfaTimeCode == Some(issue)
            && final.loginAttempts == 0 && final.lastLoginAttemptTime == Some(attempt)
            && SameOn(final, row, {CreationTime, Extra, Sndfa, SndfaLast, SndfaEmail, SndfaEmailCode})
  {
    DisjointCommits(row, IssueCode(row, code, issue), CODE_COLUMNS, RecordAttempt(row, 0, attempt), ATTEMPT_COLUMNS);
  }

  /** Committing the attempt changes nothing else of whatever the row holds by then. */
  lemma AttemptCommits(held: Record, row: Record, attempts: int, attempt: Time)
    ensures Merge(held, RecordAttempt(row, attempts, attempt), ATTEMPT_COLUMNS)
            == RecordAttempt(held, attempts, attempt)
  {
  }

  class Identity {
    const cfg: Config
    const db: Database
    const driver: SPassword

    constructor (cfg: Config, db: Database, driver: SPassword)
      requires driver.cfg == cfg && driver.db == db
      ensures Valid() && this.cfg == cfg && this.db == db
    {
      this.cfg, this.db, this.driver := cfg, db, driver;
    }

    ghost predicate Valid() {
      driver.cfg == cfg && driver.db == db
    }

    method CheckPassword(userId: UserId, matches: bool, now: Time) returns (res: CheckOut)
      ensures res == match ExpiryGate(cfg, userId, Lookup(db.rows, userId), now)
                     case Crash => Raised(Crashed)
                     case Fail => Raised(Expired)
                     case Pass => Returned(matches)
    {
      if cfg.enabled {
        var ref := db.GetSpasswordSession(userId);
        if ref != null && userId !in cfg.pwdUserBlacklist {
          var userExtra := ref.row.extra;
          var black := false;
          if "black" in userExtra {
            var value := Eval(userExtra["black"]);
            if value.None? {
              return Raised(Crashed);
            }
            black := value.value;
          }
          if !black {
            var expirationDate := now - cfg.Expiry();
            if ref.row.creationTime.None? {
              return Raised(Crashed);
            }
            if ref.row.creationTime.value < expirationDate {
              return Raised(Expired);
            }
          }
        }
      }
      return Returned(matches);
    }

    /** Keystone's `authenticate`, as far as its outcome matters here. */
    method BaseAuthenticate(userId: UserId, env: LoginEnv) returns (res: BaseResult)
      ensures res == Steps.BaseAuthenticate(cfg, userId, Lookup(db.rows, userId), env)
    {
      match env.base {
        case UnknownUser => return Wrong;
        case RaisesBefore => return Stopped(BaseRaised);
        case PasswordChecked(matches, raisesAfter) =>
          var check := CheckPassword(userId, matches, env.expiry);
          match check {
            case Raised(out) => return Stopped(out);
            case Returned(ok) => return if !ok then Wrong else if raisesAfter then Stopped(BaseRaised) else Right;
          }
      }
    }

    /** The block check at the head of `authenticate`. */
    method CheckBlock(userId: UserId, now: Time) returns (verdict: Verdict)
      ensures verdict == LockoutGate(cfg, userId, Lookup(db.rows, userId), now)
    {
      if cfg.enabled && userId !in cfg.pwdUserBlacklist {
        var ref := db.GetSpasswordSession(userId);
        if ref != null {
          var spassword := ref.row;
          if spassword.loginAttempts > cfg.pwdMaxTries {
            if spassword.lastLoginAttemptTime.None? {
              return Crash;
            }
            if spassword.lastLoginAttemptTime.value > now - cfg.Block() {
              return Fail;
            }
          }
        }
      }
      return Pass;
    }

    /** The second factor of a correct password, given the snapshot `authenticate`
        read. Accepted and Rejected calls go on to commit the attempt; a Lost one
        leaves `authenticate` by an exception before that commit. The new code, if
        any, is committed here through a reference of its own. */
    method CheckSecondFactor(userId: UserId, spassword: Record, env: LoginEnv) returns (factor: Factor)
      requires Valid() && cfg.sndfa && spassword.sndfa
      requires userId in db.rows && db.rows[userId] == spassword
      modifies db
      ensures db.rows == old(db.rows)[userId := HeldRow(cfg, spassword, env)]
      ensures factor == SecondFactor(cfg, spassword, env)
    {
      if !spassword.sndfaEmail {
        return Rejected(EmailUnverified);
      }
      if Recent(spassword.sndfaLast, env.lastCheck, cfg.Window()) {
        return Accepted;
      }
      var code;
      if Recent(spassword.sndfaTimeCode, env.codeCheck, cfg.Window()) {
        code := spassword.sndfaCode;
      } else {
        code := Some(env.freshCode);
        if env.user.None? {
          return Lost(UserNotFound);
        }
        driver.SetUserSndfaCode(userId, env.freshCode, env.issue);
      }
      if env.user.None? {
        return Lost(UserNotFound);
      }
      if env.user.value.email.None? {
        return Lost(NoEmail);
      }
      if env.mail.MailRaises? {
        return Lost(MailRaised(code));
      }
      return Rejected(Challenge(code));
    }

    /** A login of a user who has a record, after the password was judged. */
    method RecordKnown(userId: UserId, right: bool, env: LoginEnv) returns (out: LoginOut)
      requires Valid() && cfg.enabled && userId in db.rows
      modifies db
      ensures db.rows == Put(old(db.rows), userId, Evaluated(cfg, userId, Lookup(old(db.rows), userId), right, env).0)
      ensures out == Evaluated(cfg, userId, Lookup(old(db.rows), userId), right, env).1
    {
      var ref := db.GetSpasswordSession(userId);
      var spassword := ref.row;
      if spassword.creationTime.None? {
        return Crashed;
      }
      if !right {
        out := BadPassword;
        ref.row := ref.row.(loginAttempts := ref.row.loginAttempts + 1);
      } else {
        var previousLoginAttempts := ref.row.loginAttempts;
        ref.row := ref.row.(loginAttempts := 0);
        var expirationDate := spassword.creationTime.value + cfg.Expiry();
        out := Success(Some(Extras(spassword.creationTime.value, expirationDate, userId in cfg.pwdUserBlacklist,
                                   spassword.lastLoginAttemptTime, previousLoginAttempts,
                                   if cfg.sndfa then Some(spassword.sndfaEmail) else None,
                                   if cfg.sndfa && spassword.sndfa then Some(spassword.sndfa) else None)));
      }
      ref.row := ref.row.(lastLoginAttemptTime := Some(env.attempt));
      ref.dirty := ATTEMPT_COLUMNS;
      assert ref.row == RecordAttempt(spassword, if right then 0 else spassword.loginAttempts + 1, env.attempt);
      if right && cfg.sndfa && spassword.sndfa {
        var factor := CheckSecondFactor(userId, spassword, env);
        match factor {
          case Lost(error) => return error;
          case Rejected(error) => out := error;
          case Accepted =>
        }
      }
      if right && Reissues(cfg, spassword, env) {
        NestedWriteSurvives(spassword, env.freshCode, env.issue, env.attempt);
      }
      AttemptCommits(db.rows[userId], spassword, ref.row.loginAttempts, env.attempt);
      db.Commit(ref);
    }

    /** The first login of a user without a record. */
    method RecordUnknown(userId: UserId, right: bool, env: LoginEnv) returns (out: LoginOut)
      requires userId !in db.rows
      modifies db
      ensures db.rows == Put(old(db.rows), userId, FirstLogin(cfg, userId, right, env).0)
      ensures out == FirstLogin(cfg, userId, right, env).1
    {
      if env.user.None? {
        return UserNotFound;
      }
      var attempts := 1;
      out := BadPassword;
      if right {
        attempts := 0;
        out := Success(Some(Extras(env.attempt, env.attempt + cfg.Expiry(), userId in cfg.pwdUserBlacklist,
                                   None, 0, Some(false), Some(false))));
      }
      db.Insert(userId, NewRecord(env.user.value, env.attempt, attempts, Some(env.attempt)));
    }

    /** The whole of `authenticate` is one sequential step on the row, although two
        references write it. */
    method Authenticate(userId: UserId, env: LoginEnv) returns (out: LoginOut)
      requires Valid()
      modifies db
      ensures db.rows == TableStep(cfg, old(db.rows), userId, Login(env))
      ensures LoginReply(out) == Answer(cfg, userId, Lookup(old(db.rows), userId), Login(env))
    {
      var verdict := CheckBlock(userId, env.gate);
      match verdict {
        case Crash => return Crashed;
        case Fail => return Blocked;
        case Pass =>
      }
      var base := BaseAuthenticate(userId, env);
      if base.Stopped? {
        return base.out;
      }
      if !cfg.enabled {
        return if base.Right? then Success(None) else BadPassword;
      }
      var ref := db.GetSpasswordSession(userId);
      if ref != null {
        out := RecordKnown(userId, base.Right?, env);
      } else {
        out := RecordUnknown(userId, base.Right?, env);
      }
    }
  }
}
