/**
 The notification callbacks of the manager and the request handlers, as ordered
 calls on the driver with early exits.
 */
module Resources {
  import opened Model
  import opened Steps
  import opened Runs
  import opened Store
  import opened Driver
  import opened Workflows

  lemma OneCall(cfg: Config, rows: Table, u: UserId, call: ApiCall, e: Event)
    requires Events(cfg, Lookup(rows, u), call) == [e]
    ensures ApiTable(cfg, rows, u, call) == TableStep(cfg, rows, u, e)
  {
    ShortRuns(cfg, u, Lookup(rows, u), e, e);
  }

  lemma NoCall(cfg: Config, rows: Table, u: UserId, call: ApiCall)
    requires Events(cfg, Lookup(rows, u), call) == []
    ensures ApiTable(cfg, rows, u, call) == rows
  {
    assert Put(rows, u, Lookup(rows, u)) == rows;
  }

  lemma TwoCalls(cfg: Config, rows: Table, u: UserId, call: ApiCall, a: Event, b: Event)
    requires Events(cfg, Lookup(rows, u), call) == [a, b]
    ensures ApiTable(cfg, rows, u, call) == TableStep(cfg, TableStep(cfg, rows, u, a), u, b)
  {
    var r := Lookup(rows, u);
    ShortRuns(cfg, u, r, a, b);
    PutTwice(rows, u, Next(cfg, u, r, a), Next(cfg, u, Next(cfg, u, r, a), b));
  }

  lemma PutTwice(rows: Table, u: UserId, x: Option<Record>, y: Option<Record>)
    ensures Lookup(Put(rows, u, x), u) == x
    ensures Put(Put(rows, u, x), u, y) == Put(rows, u, y)
  {
  }

  class SPasswordManager {
    const cfg: Config
    const db: Database
    const driver: SPassword

    constructor (cfg: Config, db: Database, driver: SPassword)
      requires driver.cfg == cfg && driver.db == db
      ensures Valid() && this.cfg == cfg && this.db == db
    {
      this.cfg, this.db, this.driver := cfg, db, driver;
    }

    ghost predicate Valid() {
      driver.cfg == cfg && driver.db == db
    }

    method UserUpdatedCallback(userId: UserId, user: Option<DirUser>, now: Time) returns (res: ApiResult)
      requires Valid()
      modifies db
      ensures db.rows == ApiTable(cfg, old(db.rows), userId, UserUpdated(user, now))
      ensures res == Result(cfg, userId, Lookup(old(db.rows), userId), UserUpdated(user, now))
    {
      ghost var call := UserUpdated(user, now);
      if user.None? {
        NoCall(cfg, db.rows, userId, call);
        return NotFound;
      }
      if cfg.enabled {
        OneCall(cfg, db.rows, userId, call, UpdateUserModificationTime(user.value, now));
        driver.UpdateUserModificationTime(userId, user.value, now);
      } else {
        NoCall(cfg, db.rows, userId, call);
      }
      return Ok;
    }

    method UserCreatedCallback(userId: UserId, user: Option<DirUser>, now: Time) returns (res: ApiResult)
      requires Valid()
      modifies db
      ensures db.rows == ApiTable(cfg, old(db.rows), userId, UserCreated(user, now))
      ensures res == Result(cfg, userId, Lookup(old(db.rows), userId), UserCreated(user, now))
    {
      ghost var call := UserCreated(user, now);
      if user.None? {
        NoCall(cfg, db.rows, userId, call);
        return NotFound;
      }
      if cfg.enabled {
        OneCall(cfg, db.rows, userId, call, SetUserCreationTime(user.value, now));
        driver.SetUserCreationTime(userId, user.value, now);
      } else {
        NoCall(cfg, db.rows, userId, call);
      }
      return Ok;
    }

    method UserDeletedCallback(userId: UserId)
      requires Valid()
      modifies db
      ensures db.rows == ApiTable(cfg, old(db.rows), userId, UserDeleted)
    {
      if cfg.enabled {
        OneCall(cfg, db.rows, userId, UserDeleted, RemoveUser);
        driver.RemoveUser(userId);
      } else {
        NoCall(cfg, db.rows, userId, UserDeleted);
      }
    }

    /** `code` is the code the method generates. */
    method UserAskCheckEmailCode(userId: UserId, code: string) returns (answer: string)
      requires Valid()
      modifies db
      ensures db.rows == TableStep(cfg, old(db.rows), userId, SetCheckEmailCode(code))
      ensures answer == code
    {
      var _ := driver.AlreadyEmailChecked(userId);
      driver.SetCheckEmailCode(userId, code);
      return code;
    }
  }

  class SPasswordResource {
    const cfg: Config
    const db: Database
    const manager: SPasswordManager

    constructor (cfg: Config, db: Database, manager: SPasswordManager)
      requires manager.cfg == cfg && manager.db == db && manager.Valid()
      ensures Valid() && this.cfg == cfg && this.db == db
    {
      this.cfg, this.db, this.manager := cfg, db, manager;
    }

    ghost predicate Valid() {
      manager.Valid() && manager.cfg == cfg && manager.db == db
    }

    /** The guards most handlers start with, in their order; None lets the call pass. */
    method Guards(userId: UserId, user: Option<DirUser>, configured: bool, email: bool, verified: bool)
        returns (refusal: Option<ApiResult>)
      requires Valid()
      ensures refusal == if configured && !Configured(cfg) then Some(NotConfigured)
                         else if user.None? then Some(NotFound)
                         else if (email && !HasEmail(user)) || (verified && !EmailChecked(Lookup(db.rows, userId)))
                         then Some(Unauthorized)
                         else None
    {
      if configured && (!cfg.enabled || !cfg.sndfa) {
        return Some(NotConfigured);
      }
      if user.None? {
        return Some(NotFound);
      }
      if email && user.value.email.None? {
        return Some(Unauthorized);
      }
      if verified {
        var checked := manager.driver.AlreadyEmailChecked(userId);
        if !checked {
          return Some(Unauthorized);
        }
      }
      return None;
    }

    method RecoverPassword(userId: UserId, user: Option<DirUser>, code: string, mail: MailOutcome)
        returns (res: ApiResult)
      requires Valid()
      modifies db
      ensures db.rows == ApiTable(cfg, old(db.rows), userId, Recover(user, code, mail))
      ensures res == Result(cfg, userId, Lookup(old(db.rows), userId), Recover(user, code, mail))
    {
      ghost var call := Recover(user, code, mail);
      var refusal := Guards(userId, user, true, true, true);
      if refusal.Some? {
        NoCall(cfg, db.rows, userId, call);
        return refusal.value;
      }
      TwoCalls(cfg, db.rows, userId, call, SetCheckEmailCode(code), Event.CheckEmailCode(code));
      var asked := manager.UserAskCheckEmailCode(userId, code);
      var _ := manager.driver.CheckEmailCode(userId, asked);
      return Mail(mail);
    }

    method ResetPassword(userId: UserId, user: Option<DirUser>, code: string, update: UpdateOutcome, now: Time,
                         mail: MailOutcome) returns (res: ApiResult)
      requires Valid()
      modifies db
      ensures db.rows == ApiTable(cfg, old(db.rows), userId, Reset(user, code, update, now, mail))
      ensures res == Result(cfg, userId, Lookup(old(db.rows), userId), Reset(user, code, update, now, mail))
    {
      ghost var call, before := Reset(user, code, update, now, mail), db.rows;
      if user.None? {
        NoCall(cfg, before, userId, call);
        return NotFound;
      }
      var valid := manager.driver.CheckEmailCode(userId, code);
      if !valid || !update.UpdateOk? || !cfg.enabled {
        OneCall(cfg, before, userId, call, Event.CheckEmailCode(code));
      } else {
        TwoCalls(cfg, before, userId, call, Event.CheckEmailCode(code), UpdateUserModificationTime(user.value, now));
      }
      if !valid {
        return Unauthorized;
      }
      match update {
        case UpdateAssertion => return Unauthorized;
        case UpdateRaises => return Failed;
        case UpdateOk =>
      }
      if cfg.enabled {
        manager.driver.UpdateUserModificationTime(userId, user.value, now);
      }
      if user.value.email.None? || mail.MailRaises? {
        return Failed;
      }
      return Ok;
    }

    method ModifySndfa(userId: UserId, user: Option<DirUser>, body: Body) returns (res: ApiResult)
      requires Valid()
      modifies db
      ensures db.rows == ApiTable(cfg, old(db.rows), userId, SetSndfa(user, body))
      ensures res == Result(cfg, userId, Lookup(old(db.rows), userId), SetSndfa(user, body))
    {
      ghost var call := SetSndfa(user, body);
      var refusal := Guards(userId, user, true, true, true);
      if refusal.Some? || Enable(body).None? {
        NoCall(cfg, db.rows, userId, call);
        return if refusal.Some? then refusal.value else Invalid;
      }
      OneCall(cfg, db.rows, userId, call, Event.ModifySndfa(Enable(body).value));
      var modified := manager.driver.ModifySndfa(userId, Enable(body).value);
      return Modified(modified);
    }

    method CheckSndfaCode(userId: UserId, user: Option<DirUser>, code: string, now: Time) returns (res: ApiResult)
      requires Valid()
      modifies db
      ensures db.rows == ApiTable(cfg, old(db.rows), userId, CheckSndfa(user, code, now))
      ensures res == Result(cfg, userId, Lookup(old(db.rows), userId), CheckSndfa(user, code, now))
    {
      ghost var call := CheckSndfa(user, code, now);
      var refusal := Guards(userId, user, true, false, true);
      if refusal.Some? {
        NoCall(cfg, db.rows, userId, call);
        return refusal.value;
      }
      OneCall(cfg, db.rows, userId, call, Event.CheckSndfaCode(code, now));
      var valid := manager.driver.CheckSndfaCode(userId, code, now);
      return if valid then Ok else Unauthorized;
    }

    method AskForCheckEmailCode(userId: UserId, user: Option<DirUser>, code: string, mail: MailOutcome)
        returns (res: ApiResult)
      requires Valid()
      modifies db
      ensures db.rows == ApiTable(cfg, old(db.rows), userId, AskCheckEmail(user, code, mail))
      ensures res == Result(cfg, userId, Lookup(old(db.rows), userId), AskCheckEmail(user, code, mail))
    {
      ghost var call := AskCheckEmail(user, code, mail);
      var refusal := Guards(userId, user, false, true, false);
      if refusal.Some? {
        NoCall(cfg, db.rows, userId, call);
        return refusal.value;
      }
      OneCall(cfg, db.rows, userId, call, SetCheckEmailCode(code));
      var _ := manager.UserAskCheckEmailCode(userId, code);
      return Mail(mail);
    }

    method CheckEmailCode(userId: UserId, user: Option<DirUser>, code: string) returns (res: ApiResult)
      requires Valid()
      modifies db
      ensures db.rows == ApiTable(cfg, old(db.rows), userId, CheckEmail(user, code))
      ensures res == Result(cfg, userId, Lookup(old(db.rows), userId), CheckEmail(user, code))
    {
      ghost var call := CheckEmail(user, code);
      var refusal := Guards(userId, user, false, true, false);
      if refusal.Some? {
        NoCall(cfg, db.rows, userId, call);
        return refusal.value;
      }
      OneCall(cfg, db.rows, userId, call, Event.CheckEmailCode(code));
      var valid := manager.driver.CheckEmailCode(userId, code);
      return if valid then Ok else Unauthorized;
    }

    method ModifyBlack(userId: UserId, user: Option<DirUser>, body: Body) returns (res: ApiResult)
      requires Valid()
      modifies db
      ensures db.rows == ApiTable(cfg, old(db.rows), userId, SetBlack(user, body))
      ensures res == Result(cfg, userId, Lookup(old(db.rows), userId), SetBlack(user, body))
    {
      ghost var call := SetBlack(user, body);
      var refusal := Guards(userId, user, true, false, false);
      if refusal.Some? || Enable(body).None? {
        NoCall(cfg, db.rows, userId, call);
        return if refusal.Some? then refusal.value else Invalid;
      }
      OneCall(cfg, db.rows, userId, call, Event.ModifyBlack(Enable(body).value));
      var modified := manager.driver.ModifyBlack(userId, Enable(body).value);
      return Modified(modified);
    }

    /** `None` in the pair stands for the exception `eval` would raise. */
    method GetBlack(userId: UserId, user: Option<DirUser>)
        returns (refusal: Option<ApiResult>, black: Option<bool>, expiration: Expiration)
      requires Valid()
      ensures refusal == if user.None? then Some(NotFound) else None
      ensures user.Some? ==> expiration == PwdExpiration(cfg, Lookup(db.rows, userId))
      ensures user.Some? ==>
                black == if userId in db.rows then Black(db.rows[userId].extra) else Some(false)
    {
      refusal, black, expiration := None, None, NoRecord;
      if user.None? {
        refusal := Some(NotFound);
      } else {
        black := manager.driver.GetBlack(userId);
        expiration := manager.driver.GetPwdExpiration(userId);
      }
    }
  }
}
