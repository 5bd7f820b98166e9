/**
 The SPassword driver: each method reads one reference, assigns its columns and
 commits. Its effect on the table is the step the run properties speak about.
 */
module Driver {
  import opened Model
  import opened Steps
  import opened Store

  class SPassword {
    const cfg: Config
    const db: Database

    constructor (cfg: Config, db: Database)
      ensures this.cfg == cfg && this.db == db
    {
      this.cfg, this.db := cfg, db;
    }

    method RemoveUser(userId: UserId)
      modifies db
      ensures db.rows == TableStep(cfg, old(db.rows), userId, Event.RemoveUser)
    {
      var ref := db.GetSpasswordSession(userId);
      if ref != null {
        db.Delete(ref);
      }
    }

    method SetUserCreationTime(userId: UserId, user: DirUser, now: Time)
      modifies db
      ensures db.rows == TableStep(cfg, old(db.rows), userId, Event.SetUserCreationTime(user, now))
    {
      var ref := db.GetSpasswordSession(userId);
      if ref == null {
        db.Insert(userId, NewRecord(user, now, 0, None));
      } else {
        ref.row := ref.row.(creationTime := Some(now), loginAttempts := 0);
        ref.dirty := {CreationTime, LoginAttempts};
        db.Commit(ref);
      }
    }

    method UpdateUserModificationTime(userId: UserId, user: DirUser, now: Time)
      modifies db
      ensures db.rows == TableStep(cfg, old(db.rows), userId, Event.UpdateUserModificationTime(user, now))
    {
      var ref := db.GetSpasswordSession(userId);
      if ref != null {
        ref.row := ref.row.(creationTime := Some(now), loginAttempts := 0);
        ref.dirty := {CreationTime, LoginAttempts};
        db.Commit(ref);
      } else {
        db.Insert(userId, NewRecord(user, now, 0, None));
      }
    }

    method SetUserSndfaCode(userId: UserId, newcode: string, now: Time)
      modifies db
      ensures db.rows == Put(old(db.rows), userId,
                             if userId in old(db.rows) then Some(IssueCode(old(db.rows)[userId], newcode, now))
                             else None)
      ensures userId in old(db.rows) && old(db.rows)[userId].sndfa && old(db.rows)[userId].sndfaEmail ==>
                db.rows == old(db.rows)[userId := old(db.rows)[userId].(sndfaCode := Some(newcode),
                                                                        sndfaTimeCode := Some(now))]
      ensures !(userId in old(db.rows) && old(db.rows)[userId].sndfa && old(db.rows)[userId].sndfaEmail) ==>
                db.rows == old(db.rows)
    {
      var ref := db.GetSpasswordSession(userId);
      if ref != null {
        var spassword := ref.row;
        if spassword.sndfa && spassword.sndfaEmail {
          ref.row := ref.row.(sndfaTimeCode := Some(now), sndfaCode := Some(newcode));
          ref.dirty := {SndfaTimeCode, SndfaCode};
          db.Commit(ref);
        }
      }
    }

    method ModifySndfa(userId: UserId, enable: bool) returns (modified: bool)
      modifies db
      ensures db.rows == TableStep(cfg, old(db.rows), userId, Event.ModifySndfa(enable))
      ensures Flag(modified) == Answer(cfg, userId, Lookup(old(db.rows), userId), Event.ModifySndfa(enable))
    {
      var ref := db.GetSpasswordSession(userId);
      if ref != null {
        var spassword := ref.row;
        if spassword.sndfaEmail {
          ref.row, ref.dirty := ref.row.(sndfa := enable), {Sndfa};
          db.Commit(ref);
          return true;
        }
      }
      return false;
    }

    method GetSndfa(userId: UserId) returns (sndfa: bool)
      ensures sndfa <==> userId in db.rows && db.rows[userId].sndfa
    {
      var ref := db.GetSpasswordSession(userId);
      return ref != null && ref.row.sndfa;
    }

    /** None stands for the exception `eval` would raise. */
    method GetBlack(userId: UserId) returns (black: Option<bool>)
      ensures black == if userId in db.rows then Black(db.rows[userId].extra) else Some(false)
    {
      var ref := db.GetSpasswordSession(userId);
      if ref != null {
        var userExtra := ref.row.extra;
        if "black" in userExtra {
          return Eval(userExtra["black"]);
        }
      }
      return Some(false);
    }

    method GetPwdExpiration(userId: UserId) returns (expiration: Expiration)
      ensures expiration == PwdExpiration(cfg, Lookup(db.rows, userId))
    {
      var ref := db.GetSpasswordSession(userId);
      if ref != null {
        var creation := ref.row.creationTime;
        return if creation.None? then NoDate else ExpiresAt(creation.value + cfg.Expiry());
      }
      return NoRecord;
    }

    method ModifyBlack(userId: UserId, enable: bool) returns (modified: bool)
      modifies db
      ensures db.rows == TableStep(cfg, old(db.rows), userId, Event.ModifyBlack(enable))
      ensures Flag(modified) == Answer(cfg, userId, Lookup(old(db.rows), userId), Event.ModifyBlack(enable))
    {
      var ref := db.GetSpasswordSession(userId);
      if ref != null {
        ref.row, ref.dirty := ref.row.(extra := map["black" := Str(enable)]), {Extra};
        db.Commit(ref);
        return true;
      }
      return false;
    }

    method CheckSndfaCode(userId: UserId, code: string, now: Time) returns (checked: bool)
      modifies db
      ensures db.rows == TableStep(cfg, old(db.rows), userId, Event.CheckSndfaCode(code, now))
      ensures Flag(checked) == Answer(cfg, userId, Lookup(old(db.rows), userId), Event.CheckSndfaCode(code, now))
    {
      var ref := db.GetSpasswordSession(userId);
      if ref != null {
        var spassword := ref.row;
        if spassword.sndfa && spassword.sndfaEmail {
          checked := spassword.sndfaCode == Some(code);
          if checked {
            ref.row, ref.dirty := ref.row.(sndfaLast := Some(now)), {SndfaLast};
            db.Commit(ref);
          }
          return checked;
        }
      }
      return false;
    }

    method SetCheckEmailCode(userId: UserId, newcode: string)
      modifies db
      ensures db.rows == TableStep(cfg, old(db.rows), userId, Event.SetCheckEmailCode(newcode))
    {
      var ref := db.GetSpasswordSession(userId);
      if ref != null {
        ref.row := ref.row.(sndfaEmailCode := Some(newcode), sndfaEmail := false);
        ref.dirty := {SndfaEmailCode, SndfaEmail};
        db.Commit(ref);
      }
    }

    method CheckEmailCode(userId: UserId, code: string) returns (check: bool)
      modifies db
      ensures db.rows == TableStep(cfg, old(db.rows), userId, Event.CheckEmailCode(code))
      ensures Flag(check) == Answer(cfg, userId, Lookup(old(db.rows), userId), Event.CheckEmailCode(code))
    {
      var ref := db.GetSpasswordSession(userId);
      check := false;
      if ref != null {
        var spassword := ref.row;
        if spassword.sndfaEmailCode.Some? && spassword.sndfaEmailCode.value != "" {
          check := spassword.sndfaEmailCode == Some(code);
          ref.row, ref.dirty := ref.row.(sndfaEmail := check), {SndfaEmail};
          db.Commit(ref);
        }
      }
    }

    method AlreadyEmailChecked(userId: UserId) returns (checked: bool)
      ensures checked <==> userId in db.rows && db.rows[userId].sndfaEmail
    {
      var ref := db.GetSpasswordSession(userId);
      return ref != null && ref.row.sndfaEmail;
    }
  }
}
