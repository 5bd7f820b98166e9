/**
 What each API operation and notification does, said in the columns of the record and
 the fields of the request alone: the effect of the whole chain from the request to
 the driver calls it makes.
 */
module Operations {
  import opened Model
  import opened Steps
  import opened Runs
  import opened Workflows
  import opened EmailAndBlacklist
  import opened Recovery

  lemma ShortApi(cfg: Config, u: UserId, r: Option<Record>, call: ApiCall)
    ensures var es := Events(cfg, r, call);
            && |es| <= 2
            && ApiNext(cfg, u, r, call)
               == if |es| == 0 then r
                  else if |es| == 1 then Next(cfg, u, r, es[0])
                  else Next(cfg, u, Next(cfg, u, r, es[0]), es[1])
  {
    var es := Events(cfg, r, call);
    if |es| == 1 {
      ShortRuns(cfg, u, r, es[0], es[0]);
      assert es == [es[0]];
    } else if |es| == 2 {
      ShortRuns(cfg, u, r, es[0], es[1]);
      assert es == [es[0], es[1]];
    }
  }

  // ----- User events -----

  /** A creation or an update restarts the password's life and clears the counter of a
      registered user and keeps every other column; any other user is registered with
      nothing set. */
  lemma UserEventEffect(cfg: Config, u: UserId, r: Option<Record>, user: DirUser, t: Time, call: ApiCall)
    requires call == UserCreated(Some(user), t) || call == UserUpdated(Some(user), t)
    ensures Result(cfg, u, r, call) == Ok
    ensures cfg.enabled && r.Some? ==>
              ApiNext(cfg, u, r, call) == Some(r.value.(creationTime := Some(t), loginAttempts := 0))
    ensures cfg.enabled && r.None? ==>
              ApiNext(cfg, u, r, call)
              == Some(Record(user.name, user.domainId, Some(t), 0, None, map[], false, None, None, None, false, None))
    ensures !cfg.enabled ==> ApiNext(cfg, u, r, call) == r
  {
    ShortApi(cfg, u, r, call);
  }

  lemma UnknownUserEvent(cfg: Config, u: UserId, r: Option<Record>, t: Time, call: ApiCall)
    requires call == UserCreated(None, t) || call == UserUpdated(None, t)
    ensures Result(cfg, u, r, call) == NotFound && ApiNext(cfg, u, r, call) == r
  {
    ShortApi(cfg, u, r, call);
  }

  /** A deletion removes the record, unless the extension is disabled. */
  lemma DeletionEffect(cfg: Config, u: UserId, r: Option<Record>)
    ensures ApiNext(cfg, u, r, UserDeleted) == if cfg.enabled then None else r
  {
    ShortApi(cfg, u, r, UserDeleted);
  }

  // ----- Logins -----

  lemma LoginStepFrame(cfg: Config, u: UserId, row: Record, env: LoginEnv)
    ensures var r' := LoginStep(cfg, u, Some(row), env).0;
            && r'.Some?
            && r'.value == row.(loginAttempts := r'.value.loginAttempts,
                                lastLoginAttemptTime := r'.value.lastLoginAttemptTime,
                                sndfaCode := r'.value.sndfaCode, sndfaTimeCode := r'.value.sndfaTimeCode)
  {
  }

  /** A login of a registered user changes at most the counter, the last attempt, the
      second-factor code and its time. */
  lemma LoginFrame(cfg: Config, u: UserId, row: Record, env: LoginEnv)
    ensures var r' := ApiNext(cfg, u, Some(row), Authenticate(env));
            && r'.Some?
            && r'.value == row.(loginAttempts := r'.value.loginAttempts,
                                lastLoginAttemptTime := r'.value.lastLoginAttemptTime,
                                sndfaCode := r'.value.sndfaCode, sndfaTimeCode := r'.value.sndfaTimeCode)
  {
    LoginStepFrame(cfg, u, row, env);
    ShortApi(cfg, u, Some(row), Authenticate(env));
  }

  /** The first login registers the user the directory knows, with the password's life
      beginning at the attempt and one wrong password if it was wrong. */
  lemma FirstLoginEffect(cfg: Config, u: UserId, env: LoginEnv)
    requires cfg.enabled
    ensures var (r', result) := (ApiNext(cfg, u, None, Authenticate(env)), Result(cfg, u, None, Authenticate(env)));
            if env.base.RaisesBefore? || env.base == PasswordChecked(true, true) then
              r' == None && result == LoginResult(BaseRaised)
            else if env.user.None? then
              r' == None && result == LoginResult(UserNotFound)
            else
              var right, user := env.base == PasswordChecked(true, false), env.user.value;
              && r' == Some(Record(user.name, user.domainId, Some(env.attempt), if right then 0 else 1,
                                   Some(env.attempt), map[], false, None, None, None, false, None))
              && (if right then result.LoginResult? && result.out.Success? else result == LoginResult(BadPassword))
  {
    ShortApi(cfg, u, None, Authenticate(env));
  }

  // ----- Refusals -----

  /** The operation is behind the configuration. */
  predicate NeedsConfiguration(call: ApiCall) {
    call.Recover? || call.SetSndfa? || call.CheckSndfa? || call.SetBlack?
  }

  /** The operation is behind a verified e-mail. */
  predicate NeedsVerified(call: ApiCall) {
    call.Recover? || call.SetSndfa? || call.CheckSndfa?
  }

  predicate NeedsAddress(call: ApiCall) {
    call.Recover? || call.SetSndfa? || call.AskCheckEmail? || call.CheckEmail?
  }

  /** The operation asks the directory for a user it does not know. */
  predicate AsksUnknown(call: ApiCall) {
    !call.Authenticate? && !call.UserDeleted? && call.user.None?
  }

  /** The configuration and the user let the request come as far as its body or code. */
  predicate Passes(cfg: Config, r: Option<Record>, call: ApiCall) {
    && (NeedsConfiguration(call) ==> cfg.enabled && cfg.sndfa)
    && !AsksUnknown(call)
    && (NeedsAddress(call) ==> call.user.value.email.Some?)
    && (NeedsVerified(call) ==> r.Some? && r.value.sndfaEmail)
  }

  /** Which requests are refused, and how, in the order of the guards; a refused
      request leaves the record as it was. */
  lemma RefusedIff(cfg: Config, u: UserId, r: Option<Record>, call: ApiCall)
    ensures Result(cfg, u, r, call) == NotConfigured <==> NeedsConfiguration(call) && !(cfg.enabled && cfg.sndfa)
    ensures Result(cfg, u, r, call) == NotFound <==>
              (NeedsConfiguration(call) ==> cfg.enabled && cfg.sndfa) && AsksUnknown(call)
    ensures !Passes(cfg, r, call) ==>
              && Result(cfg, u, r, call) in {NotConfigured, NotFound, Unauthorized}
              && ApiNext(cfg, u, r, call) == r
    ensures Result(cfg, u, r, call) == Invalid <==>
              (call.SetSndfa? || call.SetBlack?) && Passes(cfg, r, call) && call.body == Other
    ensures Result(cfg, u, r, call) in {Invalid, Modified(false)} ==> ApiNext(cfg, u, r, call) == r
  {
    ShortApi(cfg, u, r, call);
  }

  // ----- Requests that mail -----

  /** Recovery and the request to verify an address answer what became of the mail. */
  lemma MailDecides(cfg: Config, u: UserId, r: Option<Record>, call: ApiCall)
    requires (call.Recover? || call.AskCheckEmail?) && Passes(cfg, r, call)
    ensures Result(cfg, u, r, call) == Ok <==> call.mail.MailSent?
    ensures Result(cfg, u, r, call) == BadRequest <==> call.mail.MailRefused?
    ensures Result(cfg, u, r, call) == Failed <==> call.mail.MailRaises?
  {
  }

  /** Either stores its code, whatever becomes of the mail: recovery leaves the address
      verified, the request to verify it does not. */
  lemma MailedCodeIsStored(cfg: Config, u: UserId, r: Option<Record>, call: ApiCall)
    requires (call.Recover? || call.AskCheckEmail?) && Passes(cfg, r, call) && call.code != ""
    ensures ApiNext(cfg, u, r, call)
            == if r.None? then None
               else Some(r.value.(sndfaEmailCode := Some(call.code), sndfaEmail := call.Recover?))
  {
    ShortApi(cfg, u, r, call);
  }

  // ----- Checks of a code -----

  /** The record holds an e-mail code; the empty text counts as none. */
  predicate HasCode(r: Option<Record>) {
    r.Some? && r.value.sndfaEmailCode.Some? && r.value.sndfaEmailCode != Some("")
  }

  /** A check of an e-mail code is right exactly when the record holds that code; the
      verified address becomes its outcome and nothing else changes. */
  lemma CheckEmailEffect(cfg: Config, u: UserId, r: Option<Record>, user: Option<DirUser>, code: string)
    requires Passes(cfg, r, CheckEmail(user, code))
    ensures Result(cfg, u, r, CheckEmail(user, code))
            == if HasCode(r) && r.value.sndfaEmailCode.value == code then Ok else Unauthorized
    ensures ApiNext(cfg, u, r, CheckEmail(user, code))
            == if HasCode(r) then
                 Some(r.value.(sndfaEmail := r.value.sndfaEmailCode.value == code))
               else r
  {
    ShortApi(cfg, u, r, CheckEmail(user, code));
  }

  /** A check of a second-factor code is right exactly when the factor is on and the
      record holds that code, and then its time is stored and nothing else changes. */
  lemma CheckSndfaEffect(cfg: Config, u: UserId, r: Option<Record>, user: Option<DirUser>, code: string, t: Time)
    requires Passes(cfg, r, CheckSndfa(user, code, t))
    ensures Result(cfg, u, r, CheckSndfa(user, code, t))
            == if r.value.sndfa && r.value.sndfaCode == Some(code) then Ok else Unauthorized
    ensures ApiNext(cfg, u, r, CheckSndfa(user, code, t))
            == if r.value.sndfa && r.value.sndfaCode == Some(code) then Some(r.value.(sndfaLast := Some(t))) else r
  {
    ShortApi(cfg, u, r, CheckSndfa(user, code, t));
  }

  /** A reset with a wrong code, or one whose update fails, is refused; the check of its
      code has changed the verified address and nothing else. */
  lemma ResetRefused(cfg: Config, u: UserId, r: Option<Record>, user: DirUser, code: string, update: UpdateOutcome,
                     t: Time, mail: MailOutcome)
    requires !(HasCode(r) && r.value.sndfaEmailCode.value == code && update.UpdateOk?)
    ensures Result(cfg, u, r, Reset(Some(user), code, update, t, mail))
            == if HasCode(r) && r.value.sndfaEmailCode.value == code && update.UpdateRaises? then Failed
               else Unauthorized
    ensures ApiNext(cfg, u, r, Reset(Some(user), code, update, t, mail))
            == if HasCode(r) then
                 Some(r.value.(sndfaEmail := r.value.sndfaEmailCode.value == code))
               else r
  {
    ShortApi(cfg, u, r, Reset(Some(user), code, update, t, mail));
  }

  /** A reset with the right code whose update goes through verifies the address and,
      unless the extension is disabled, starts the password's life again. */
  lemma ResetAccepted(cfg: Config, u: UserId, r: Option<Record>, user: DirUser, code: string, t: Time,
                      mail: MailOutcome)
    requires HasCode(r) && r.value.sndfaEmailCode.value == code
    ensures Result(cfg, u, r, Reset(Some(user), code, UpdateOk, t, mail))
            == if user.email.Some? && !mail.MailRaises? then Ok else Failed
    ensures ApiNext(cfg, u, r, Reset(Some(user), code, UpdateOk, t, mail))
            == if cfg.enabled then Some(r.value.(sndfaEmail := true, creationTime := Some(t), loginAttempts := 0))
               else Some(r.value.(sndfaEmail := true))
  {
    ShortApi(cfg, u, r, Reset(Some(user), code, UpdateOk, t, mail));
  }

  // ----- Switches -----

  /** The second factor becomes the boolean of the body, False when there is none, and
      nothing else changes. */
  lemma SwitchEffect(cfg: Config, u: UserId, r: Option<Record>, user: Option<DirUser>, body: Body)
    requires Passes(cfg, r, SetSndfa(user, body)) && body != Other
    ensures Result(cfg, u, r, SetSndfa(user, body)) == Modified(true)
    ensures ApiNext(cfg, u, r, SetSndfa(user, body)) == Some(r.value.(sndfa := body == Boolean(true)))
  {
    ShortApi(cfg, u, r, SetSndfa(user, body));
  }

  /** A registered user is put on the expiry blacklist or taken off it, as the body
      says, which replaces all of `extra` and nothing else; for any other user the
      answer is False. */
  lemma BlackEffect(cfg: Config, u: UserId, r: Option<Record>, user: Option<DirUser>, body: Body)
    requires Passes(cfg, r, SetBlack(user, body)) && body != Other
    ensures Result(cfg, u, r, SetBlack(user, body)) == Modified(r.Some?)
    ensures var r' := ApiNext(cfg, u, r, SetBlack(user, body));
            if r.None? then r' == None
            else r'.Some? && Black(r'.value.extra) == Some(body == Boolean(true)) && r'.value.extra.Keys == {"black"}
                 && r'.value == r.value.(extra := r'.value.extra)
  {
    ShortApi(cfg, u, r, SetBlack(user, body));
    EvalUndoesStr(body == Boolean(true));
  }

  // ----- An address is verified by the mail -----

  /** A code that was mailed verifies the address, and any other does not, over any run
      that neither removes the user nor sets another code. */
  lemma AskThenCheck(cfg: Config, u: UserId, r: Option<Record>, user: Option<DirUser>, code: string,
                     mail: MailOutcome, between: seq<Event>, user': Option<DirUser>, presented: string)
    requires r.Some? && code != "" && Passes(cfg, r, AskCheckEmail(user, code, mail))
    requires forall i :: 0 <= i < |between| ==> KeepsEmailCode(between[i])
    requires user'.Some? && user'.value.email.Some?
    ensures var asked := ApiNext(cfg, u, r, AskCheckEmail(user, code, mail));
            var now := StateAt(cfg, u, asked, between, |between|);
            && now.Some?
            && Result(cfg, u, now, CheckEmail(user', presented)) == (if presented == code then Ok else Unauthorized)
            && ApiNext(cfg, u, now, CheckEmail(user', presented))
               == Some(now.value.(sndfaEmail := presented == code))
  {
    MailedCodeIsStored(cfg, u, r, AskCheckEmail(user, code, mail));
    var asked := ApiNext(cfg, u, r, AskCheckEmail(user, code, mail));
    EmailCodeStays(cfg, u, asked, between, |between|, code);
    CheckEmailEffect(cfg, u, StateAt(cfg, u, asked, between, |between|), user', presented);
  }

  // ----- Units -----

  /** The block is in minutes, the password's life in days, the window in hours. */
  lemma UnitsInMicroseconds(cfg: Config, u: UserId, r: Option<Record>, now: Time)
    requires r.Some? && r.value.creationTime.Some?
    ensures LockoutGate(cfg, u, r, now) == Fail <==>
              && cfg.enabled && u !in cfg.pwdUserBlacklist && r.value.loginAttempts > cfg.pwdMaxTries
              && r.value.lastLoginAttemptTime.Some?
              && now - r.value.lastLoginAttemptTime.value < cfg.pwdBlockMinutes * 60_000_000
    ensures ExpiryGate(cfg, u, r, now) == Fail <==>
              && cfg.enabled && u !in cfg.pwdUserBlacklist && Black(r.value.extra) == Some(false)
              && now - r.value.creationTime.value > cfg.pwdExpDays * 86_400_000_000
    ensures PwdExpiration(cfg, r) == ExpiresAt(r.value.creationTime.value + cfg.pwdExpDays * 86_400_000_000)
    ensures forall env: LoginEnv :: env.lastCheck == now ==>
              (NeedsCode(cfg, r.value, env) <==>
                 && cfg.sndfa && r.value.sndfa && r.value.sndfaEmail
                 && (r.value.sndfaLast.Some? ==> now - r.value.sndfaLast.value >= cfg.sndfaTimeWindow * 3_600_000_000))
  {
    assert cfg.Expiry() == cfg.pwdExpDays * 86_400_000_000;
    assert cfg.Block() == cfg.pwdBlockMinutes * 60_000_000;
    assert cfg.Window() == cfg.sndfaTimeWindow * 3_600_000_000;
  }

  /** `get_pwd_expiration` gives no date exactly for a user without a record. */
  lemma ExpirationIff(cfg: Config, r: Option<Record>, now: Time)
    requires Inv(r, now)
    ensures PwdExpiration(cfg, r) == NoRecord <==> r.None?
    ensures PwdExpiration(cfg, r).ExpiresAt? <==> r.Some?
  {
  }
}
