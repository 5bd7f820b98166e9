/**
 Password recovery from the request to the next login.
 */
module Recovery {
  import opened Model
  import opened Steps
  import opened Runs
  import opened Workflows
  import opened EmailAndBlacklist

  /** Recovery replaces the e-mail code and leaves the e-mail verified, whatever
      becomes of the mail. */
  lemma RecoverSetsCode(cfg: Config, u: UserId, r: Option<Record>, user: Option<DirUser>, code: string,
                        mail: MailOutcome)
    requires code != "" && Result(cfg, u, r, Recover(user, code, mail)) == Ok
    ensures cfg.enabled && r.Some?
    ensures ApiNext(cfg, u, r, Recover(user, code, mail))
            == Some(r.value.(sndfaEmailCode := Some(code), sndfaEmail := true))
  {
    ShortRuns(cfg, u, r, SetCheckEmailCode(code), CheckEmailCode(code));
  }

  ghost predicate KeepsEmailCode(e: Event) {
    e != RemoveUser && !e.SetCheckEmailCode?
  }

  lemma {:induction false} EmailCodeStays(cfg: Config, u: UserId, r0: Option<Record>, es: seq<Event>, k: nat,
                                          code: string)
    requires k <= |es| && r0.Some? && r0.value.sndfaEmailCode == Some(code)
    requires forall i :: 0 <= i < |es| ==> KeepsEmailCode(es[i])
    ensures StateAt(cfg, u, r0, es, k).Some? && StateAt(cfg, u, r0, es, k).value.sndfaEmailCode == Some(code)
  {
    if k > 0 {
      EmailCodeStays(cfg, u, r0, es, k - 1, code);
      EmailStep(cfg, u, StateAt(cfg, u, r0, es, k - 1), es[k - 1]);
    }
  }

  lemma ResetWithCode(cfg: Config, u: UserId, r: Option<Record>, user: DirUser, code: string, t: Time,
                      mail: MailOutcome)
    requires cfg.enabled && code != "" && r.Some? && r.value.sndfaEmailCode == Some(code)
    ensures Result(cfg, u, r, Reset(Some(user), code, UpdateOk, t, mail))
            == if user.email.Some? && !mail.MailRaises? then Ok else Failed
    ensures ApiNext(cfg, u, r, Reset(Some(user), code, UpdateOk, t, mail))
            == Some(r.value.(sndfaEmail := true, creationTime := Some(t), loginAttempts := 0))
  {
    ShortRuns(cfg, u, r, CheckEmailCode(code), UpdateUserModificationTime(user, t));
  }

  /** Calls that neither log in nor touch the user. */
  ghost predicate Quiet(e: Event) {
    !e.Login? && KeepsCreation(e)
  }

  lemma {:induction false} QuietRun(cfg: Config, u: UserId, r0: Option<Record>, es: seq<Event>, k: nat)
    requires k <= |es| && r0.Some?
    requires forall i :: 0 <= i < |es| ==> Quiet(es[i])
    ensures StateAt(cfg, u, r0, es, k).Some?
    ensures StateAt(cfg, u, r0, es, k).value.loginAttempts == r0.value.loginAttempts
    ensures StateAt(cfg, u, r0, es, k).value.creationTime == r0.value.creationTime
  {
    if k > 0 {
      QuietRun(cfg, u, r0, es, k - 1);
      QuietStep(cfg, u, StateAt(cfg, u, r0, es, k - 1), es[k - 1]);
    }
  }

  lemma QuietStep(cfg: Config, u: UserId, r: Option<Record>, e: Event)
    requires r.Some? && Quiet(e)
    ensures Next(cfg, u, r, e).Some?
    ensures Next(cfg, u, r, e).value.loginAttempts == r.value.loginAttempts
    ensures Next(cfg, u, r, e).value.creationTime == r.value.creationTime
  {
  }

  /** The record just before the mailed link is followed: recover, then any calls that
      set no other e-mail code. */
  ghost function BeforeReset(cfg: Config, u: UserId, r: Option<Record>, user: Option<DirUser>, code: string,
                             mail: MailOutcome, between: seq<Event>): Option<Record> {
    StateAt(cfg, u, ApiNext(cfg, u, r, Recover(user, code, mail)), between, |between|)
  }

  ghost function AfterReset(cfg: Config, u: UserId, r: Option<Record>, user: Option<DirUser>, code: string,
                            mail: MailOutcome, between: seq<Event>, user': DirUser, t: Time,
                            mail': MailOutcome): Option<Record> {
    ApiNext(cfg, u, BeforeReset(cfg, u, r, user, code, mail, between), Reset(Some(user'), code, UpdateOk, t, mail'))
  }

  /** A mailed recovery link always works while no other e-mail code is set: the reset
      succeeds, verifies the e-mail, clears the counter, starts the password's life at
      t and changes nothing else, the second factor's columns in particular. */
  lemma RecoverThenReset(cfg: Config, u: UserId, r: Option<Record>, user: Option<DirUser>, code: string,
                         mail: MailOutcome, between: seq<Event>, user': DirUser, t: Time, mail': MailOutcome)
    requires code != "" && Result(cfg, u, r, Recover(user, code, mail)) == Ok
    requires forall i :: 0 <= i < |between| ==> KeepsEmailCode(between[i])
    ensures BeforeReset(cfg, u, r, user, code, mail, between).Some?
    ensures Result(cfg, u, BeforeReset(cfg, u, r, user, code, mail, between),
                   Reset(Some(user'), code, UpdateOk, t, mail'))
            == if user'.email.Some? && !mail'.MailRaises? then Ok else Failed
    ensures AfterReset(cfg, u, r, user, code, mail, between, user', t, mail')
            == Some(BeforeReset(cfg, u, r, user, code, mail, between).value
                    .(sndfaEmail := true, creationTime := Some(t), loginAttempts := 0))
  {
    RecoverSetsCode(cfg, u, r, user, code, mail);
    EmailCodeStays(cfg, u, ApiNext(cfg, u, r, Recover(user, code, mail)), between, |between|, code);
    ResetWithCode(cfg, u, BeforeReset(cfg, u, r, user, code, mail, between), user', code, t, mail');
  }

  /** The next login after the reset is not blocked, and is expired exactly when the
      user is not exempt and the password is older than the configured days, counted
      from the reset. */
  lemma LoginAfterReset(cfg: Config, u: UserId, r: Option<Record>, user: Option<DirUser>, code: string,
                        mail: MailOutcome, between: seq<Event>, user': DirUser, t: Time, mail': MailOutcome,
                        after: seq<Event>, env: LoginEnv)
    requires code != "" && Result(cfg, u, r, Recover(user, code, mail)) == Ok && 0 <= cfg.pwdMaxTries
    requires forall i :: 0 <= i < |between| ==> KeepsEmailCode(between[i])
    requires forall i :: 0 <= i < |after| ==> Quiet(after[i])
    requires env.base.PasswordChecked?
    ensures var reset := AfterReset(cfg, u, r, user, code, mail, between, user', t, mail');
            var now := StateAt(cfg, u, reset, after, |after|);
            && now.Some?
            && LoginStep(cfg, u, now, env).1 != Blocked
            && (LoginStep(cfg, u, now, env).1 == Expired <==>
                  && u !in cfg.pwdUserBlacklist && Black(now.value.extra) == Some(false)
                  && env.expiry > t + cfg.Expiry())
  {
    RecoverThenReset(cfg, u, r, user, code, mail, between, user', t, mail');
    RecoverSetsCode(cfg, u, r, user, code, mail);
    var reset := AfterReset(cfg, u, r, user, code, mail, between, user', t, mail');
    QuietRun(cfg, u, reset, after, |after|);
    FreshPasswordLogin(cfg, u, StateAt(cfg, u, reset, after, |after|), t, env);
  }

  lemma FreshPasswordLogin(cfg: Config, u: UserId, r: Option<Record>, t: Time, env: LoginEnv)
    requires cfg.enabled && 0 <= cfg.pwdMaxTries && env.base.PasswordChecked?
    requires r.Some? && r.value.loginAttempts == 0 && r.value.creationTime == Some(t)
    ensures LoginStep(cfg, u, r, env).1 != Blocked
    ensures LoginStep(cfg, u, r, env).1 == Expired <==>
              && u !in cfg.pwdUserBlacklist && Black(r.value.extra) == Some(false)
              && env.expiry > t + cfg.Expiry()
  {
  }
}
