/**
 The columns of a record, and what a login reports of them, as functions of the
 calls that were made and of what they answered.
 */
module History {
  import opened Model
  import opened Steps
  import opened Runs
  import opened Lockout
  import opened EmailAndBlacklist
  import opened SecondFactor

  /** The call judged a password and recorded the attempt. */
  ghost predicate Recorded(out: LoginOut) {
    out.BadPassword? || out.Success? || out.Challenge? || out.EmailUnverified?
  }

  ghost predicate Records(e: Event, reply: Reply) {
    e.Login? && reply.LoginReply? && Recorded(reply.out)
  }

  /** The clock read of the last recorded login since the record was created. */
  ghost function LastAttempt(cfg: Config, u: UserId, es: seq<Event>, k: nat): Option<Time>
    requires k <= |es|
  {
    if k == 0 || es[k - 1].RemoveUser? then None
    else if Records(es[k - 1], AnswerAt(cfg, u, None, es, k - 1)) then Some(es[k - 1].env.attempt)
    else LastAttempt(cfg, u, es, k - 1)
  }

  ghost function AttemptTime(r: Option<Record>): Option<Time> {
    if r.Some? then r.value.lastLoginAttemptTime else None
  }

  lemma AttemptStep(cfg: Config, u: UserId, r: Option<Record>, e: Event)
    requires cfg.enabled
    ensures AttemptTime(Next(cfg, u, r, e))
            == if e.RemoveUser? then None
               else if Records(e, Answer(cfg, u, r, e)) then Some(e.env.attempt)
               else AttemptTime(r)
  {
  }

  lemma {:induction false} AttemptTimeIsHistory(cfg: Config, u: UserId, es: seq<Event>, k: nat)
    requires cfg.enabled && k <= |es|
    ensures AttemptTime(StateAt(cfg, u, None, es, k)) == LastAttempt(cfg, u, es, k)
  {
    if k > 0 {
      AttemptTimeIsHistory(cfg, u, es, k - 1);
      AttemptStep(cfg, u, StateAt(cfg, u, None, es, k - 1), es[k - 1]);
    }
  }

  /** The value of the last `modify_sndfa` that answered True since the record was
      created; False if there is none. */
  ghost function LastSwitch(cfg: Config, u: UserId, es: seq<Event>, k: nat): bool
    requires k <= |es|
  {
    if k == 0 || es[k - 1].RemoveUser? then false
    else if es[k - 1].ModifySndfa? && AnswerAt(cfg, u, None, es, k - 1) == Flag(true) then es[k - 1].enable
    else LastSwitch(cfg, u, es, k - 1)
  }

  ghost function SwitchedOn(r: Option<Record>): bool { r.Some? && r.value.sndfa }

  lemma SwitchedStep(cfg: Config, u: UserId, r: Option<Record>, e: Event)
    ensures e.ModifySndfa? && Answer(cfg, u, r, e) == Flag(true) ==> SwitchedOn(Next(cfg, u, r, e)) == e.enable
    ensures !(e.ModifySndfa? && Answer(cfg, u, r, e) == Flag(true)) && e != RemoveUser ==>
              SwitchedOn(Next(cfg, u, r, e)) == SwitchedOn(r)
  {
  }

  lemma {:induction false} SwitchIsHistory(cfg: Config, u: UserId, es: seq<Event>, k: nat)
    requires k <= |es|
    ensures SwitchedOn(StateAt(cfg, u, None, es, k)) == LastSwitch(cfg, u, es, k)
  {
    if k > 0 {
      SwitchIsHistory(cfg, u, es, k - 1);
      SwitchedStep(cfg, u, StateAt(cfg, u, None, es, k - 1), es[k - 1]);
    }
  }

  /** The time the password's life began: the last user event, or the login that
      registered the user. */
  ghost function LastCreation(cfg: Config, u: UserId, es: seq<Event>, k: nat): Option<Time>
    requires k <= |es|
  {
    if k == 0 then None
    else
      match es[k - 1]
      case RemoveUser => None
      case SetUserCreationTime(_, t) => Some(t)
      case UpdateUserModificationTime(_, t) => Some(t)
      case Login(env) =>
        if LastCreation(cfg, u, es, k - 1).None? && Recorded(AnswerAt(cfg, u, None, es, k - 1).out) then
          Some(env.attempt)
        else LastCreation(cfg, u, es, k - 1)
      case _ => LastCreation(cfg, u, es, k - 1)
  }

  ghost function CreationOf(r: Option<Record>): Option<Time> {
    if r.Some? then r.value.creationTime else None
  }

  lemma CreatedStep(cfg: Config, u: UserId, r: Option<Record>, e: Event)
    requires cfg.enabled && (r.Some? ==> r.value.creationTime.Some?)
    ensures Next(cfg, u, r, e).Some? ==> Next(cfg, u, r, e).value.creationTime.Some?
    ensures e.SetUserCreationTime? || e.UpdateUserModificationTime? ==> CreationOf(Next(cfg, u, r, e)) == Some(e.t)
    ensures e.Login? ==>
              CreationOf(Next(cfg, u, r, e))
              == if CreationOf(r).None? && Recorded(Answer(cfg, u, r, e).out) then Some(e.env.attempt)
                 else CreationOf(r)
    ensures !e.Login? && KeepsCreation(e) ==> CreationOf(Next(cfg, u, r, e)) == CreationOf(r)
  {
  }

  /** A record exists exactly when the history says so, and its creation time is the
      one of the history. */
  lemma {:induction false} CreationIsHistory(cfg: Config, u: UserId, es: seq<Event>, k: nat)
    requires cfg.enabled && k <= |es|
    ensures StateAt(cfg, u, None, es, k).Some? <==> LastCreation(cfg, u, es, k).Some?
    ensures CreationOf(StateAt(cfg, u, None, es, k)) == LastCreation(cfg, u, es, k)
  {
    if k > 0 {
      CreationIsHistory(cfg, u, es, k - 1);
      CreatedStep(cfg, u, StateAt(cfg, u, None, es, k - 1), es[k - 1]);
    }
  }

  /** The time of the last accepted check of a code since the record was created. */
  ghost function LastCheck(cfg: Config, u: UserId, es: seq<Event>, k: nat): Option<Time>
    requires k <= |es|
  {
    if k == 0 || es[k - 1].RemoveUser? then None
    else if ChecksAt(cfg, u, es, k - 1) then Some(es[k - 1].t)
    else LastCheck(cfg, u, es, k - 1)
  }

  ghost function CheckOf(r: Option<Record>): Option<Time> {
    if r.Some? then r.value.sndfaLast else None
  }

  lemma CheckStep(cfg: Config, u: UserId, r: Option<Record>, e: Event)
    ensures e.CheckSndfaCode? && Answer(cfg, u, r, e) == Flag(true) ==> CheckOf(Next(cfg, u, r, e)) == Some(e.t)
    ensures !(e.CheckSndfaCode? && Answer(cfg, u, r, e) == Flag(true)) && e != RemoveUser ==>
              CheckOf(Next(cfg, u, r, e)) == CheckOf(r)
  {
  }

  lemma {:induction false} CheckIsHistory(cfg: Config, u: UserId, es: seq<Event>, k: nat)
    requires k <= |es|
    ensures CheckOf(StateAt(cfg, u, None, es, k)) == LastCheck(cfg, u, es, k)
  {
    if k > 0 {
      CheckIsHistory(cfg, u, es, k - 1);
      CheckStep(cfg, u, StateAt(cfg, u, None, es, k - 1), es[k - 1]);
    }
  }

  datatype Issue = Issue(code: string, time: Time)

  /** An issue less than a window before the clock read. */
  predicate Young(cfg: Config, issue: Option<Issue>, now: Time) {
    issue.Some? && now < issue.value.time + cfg.Window()
  }

  /** A login that went as far as the challenge stored its fresh code, unless a young
      one was there. */
  ghost predicate StoresCode(cfg: Config, last: Option<Issue>, e: Event, reply: Reply) {
    && e.Login? && reply.LoginReply?
    && (reply.out.Challenge? || reply.out.MailRaised? || reply.out.NoEmail?)
    && !Young(cfg, last, e.env.codeCheck)
  }

  /** The last code stored since the record was created, from the answers alone. */
  ghost function LastIssue(cfg: Config, u: UserId, es: seq<Event>, k: nat): Option<Issue>
    requires k <= |es|
  {
    if k == 0 || es[k - 1].RemoveUser? then None
    else if StoresCode(cfg, LastIssue(cfg, u, es, k - 1), es[k - 1], AnswerAt(cfg, u, None, es, k - 1)) then
      Some(Issue(es[k - 1].env.freshCode, es[k - 1].env.issue))
    else LastIssue(cfg, u, es, k - 1)
  }

  ghost function IssueOf(r: Option<Record>): Option<Issue> {
    if r.Some? && r.value.sndfaCode.Some? && r.value.sndfaTimeCode.Some? then
      Some(Issue(r.value.sndfaCode.value, r.value.sndfaTimeCode.value))
    else None
  }

  lemma IssueStep(cfg: Config, u: UserId, r: Option<Record>, e: Event)
    requires r.Some? ==> (r.value.sndfaCode.Some? <==> r.value.sndfaTimeCode.Some?)
    requires e != RemoveUser
    ensures IssueOf(Next(cfg, u, r, e))
            == if StoresCode(cfg, IssueOf(r), e, Answer(cfg, u, r, e)) then Some(Issue(e.env.freshCode, e.env.issue))
               else IssueOf(r)
  {
  }

  lemma {:induction false} IssueIsHistory(cfg: Config, u: UserId, t0: Time, es: seq<Event>, k: nat)
    requires ValidRun(t0, es) && k <= |es|
    ensures IssueOf(StateAt(cfg, u, None, es, k)) == LastIssue(cfg, u, es, k)
  {
    if k > 0 {
      IssueIsHistory(cfg, u, t0, es, k - 1);
      RunKeepsInv(cfg, u, None, t0, es, k - 1);
      if es[k - 1] != RemoveUser {
        IssueStep(cfg, u, StateAt(cfg, u, None, es, k - 1), es[k - 1]);
      }
    }
  }

  /** The last e-mail code set since the record was created. */
  ghost function LastEmailCode(cfg: Config, u: UserId, es: seq<Event>, k: nat): Option<string>
    requires k <= |es|
  {
    if k == 0 || es[k - 1].RemoveUser? then None
    else if es[k - 1].SetCheckEmailCode? && LastCreation(cfg, u, es, k - 1).Some? then Some(es[k - 1].code)
    else LastEmailCode(cfg, u, es, k - 1)
  }

  ghost function EmailCodeOf(r: Option<Record>): Option<string> {
    if r.Some? then r.value.sndfaEmailCode else None
  }

  lemma EmailCodeStep(cfg: Config, u: UserId, r: Option<Record>, e: Event)
    requires e != RemoveUser
    ensures EmailCodeOf(Next(cfg, u, r, e)) == if e.SetCheckEmailCode? && r.Some? then Some(e.code) else EmailCodeOf(r)
  {
  }

  lemma {:induction false} EmailCodeIsHistory(cfg: Config, u: UserId, es: seq<Event>, k: nat)
    requires cfg.enabled && k <= |es|
    ensures EmailCodeOf(StateAt(cfg, u, None, es, k)) == LastEmailCode(cfg, u, es, k)
  {
    if k > 0 {
      EmailCodeIsHistory(cfg, u, es, k - 1);
      CreationIsHistory(cfg, u, es, k - 1);
      if es[k - 1] != RemoveUser {
        EmailCodeStep(cfg, u, StateAt(cfg, u, None, es, k - 1), es[k - 1]);
      }
    }
  }

  /** The most recent check of an e-mail code was right. */
  ghost predicate EmailHolds(cfg: Config, u: UserId, es: seq<Event>, k: nat)
    requires k <= |es|
  {
    exists i: nat, j: nat, c: string :: Verified(cfg, u, es, i, j, k, c)
  }

  // ----- What every call answers -----

  /** What matters of the past for the next answer. */
  datatype Facts = Facts(
    listed: bool,                 // on the static blacklist
    creation: Option<Time>,
    wrong: int,                   // wrong passwords since the last reset
    lastAttempt: Option<Time>,
    black: bool,
    switch: bool,
    email: bool,
    emailCode: Option<string>,
    check: Option<Time>,
    issue: Option<Issue>)

  ghost function FactsAt(cfg: Config, u: UserId, es: seq<Event>, k: nat): Facts
    requires k <= |es|
  {
    Facts(u in cfg.pwdUserBlacklist, LastCreation(cfg, u, es, k), CountWrong(cfg, u, es, SinceReset(cfg, u, es, k), k),
          LastAttempt(cfg, u, es, k), LastBlack(cfg, u, es, k), LastSwitch(cfg, u, es, k), EmailHolds(cfg, u, es, k),
          LastEmailCode(cfg, u, es, k), LastCheck(cfg, u, es, k), LastIssue(cfg, u, es, k))
  }

  predicate OverLimit(cfg: Config, f: Facts) {
    !f.listed && f.creation.Some? && f.wrong > cfg.pwdMaxTries
  }

  predicate IsBlocked(cfg: Config, f: Facts, now: Time) {
    OverLimit(cfg, f) && f.lastAttempt.Some? && now < f.lastAttempt.value + cfg.Block()
  }

  predicate IsExpired(cfg: Config, f: Facts, now: Time) {
    !f.listed && !f.black && f.creation.Some? && f.creation.value + cfg.Expiry() < now
  }

  predicate NeedsFactor(cfg: Config, f: Facts) {
    cfg.sndfa && f.creation.Some? && f.switch
  }

  predicate IsChecked(cfg: Config, f: Facts, now: Time) {
    f.check.Some? && now < f.check.value + cfg.Window()
  }

  function ToldExtras(cfg: Config, f: Facts, env: LoginEnv): Extras {
    match f.creation
    case None =>
      Extras(env.attempt, env.attempt + cfg.Expiry(), f.listed, None, 0, Some(false), Some(false))
    case Some(creation) =>
      Extras(creation, creation + cfg.Expiry(), f.listed, f.lastAttempt, f.wrong,
             if cfg.sndfa then Some(f.email) else None,
             if cfg.sndfa && f.switch then Some(true) else None)
  }

  /** The answer to a correct password: let in, held back, or challenged with the young
      code if there is one and the fresh one otherwise. */
  function ToldRight(cfg: Config, f: Facts, env: LoginEnv): LoginOut {
    if f.creation.None? && env.user.None? then UserNotFound
    else if !NeedsFactor(cfg, f) then Success(Some(ToldExtras(cfg, f, env)))
    else if !f.email then EmailUnverified
    else if IsChecked(cfg, f, env.lastCheck) then Success(Some(ToldExtras(cfg, f, env)))
    else if env.user.None? then UserNotFound
    else if env.user.value.email.None? then NoEmail
    else
      var code := if Young(cfg, f.issue, env.codeCheck) then f.issue.value.code else env.freshCode;
      if env.mail.MailRaises? then MailRaised(Some(code)) else Challenge(Some(code))
  }

  function ToldWrong(f: Facts, env: LoginEnv): LoginOut {
    if f.creation.None? && env.user.None? then UserNotFound else BadPassword
  }

  function ToldLogin(cfg: Config, f: Facts, env: LoginEnv): LoginOut {
    if OverLimit(cfg, f) && f.lastAttempt.None? then Crashed
    else if IsBlocked(cfg, f, env.gate) then Blocked
    else
      match env.base
      case UnknownUser => ToldWrong(f, env)
      case RaisesBefore => BaseRaised
      case PasswordChecked(matches, raisesAfter) =>
        if IsExpired(cfg, f, env.expiry) then Expired
        else if !matches then ToldWrong(f, env)
        else if raisesAfter then BaseRaised
        else ToldRight(cfg, f, env)
  }

  function Told(cfg: Config, f: Facts, e: Event): Reply {
    match e
    case Login(env) => LoginReply(ToldLogin(cfg, f, env))
    case ModifySndfa(_) => Flag(f.email)
    case ModifyBlack(_) => Flag(f.creation.Some?)
    case CheckSndfaCode(code, _) => Flag(f.switch && f.email && f.issue.Some? && f.issue.value.code == code)
    case CheckEmailCode(code) => Flag(f.emailCode == Some(code))
    case _ => Done
  }

  ghost function FactsOf(cfg: Config, u: UserId, r: Option<Record>): Facts {
    Facts(u in cfg.pwdUserBlacklist, CreationOf(r), Attempts(r), AttemptTime(r),
          r.Some? && Black(r.value.extra) == Some(true), SwitchedOn(r), r.Some? && r.value.sndfaEmail,
          EmailCodeOf(r), CheckOf(r), IssueOf(r))
  }

  lemma EvaluatedIsTold(cfg: Config, u: UserId, r: Option<Record>, now: Time, right: bool, env: LoginEnv)
    requires cfg.enabled && Inv(r, now)
    ensures var f := FactsOf(cfg, u, r);
            Evaluated(cfg, u, r, right, env).1 == if right then ToldRight(cfg, f, env) else ToldWrong(f, env)
  {
  }

  lemma GatesAreTold(cfg: Config, u: UserId, r: Option<Record>, now: Time, gate: Time, expiry: Time)
    requires cfg.enabled && Inv(r, now)
    ensures var f := FactsOf(cfg, u, r);
            LockoutGate(cfg, u, r, gate)
            == if OverLimit(cfg, f) && f.lastAttempt.None? then Crash
               else if IsBlocked(cfg, f, gate) then Fail
               else Pass
    ensures ExpiryGate(cfg, u, r, expiry) == if IsExpired(cfg, FactsOf(cfg, u, r), expiry) then Fail else Pass
  {
  }

  /** The facts determine every answer. */
  lemma LoginStepIsTold(cfg: Config, u: UserId, r: Option<Record>, now: Time, env: LoginEnv)
    requires cfg.enabled && Inv(r, now)
    ensures LoginStep(cfg, u, r, env).1 == ToldLogin(cfg, FactsOf(cfg, u, r), env)
  {
    GatesAreTold(cfg, u, r, now, env.gate, env.expiry);
    EvaluatedIsTold(cfg, u, r, now, env.base == PasswordChecked(true, false), env);
  }

  lemma AnswerIsTold(cfg: Config, u: UserId, r: Option<Record>, now: Time, e: Event)
    requires cfg.enabled && Inv(r, now)
    ensures Answer(cfg, u, r, e) == Told(cfg, FactsOf(cfg, u, r), e)
  {
    if e.Login? {
      LoginStepIsTold(cfg, u, r, now, e.env);
    }
  }

  lemma BlackIsHistory(cfg: Config, u: UserId, es: seq<Event>, k: nat)
    requires k <= |es|
    ensures LastBlack(cfg, u, es, k) <==>
              && StateAt(cfg, u, None, es, k).Some?
              && Black(StateAt(cfg, u, None, es, k).value.extra) == Some(true)
  {
    if StateAt(cfg, u, None, es, k).Some? {
      BlackRoundTrip(cfg, u, es, k);
    } else {
      AbsentHasNoBlack(cfg, u, es, k);
    }
  }

  /** The history determines the facts: each column of the record is a function of the
      calls and their answers. */
  lemma FactsAreHistory(cfg: Config, u: UserId, t0: Time, es: seq<Event>, k: nat)
    requires cfg.enabled && ValidRun(t0, es) && k <= |es|
    ensures FactsOf(cfg, u, StateAt(cfg, u, None, es, k)) == FactsAt(cfg, u, es, k)
  {
    CreationIsHistory(cfg, u, es, k);
    CounterIsHistory(cfg, u, es, k);
    AttemptTimeIsHistory(cfg, u, es, k);
    BlackIsHistory(cfg, u, es, k);
    SwitchIsHistory(cfg, u, es, k);
    EmailFlagIsHistory(cfg, u, t0, es, k);
    EmailCodeIsHistory(cfg, u, es, k);
    CheckIsHistory(cfg, u, es, k);
    IssueIsHistory(cfg, u, t0, es, k);
  }

  /** So every answer in every run is told from the calls and answers before it. */
  lemma AnswersAreHistory(cfg: Config, u: UserId, t0: Time, es: seq<Event>, k: nat)
    requires cfg.enabled && ValidRun(t0, es) && k < |es|
    ensures AnswerAt(cfg, u, None, es, k) == Told(cfg, FactsAt(cfg, u, es, k), es[k])
  {
    RunKeepsInv(cfg, u, None, t0, es, k);
    FactsAreHistory(cfg, u, t0, es, k);
    AnswerIsTold(cfg, u, StateAt(cfg, u, None, es, k), ClockAt(t0, es, k), es[k]);
  }

  /** A login ends as the history says, in every one of its outcomes and with every
      value it reports or mails. */
  lemma LoginIsHistory(cfg: Config, u: UserId, t0: Time, es: seq<Event>, k: nat)
    requires cfg.enabled && ValidRun(t0, es) && k < |es| && es[k].Login?
    ensures AnswerAt(cfg, u, None, es, k) == LoginReply(ToldLogin(cfg, FactsAt(cfg, u, es, k), es[k].env))
  {
    AnswersAreHistory(cfg, u, t0, es, k);
  }

  /** A login is blocked exactly when more than `pwd_max_tries` wrong passwords were
      answered since the last reset and the last recorded login is less than a block
      old. */
  lemma BlockedIffHistory(cfg: Config, u: UserId, t0: Time, es: seq<Event>, k: nat)
    requires cfg.enabled && ValidRun(t0, es) && k < |es| && es[k].Login?
    ensures AnswerAt(cfg, u, None, es, k) == LoginReply(Blocked)
            <==> IsBlocked(cfg, FactsAt(cfg, u, es, k), es[k].env.gate)
  {
    LoginIsHistory(cfg, u, t0, es, k);
  }

  /** Nothing but a correct password, unblocked and not expired, passes to the second
      factor. */
  predicate PasswordHolds(cfg: Config, f: Facts, env: LoginEnv) {
    && env.base == PasswordChecked(true, false)
    && !IsBlocked(cfg, f, env.gate) && !(OverLimit(cfg, f) && f.lastAttempt.None?)
    && !IsExpired(cfg, f, env.expiry)
  }

  /** A login succeeds exactly when the password holds and the second factor is off, or
      on with a verified e-mail and a code accepted less than a window ago. */
  lemma SuccessIffHistory(cfg: Config, u: UserId, t0: Time, es: seq<Event>, k: nat)
    requires cfg.enabled && ValidRun(t0, es) && k < |es| && es[k].Login?
    ensures var f, env := FactsAt(cfg, u, es, k), es[k].env;
            AnswerAt(cfg, u, None, es, k).out.Success? <==>
              && PasswordHolds(cfg, f, env)
              && (f.creation.None? ==> env.user.Some?)
              && (NeedsFactor(cfg, f) ==> f.email && IsChecked(cfg, f, env.lastCheck))
  {
    LoginIsHistory(cfg, u, t0, es, k);
  }

  /** A login is challenged exactly when the password holds and the second factor is on
      with a verified e-mail but no check accepted less than a window ago, and the mail
      can be sent; it mails the code last stored if that is young, else the fresh one. */
  lemma ChallengeIffHistory(cfg: Config, u: UserId, t0: Time, es: seq<Event>, k: nat)
    requires cfg.enabled && ValidRun(t0, es) && k < |es| && es[k].Login?
    ensures var f, env, out := FactsAt(cfg, u, es, k), es[k].env, AnswerAt(cfg, u, None, es, k).out;
            && (out.Challenge? <==>
                  && PasswordHolds(cfg, f, env) && NeedsFactor(cfg, f)
                  && f.email && !IsChecked(cfg, f, env.lastCheck)
                  && env.user.Some? && env.user.value.email.Some? && !env.mail.MailRaises?)
            && (out.Challenge? ==>
                  out.code == Some(if Young(cfg, f.issue, env.codeCheck) then f.issue.value.code else env.freshCode))
  {
    LoginIsHistory(cfg, u, t0, es, k);
  }

  /** Everything a successful login of a registered user reports, told from the
      history alone. */
  lemma ReportIsHistory(cfg: Config, u: UserId, t0: Time, es: seq<Event>, k: nat, x: Extras)
    requires cfg.enabled && ValidRun(t0, es) && k < |es| && es[k].Login?
    requires AnswerAt(cfg, u, None, es, k) == LoginReply(Success(Some(x)))
    requires LastCreation(cfg, u, es, k).Some?
    ensures x.passwordCreationTime == LastCreation(cfg, u, es, k).value
    ensures x.passwordExpirationTime == LastCreation(cfg, u, es, k).value + cfg.Expiry()
    ensures x.previousLoginAttempts == CountWrong(cfg, u, es, SinceReset(cfg, u, es, k), k)
    ensures x.lastLoginAttemptTime == LastAttempt(cfg, u, es, k)
    ensures x.pwdUserInBlacklist <==> u in cfg.pwdUserBlacklist
    ensures x.sndfa == if cfg.sndfa && LastSwitch(cfg, u, es, k) then Some(true) else None
    ensures x.sndfaEmail == if cfg.sndfa then Some(EmailHolds(cfg, u, es, k)) else None
  {
    LoginIsHistory(cfg, u, t0, es, k);
  }
}
