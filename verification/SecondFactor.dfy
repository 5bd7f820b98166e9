/**
 The second factor over whole runs: where an accepted login's proof comes from,
 which code a challenge mails, and that answering a challenge is enough.
 */
module SecondFactor {
  import opened Model
  import opened Steps
  import opened Runs

  // ----- Codes are issued by correct-password logins only -----

  /** A correct-password login that stores a fresh code. */
  ghost predicate Issues(cfg: Config, u: UserId, r: Option<Record>, e: Event) {
    && e.Login? && e.env.base == PasswordChecked(true, false)
    && cfg.enabled && r.Some? && r.value.creationTime.Some?
    && LockoutGate(cfg, u, r, e.env.gate) == Pass
    && BaseAuthenticate(cfg, u, r, e.env) == Right
    && Reissues(cfg, r.value, e.env) && e.env.user.Some?
  }

  ghost predicate HoldsCode(r: Option<Record>, c: string, t: Time) {
    r.Some? && r.value.sndfaCode == Some(c) && r.value.sndfaTimeCode == Some(t)
  }

  /** Only an issuing login or a removal changes a stored code. */
  lemma CodeStep(cfg: Config, u: UserId, r: Option<Record>, e: Event)
    requires e != RemoveUser && r.Some?
    ensures Next(cfg, u, r, e).Some?
    ensures !Issues(cfg, u, r, e) ==>
              && Next(cfg, u, r, e).value.sndfaCode == r.value.sndfaCode
              && Next(cfg, u, r, e).value.sndfaTimeCode == r.value.sndfaTimeCode
    ensures Issues(cfg, u, r, e) ==> HoldsCode(Next(cfg, u, r, e), e.env.freshCode, e.env.issue)
  {
  }

  lemma NewRecordHasNoCode(cfg: Config, u: UserId, r: Option<Record>, e: Event)
    requires r.None? && Next(cfg, u, r, e).Some?
    ensures Next(cfg, u, r, e).value.sndfaCode.None? && Next(cfg, u, r, e).value.sndfaLast.None?
  {
  }

  ghost predicate NotRemoved(es: seq<Event>, j: nat, k: nat)
    requires k <= |es|
  {
    forall m :: j <= m < k ==> es[m] != RemoveUser
  }

  ghost predicate IssuesAt(cfg: Config, u: UserId, r0: Option<Record>, es: seq<Event>, m: nat)
    requires m < |es|
  {
    Issues(cfg, u, StateAt(cfg, u, r0, es, m), es[m])
  }

  ghost predicate NoneIssued(cfg: Config, u: UserId, r0: Option<Record>, es: seq<Event>, j: nat, k: nat)
    requires k <= |es|
  {
    forall m: nat :: j <= m < k ==> !IssuesAt(cfg, u, r0, es, m)
  }

  /** While the record stays and no newer code is issued, the code stays. */
  lemma {:induction false} CodeStays(cfg: Config, u: UserId, r0: Option<Record>, es: seq<Event>, j: nat, k: nat,
                                     c: string, t: Time)
    requires j <= k <= |es| && NotRemoved(es, j, k) && NoneIssued(cfg, u, r0, es, j, k)
    requires HoldsCode(StateAt(cfg, u, r0, es, j), c, t)
    ensures HoldsCode(StateAt(cfg, u, r0, es, k), c, t)
  {
    if j < k {
      CodeStays(cfg, u, r0, es, j, k - 1, c, t);
      assert !IssuesAt(cfg, u, r0, es, k - 1);
      CodeStep(cfg, u, StateAt(cfg, u, r0, es, k - 1), es[k - 1]);
    }
  }

  /** Call j is the last to issue a code on the record that exists at k, and it issued c. */
  ghost predicate IssuedLast(cfg: Config, u: UserId, es: seq<Event>, j: nat, k: nat, c: string)
    requires k <= |es|
  {
    && j < k && IssuesAt(cfg, u, None, es, j) && es[j].env.freshCode == c
    && NotRemoved(es, j + 1, k) && NoneIssued(cfg, u, None, es, j + 1, k)
  }

  lemma {:induction false} CodeHasIssuer(cfg: Config, u: UserId, es: seq<Event>, k: nat) returns (j: nat)
    requires k <= |es| && StateAt(cfg, u, None, es, k).Some? && StateAt(cfg, u, None, es, k).value.sndfaCode.Some?
    ensures IssuedLast(cfg, u, es, j, k, StateAt(cfg, u, None, es, k).value.sndfaCode.value)
  {
    var r, e := StateAt(cfg, u, None, es, k - 1), es[k - 1];
    if r.None? {
      NewRecordHasNoCode(cfg, u, r, e);
      assert false;
    }
    CodeStep(cfg, u, r, e);
    if IssuesAt(cfg, u, None, es, k - 1) {
      j := k - 1;
    } else {
      j := CodeHasIssuer(cfg, u, es, k - 1);
      StillLast(cfg, u, es, j, k, r.value.sndfaCode.value);
    }
  }

  lemma StillLast(cfg: Config, u: UserId, es: seq<Event>, j: nat, k: nat, c: string)
    requires 0 < k <= |es| && IssuedLast(cfg, u, es, j, k - 1, c)
    requires es[k - 1] != RemoveUser && !IssuesAt(cfg, u, None, es, k - 1)
    ensures IssuedLast(cfg, u, es, j, k, c)
  {
  }

  lemma LastIssuedIsHeld(cfg: Config, u: UserId, es: seq<Event>, j: nat, k: nat, c: string)
    requires k <= |es| && IssuedLast(cfg, u, es, j, k, c)
    ensures HoldsCode(StateAt(cfg, u, None, es, k), c, es[j].env.issue)
  {
    CodeStep(cfg, u, StateAt(cfg, u, None, es, j), es[j]);
    CodeStays(cfg, u, None, es, j + 1, k, c, es[j].env.issue);
  }

  lemma AcceptedIsLast(cfg: Config, u: UserId, es: seq<Event>, k: nat, c: string)
    requires k <= |es| && AcceptsSndfaCode(StateAt(cfg, u, None, es, k), c)
    ensures exists j: nat :: IssuedLast(cfg, u, es, j, k, c)
  {
    var j := CodeHasIssuer(cfg, u, es, k);
  }

  /** A code passes the check exactly when the second factor and the verified e-mail
      are on and it is the one last issued since the record was created. */
  lemma SndfaCodeAcceptedIff(cfg: Config, u: UserId, es: seq<Event>, k: nat, c: string, t: Time)
    requires k <= |es|
    ensures Answer(cfg, u, StateAt(cfg, u, None, es, k), CheckSndfaCode(c, t)) == Flag(true) <==>
              && StateAt(cfg, u, None, es, k).Some?
              && StateAt(cfg, u, None, es, k).value.sndfa && StateAt(cfg, u, None, es, k).value.sndfaEmail
              && exists j: nat :: IssuedLast(cfg, u, es, j, k, c)
  {
    if AcceptsSndfaCode(StateAt(cfg, u, None, es, k), c) {
      AcceptedIsLast(cfg, u, es, k, c);
    }
    forall j: nat | IssuedLast(cfg, u, es, j, k, c)
      ensures HoldsCode(StateAt(cfg, u, None, es, k), c, es[j].env.issue)
    {
      LastIssuedIsHeld(cfg, u, es, j, k, c);
    }
  }

  // ----- Where `sndfa_last` comes from -----

  lemma LastStep(cfg: Config, u: UserId, r: Option<Record>, e: Event)
    requires r.Some? && Next(cfg, u, r, e).Some?
    ensures e.CheckSndfaCode? && Answer(cfg, u, r, e) == Flag(true) ==>
              Next(cfg, u, r, e).value.sndfaLast == Some(e.t)
    ensures !(e.CheckSndfaCode? && Answer(cfg, u, r, e) == Flag(true)) ==>
              Next(cfg, u, r, e).value.sndfaLast == r.value.sndfaLast
  {
  }

  lemma CheckIsStored(cfg: Config, u: UserId, r: Option<Record>, e: Event)
    requires e.CheckSndfaCode? && Answer(cfg, u, r, e) == Flag(true)
    ensures Next(cfg, u, r, e).Some? && Next(cfg, u, r, e).value.sndfaLast == Some(e.t)
  {
  }

  ghost predicate ChecksAt(cfg: Config, u: UserId, es: seq<Event>, m: nat)
    requires m < |es|
  {
    es[m].CheckSndfaCode? && AnswerAt(cfg, u, None, es, m) == Flag(true)
  }

  /** Call i is the last accepted check of a code on the record that exists at k. */
  ghost predicate CheckedLast(cfg: Config, u: UserId, es: seq<Event>, i: nat, k: nat)
    requires k <= |es|
  {
    && i < k && ChecksAt(cfg, u, es, i) && NotRemoved(es, i + 1, k)
    && forall m: nat :: i < m < k ==> !ChecksAt(cfg, u, es, m)
  }

  lemma StillChecked(cfg: Config, u: UserId, es: seq<Event>, i: nat, k: nat)
    requires 0 < k <= |es| && CheckedLast(cfg, u, es, i, k - 1)
    requires es[k - 1] != RemoveUser && !ChecksAt(cfg, u, es, k - 1)
    ensures CheckedLast(cfg, u, es, i, k)
  {
  }

  lemma {:induction false} LastHasCheck(cfg: Config, u: UserId, es: seq<Event>, k: nat) returns (i: nat)
    requires k <= |es| && StateAt(cfg, u, None, es, k).Some? && StateAt(cfg, u, None, es, k).value.sndfaLast.Some?
    ensures CheckedLast(cfg, u, es, i, k)
  {
    var r, e := StateAt(cfg, u, None, es, k - 1), es[k - 1];
    if r.None? {
      NewRecordHasNoCode(cfg, u, r, e);
      assert false;
    }
    LastStep(cfg, u, r, e);
    if ChecksAt(cfg, u, es, k - 1) {
      i := k - 1;
    } else {
      i := LastHasCheck(cfg, u, es, k - 1);
      StillChecked(cfg, u, es, i, k);
    }
  }

  lemma {:induction false} LastCheckIsHeld(cfg: Config, u: UserId, es: seq<Event>, i: nat, k: nat)
    requires k <= |es| && CheckedLast(cfg, u, es, i, k)
    ensures StateAt(cfg, u, None, es, k).Some? && StateAt(cfg, u, None, es, k).value.sndfaLast == Some(es[i].t)
  {
    if i == k - 1 {
      CheckIsStored(cfg, u, StateAt(cfg, u, None, es, i), es[i]);
    } else {
      LastCheckIsHeld(cfg, u, es, i, k - 1);
      CodeStep(cfg, u, StateAt(cfg, u, None, es, k - 1), es[k - 1]);
      LastStep(cfg, u, StateAt(cfg, u, None, es, k - 1), es[k - 1]);
      assert !ChecksAt(cfg, u, es, k - 1);
    }
  }

  /** `sndfa_last` holds a time exactly when the last accepted check since the record
      was created was made at that time. */
  lemma CheckTimeIsHistory(cfg: Config, u: UserId, es: seq<Event>, k: nat, t: Time)
    requires k <= |es|
    ensures StateAt(cfg, u, None, es, k).Some? && StateAt(cfg, u, None, es, k).value.sndfaLast == Some(t)
            <==> exists i: nat :: CheckedLast(cfg, u, es, i, k) && es[i].t == t
  {
    if StateAt(cfg, u, None, es, k).Some? && StateAt(cfg, u, None, es, k).value.sndfaLast == Some(t) {
      var i := LastHasCheck(cfg, u, es, k);
      LastCheckIsHeld(cfg, u, es, i, k);
    }
    forall i: nat | CheckedLast(cfg, u, es, i, k)
      ensures StateAt(cfg, u, None, es, k).Some? && StateAt(cfg, u, None, es, k).value.sndfaLast == Some(es[i].t)
    {
      LastCheckIsHeld(cfg, u, es, i, k);
    }
  }

  /** The evidence behind a two-factor login at call k: call j issued a code to a
      correct password, call i checked that very code less than a window before. */
  ghost predicate Evidence(cfg: Config, u: UserId, es: seq<Event>, j: nat, i: nat, k: nat)
    requires k < |es| && es[k].Login?
  {
    && CheckedLast(cfg, u, es, i, k)
    && IssuedLast(cfg, u, es, j, i, es[i].code)
    && es[k].env.lastCheck - es[i].t < cfg.Window()
  }

  /** In every run, a successful login of a user with the second factor on has a
      verified e-mail and the evidence above. */
  lemma SecondFactorProvenance(cfg: Config, u: UserId, es: seq<Event>, k: nat)
    requires cfg.enabled && cfg.sndfa && k < |es| && es[k].Login?
    requires StateAt(cfg, u, None, es, k).Some? && StateAt(cfg, u, None, es, k).value.sndfa
    requires AnswerAt(cfg, u, None, es, k).out.Success?
    ensures StateAt(cfg, u, None, es, k).value.sndfaEmail
    ensures exists j: nat, i: nat :: Evidence(cfg, u, es, j, i, k)
  {
    var i := LastHasCheck(cfg, u, es, k);
    LastCheckIsHeld(cfg, u, es, i, k);
    assert ChecksAt(cfg, u, es, i);
    var j := CodeHasIssuer(cfg, u, es, i);
    assert Evidence(cfg, u, es, j, i, k);
  }

  // ----- Which code a challenge mails -----

  /** The code a login handed to the mail server, if it got that far. */
  ghost function Mailed(out: LoginOut): Option<string> {
    match out
    case Challenge(code) => code
    case MailRaised(code) => code
    case _ => None
  }

  ghost predicate Mails(out: LoginOut) {
    out.Challenge? || out.MailRaised?
  }

  /** Whatever is mailed is the code the record holds when the call ends. */
  lemma ChallengeMailsHeldCode(cfg: Config, u: UserId, r: Option<Record>, now: Time, env: LoginEnv)
    requires Inv(r, now)
    requires Mails(LoginStep(cfg, u, r, env).1)
    ensures LoginStep(cfg, u, r, env).0.Some? && Mailed(LoginStep(cfg, u, r, env).1).Some?
    ensures LoginStep(cfg, u, r, env).0.value.sndfaCode == Mailed(LoginStep(cfg, u, r, env).1)
    ensures LoginStep(cfg, u, r, env).0.value.sndfaTimeCode.Some?
  {
  }

  lemma InWindowStep(cfg: Config, u: UserId, r: Option<Record>, e: Event, c: string, t: Time)
    requires e != RemoveUser && HoldsCode(r, c, t)
    requires e.Login? ==> e.env.codeCheck < t + cfg.Window()
    ensures !Issues(cfg, u, r, e)
    ensures HoldsCode(Next(cfg, u, r, e), c, t)
  {
    CodeStep(cfg, u, r, e);
  }

  /** Every login between j and k reads the clock within a window of t. */
  ghost predicate LoginsWithin(cfg: Config, es: seq<Event>, j: nat, k: nat, t: Time)
    requires k <= |es|
  {
    forall m :: j <= m < k && es[m].Login? ==> es[m].env.codeCheck < t + cfg.Window()
  }

  lemma {:induction false} EarlierLoginsWithin(cfg: Config, t0: Time, es: seq<Event>, j: nat, k: nat, t: Time)
    requires ValidRun(t0, es) && j <= k <= |es| && ClockAt(t0, es, k) < t + cfg.Window()
    ensures LoginsWithin(cfg, es, j, k, t)
  {
    if j < k {
      assert ValidAt(t0, es, k - 1);
      EarlierLoginsWithin(cfg, t0, es, j, k - 1, t);
    }
  }

  /** While the issue time is under one window old no newer code is issued. */
  lemma {:induction false} CodeStaysInWindow(cfg: Config, u: UserId, r0: Option<Record>, es: seq<Event>,
                                             j: nat, k: nat, c: string, t: Time)
    requires j <= k <= |es| && NotRemoved(es, j, k) && LoginsWithin(cfg, es, j, k, t)
    requires HoldsCode(StateAt(cfg, u, r0, es, j), c, t)
    ensures HoldsCode(StateAt(cfg, u, r0, es, k), c, t)
    ensures NoneIssued(cfg, u, r0, es, j, k)
  {
    if j < k {
      CodeStaysInWindow(cfg, u, r0, es, j, k - 1, c, t);
      InWindowStep(cfg, u, StateAt(cfg, u, r0, es, k - 1), es[k - 1], c, t);
    }
  }

  /** A challenge that reads the clock within a window of the issue time of the code
      held at state j mails that code. */
  lemma HeldCodeIsMailed(cfg: Config, u: UserId, r0: Option<Record>, t0: Time, es: seq<Event>, j: nat, k: nat,
                         c: string, t: Time)
    requires ValidRun(t0, es) && j <= k < |es| && NotRemoved(es, j, k)
    requires HoldsCode(StateAt(cfg, u, r0, es, j), c, t)
    requires es[k].Login? && es[k].env.codeCheck < t + cfg.Window()
    ensures Mails(AnswerAt(cfg, u, r0, es, k).out) ==> Mailed(AnswerAt(cfg, u, r0, es, k).out) == Some(c)
  {
    assert ValidAt(t0, es, k);
    EarlierLoginsWithin(cfg, t0, es, j, k, t);
    CodeStaysInWindow(cfg, u, r0, es, j, k, c, t);
    InWindowMails(cfg, u, StateAt(cfg, u, r0, es, k), es[k].env, c, t);
  }

  /** All challenges that read the clock within one window of the issue time, in any
      run that does not remove the user, mail the same code. */
  lemma OneCodePerWindow(cfg: Config, u: UserId, r0: Option<Record>, t0: Time, es: seq<Event>,
                         j: nat, k: nat, c: string, t: Time)
    requires ValidRun(t0, es) && j < k < |es| && NotRemoved(es, j + 1, k)
    requires es[j].Login? && Mailed(AnswerAt(cfg, u, r0, es, j).out) == Some(c)
    requires HoldsCode(StateAt(cfg, u, r0, es, j + 1), c, t)
    requires es[k].Login? && Mails(AnswerAt(cfg, u, r0, es, k).out)
    requires es[k].env.codeCheck < t + cfg.Window()
    ensures Mailed(AnswerAt(cfg, u, r0, es, k).out) == Some(c)
  {
    HeldCodeIsMailed(cfg, u, r0, t0, es, j + 1, k, c, t);
  }

  lemma InWindowMails(cfg: Config, u: UserId, r: Option<Record>, env: LoginEnv, c: string, t: Time)
    requires HoldsCode(r, c, t) && env.codeCheck < t + cfg.Window()
    ensures Mails(LoginStep(cfg, u, r, env).1) ==> Mailed(LoginStep(cfg, u, r, env).1) == Some(c)
  {
  }

  // ----- Answering a challenge is enough -----

  /** `sndfa_last` only moves forward while the record stays. */
  lemma {:induction false} LastOnlyGrows(cfg: Config, u: UserId, r0: Option<Record>, t0: Time, es: seq<Event>,
                                         i: nat, k: nat, s: Time)
    requires ValidRun(t0, es) && i <= k <= |es| && NotRemoved(es, i, k)
    requires StateAt(cfg, u, r0, es, i).Some? && StateAt(cfg, u, r0, es, i).value.sndfaLast == Some(s)
    requires s <= ClockAt(t0, es, i)
    ensures s <= ClockAt(t0, es, k)
    ensures StateAt(cfg, u, r0, es, k).Some? && StateAt(cfg, u, r0, es, k).value.sndfaLast.Some?
    ensures s <= StateAt(cfg, u, r0, es, k).value.sndfaLast.value
  {
    if i < k {
      LastOnlyGrows(cfg, u, r0, t0, es, i, k - 1, s);
      assert ValidAt(t0, es, k - 1);
      CodeStep(cfg, u, StateAt(cfg, u, r0, es, k - 1), es[k - 1]);
      LastStep(cfg, u, StateAt(cfg, u, r0, es, k - 1), es[k - 1]);
    }
  }

  /** Call j mailed c; call i presents c with no newer code issued and the second
      factor on: the code is accepted. */
  lemma MailedCodeIsAccepted(cfg: Config, u: UserId, r0: Option<Record>, t0: Time, es: seq<Event>, j: nat, i: nat,
                             c: string)
    requires Inv(r0, t0) && ValidRun(t0, es)
    requires j < i < |es| && NotRemoved(es, j + 1, i) && NoneIssued(cfg, u, r0, es, j + 1, i)
    requires es[j].Login? && Mails(AnswerAt(cfg, u, r0, es, j).out)
    requires Mailed(AnswerAt(cfg, u, r0, es, j).out) == Some(c)
    requires es[i].CheckSndfaCode? && es[i].code == c
    ensures StateAt(cfg, u, r0, es, i).Some?
    ensures AnswerAt(cfg, u, r0, es, i)
            == Flag(StateAt(cfg, u, r0, es, i).value.sndfa && StateAt(cfg, u, r0, es, i).value.sndfaEmail)
  {
    RunKeepsInv(cfg, u, r0, t0, es, j);
    ChallengeMailsHeldCode(cfg, u, StateAt(cfg, u, r0, es, j), ClockAt(t0, es, j), es[j].env);
    var t := StateAt(cfg, u, r0, es, j + 1).value.sndfaTimeCode.value;
    CodeStays(cfg, u, r0, es, j + 1, i, c, t);
  }

  /** After an accepted check at i, every correct-password login whose clock read is
      within a window of it succeeds, while the record and its verified e-mail stay. */
  lemma CheckedLoginSucceeds(cfg: Config, u: UserId, r0: Option<Record>, t0: Time, es: seq<Event>, i: nat, k: nat)
    requires cfg.enabled && Inv(r0, t0) && ValidRun(t0, es)
    requires i < k < |es| && NotRemoved(es, i + 1, k)
    requires es[i].CheckSndfaCode? && AnswerAt(cfg, u, r0, es, i) == Flag(true)
    requires es[k].Login? && es[k].env.lastCheck < es[i].t + cfg.Window()
    requires StateAt(cfg, u, r0, es, k).Some? ==> StateAt(cfg, u, r0, es, k).value.sndfaEmail
    requires LockoutGate(cfg, u, StateAt(cfg, u, r0, es, k), es[k].env.gate) == Pass
    requires BaseAuthenticate(cfg, u, StateAt(cfg, u, r0, es, k), es[k].env) == Right
    ensures AnswerAt(cfg, u, r0, es, k).out.Success?
  {
    CheckIsStored(cfg, u, StateAt(cfg, u, r0, es, i), es[i]);
    assert ClockAt(t0, es, i + 1) == es[i].t;
    LastOnlyGrows(cfg, u, r0, t0, es, i + 1, k, es[i].t);
    RunKeepsInv(cfg, u, r0, t0, es, k);
    RecentLastPasses(cfg, u, StateAt(cfg, u, r0, es, k), es[k].env);
  }

  /** The two together: whoever got the mail and answers it gets in. */
  lemma ChallengeCompleteness(cfg: Config, u: UserId, r0: Option<Record>, t0: Time, es: seq<Event>,
                              j: nat, i: nat, k: nat, c: string)
    requires cfg.enabled && Inv(r0, t0) && ValidRun(t0, es)
    requires j < i < k < |es| && NotRemoved(es, j + 1, i) && NotRemoved(es, i + 1, k)
    requires NoneIssued(cfg, u, r0, es, j + 1, i)
    requires es[j].Login? && Mails(AnswerAt(cfg, u, r0, es, j).out)
    requires Mailed(AnswerAt(cfg, u, r0, es, j).out) == Some(c)
    requires es[i].CheckSndfaCode? && es[i].code == c
    requires StateAt(cfg, u, r0, es, i).Some? ==>
               StateAt(cfg, u, r0, es, i).value.sndfa && StateAt(cfg, u, r0, es, i).value.sndfaEmail
    requires es[k].Login? && es[k].env.lastCheck < es[i].t + cfg.Window()
    requires StateAt(cfg, u, r0, es, k).Some? ==> StateAt(cfg, u, r0, es, k).value.sndfaEmail
    requires LockoutGate(cfg, u, StateAt(cfg, u, r0, es, k), es[k].env.gate) == Pass
    requires BaseAuthenticate(cfg, u, StateAt(cfg, u, r0, es, k), es[k].env) == Right
    ensures AnswerAt(cfg, u, r0, es, i) == Flag(true)
    ensures AnswerAt(cfg, u, r0, es, k).out.Success?
  {
    MailedCodeIsAccepted(cfg, u, r0, t0, es, j, i, c);
    CheckedLoginSucceeds(cfg, u, r0, t0, es, i, k);
  }

  /** With a verified e-mail, a recent check and the right password there is nothing
      left to ask for. */
  lemma RecentLastPasses(cfg: Config, u: UserId, r: Option<Record>, env: LoginEnv)
    requires cfg.enabled && r.Some? && r.value.creationTime.Some? && r.value.sndfaEmail
    requires Recent(r.value.sndfaLast, env.lastCheck, cfg.Window())
    requires LockoutGate(cfg, u, r, env.gate) == Pass && BaseAuthenticate(cfg, u, r, env) == Right
    ensures LoginStep(cfg, u, r, env).1.Success?
  {
  }
  // ----- A code outlives the window -----

  /** The accepted check at k came less than a window after its code was issued. */
  ghost predicate CheckedInTime(cfg: Config, u: UserId, es: seq<Event>, k: nat)
    requires k < |es| && es[k].CheckSndfaCode?
  {
    AnswerAt(cfg, u, None, es, k) == Flag(true) ==>
      && StateAt(cfg, u, None, es, k).value.sndfaTimeCode.Some?
      && es[k].t < StateAt(cfg, u, None, es, k).value.sndfaTimeCode.value + cfg.Window()
  }

  /** The documented rule: a code is valid during the window only. */
  ghost predicate CodesExpire(cfg: Config, u: UserId) {
    forall t0: Time, es: seq<Event>, k: nat ::
      ValidRun(t0, es) && k < |es| && es[k].CheckSndfaCode? ==> CheckedInTime(cfg, u, es, k)
  }

  function LoginAt(t: Time, user: DirUser): Event {
    Login(LoginEnv(t, t, t, t, t, t, PasswordChecked(true, false), Some(user), "code00", MailSent))
  }

  /** A user registers, turns the second factor on, is challenged at t and answers
      the challenge at s. */
  function LateAnswer(user: DirUser, t: Time, s: Time): seq<Event> {
    [LoginAt(0, user), ModifyBlack(true), SetCheckEmailCode("mail00"), CheckEmailCode("mail00"), ModifySndfa(true),
     LoginAt(t, user), CheckSndfaCode("code00", s)]
  }

  lemma LateAnswerIsValid(user: DirUser, t: Time, s: Time)
    requires 0 <= t <= s
    ensures ValidRun(0, LateAnswer(user, t, s))
  {
    var es := LateAnswer(user, t, s);
    assert ClockAt(0, es, 1) == 0 && ClockAt(0, es, 2) == 0 && ClockAt(0, es, 3) == 0;
    assert ClockAt(0, es, 4) == 0 && ClockAt(0, es, 5) == 0 && ClockAt(0, es, 6) == t;
    assert ValidAt(0, es, 0) && ValidAt(0, es, 1) && ValidAt(0, es, 2) && ValidAt(0, es, 3);
    assert ValidAt(0, es, 4) && ValidAt(0, es, 5) && ValidAt(0, es, 6);
  }

  /** However late the answer, it is accepted. */
  lemma LateAnswerIsAccepted(cfg: Config, u: UserId, user: DirUser, t: Time, s: Time)
    requires cfg.enabled && cfg.sndfa && user.email.Some? && cfg.Block() <= t
    ensures HoldsCode(StateAt(cfg, u, None, LateAnswer(user, t, s), 6), "code00", t)
    ensures AnswerAt(cfg, u, None, LateAnswer(user, t, s), 6) == Flag(true)
  {
    var es := LateAnswer(user, t, s);
    var r1 := NewRecord(user, 0, 0, Some(0));
    var r2 := r1.(extra := map["black" := "True"]);
    var r4 := r2.(sndfaEmailCode := Some("mail00"), sndfaEmail := true);
    assert StateAt(cfg, u, None, es, 1) == Some(r1);
    assert StateAt(cfg, u, None, es, 2) == Some(r2);
    assert StateAt(cfg, u, None, es, 3) == Some(r2.(sndfaEmailCode := Some("mail00")));
    assert StateAt(cfg, u, None, es, 4) == Some(r4);
    assert StateAt(cfg, u, None, es, 5) == Some(r4.(sndfa := true));
    ChallengedRow(cfg, u, r4.(sndfa := true), t, user);
  }

  lemma ChallengedRow(cfg: Config, u: UserId, row: Record, t: Time, user: DirUser)
    requires cfg.enabled && cfg.sndfa && user.email.Some? && cfg.Block() <= t
    requires row.creationTime == Some(0) && row.lastLoginAttemptTime == Some(0)
    requires Black(row.extra) == Some(true) && row.sndfa && row.sndfaEmail
    requires row.sndfaLast.None? && row.sndfaTimeCode.None?
    ensures Next(cfg, u, Some(row), LoginAt(t, user))
            == Some(RecordAttempt(row.(sndfaCode := Some("code00"), sndfaTimeCode := Some(t)), 0, t))
  {
  }

  /** The check never looks at the age of the code, so the documented rule holds of
      all runs exactly when no code is ever issued: the second factor is off. */
  lemma CodesExpireIff(cfg: Config, u: UserId)
    ensures CodesExpire(cfg, u) <==> !(cfg.enabled && cfg.sndfa)
  {
    if cfg.enabled && cfg.sndfa {
      var user := DirUser("user", "domain", Some("user@domain"));
      var t := if cfg.Block() > 0 then cfg.Block() else 0;
      var s := if cfg.Window() > 0 then t + cfg.Window() else t;
      LateAnswerIsValid(user, t, s);
      LateAnswerIsAccepted(cfg, u, user, t, s);
      assert !CheckedInTime(cfg, u, LateAnswer(user, t, s), 6);
    } else {
      forall t0: Time, es: seq<Event>, k: nat | ValidRun(t0, es) && k < |es| && es[k].CheckSndfaCode?
        ensures CheckedInTime(cfg, u, es, k)
      {
        if AnswerAt(cfg, u, None, es, k) == Flag(true) {
          var j := CodeHasIssuer(cfg, u, es, k);
          assert false;
        }
      }
    }
  }
}
