/**
 The two flags an administrator or a mail link sets, as functions of the history:
 the verified e-mail and the expiry blacklist.
 */
module EmailAndBlacklist {
  import opened Model
  import opened Steps
  import opened Runs

  // ----- Verified e-mail -----

  /** Call i is the last to set the e-mail code c on the record that exists at k. */
  ghost predicate LastSet(cfg: Config, u: UserId, es: seq<Event>, i: nat, k: nat, c: string)
    requires k <= |es|
  {
    && i < k && es[i] == SetCheckEmailCode(c) && StateAt(cfg, u, None, es, i).Some?
    && forall m :: i < m < k ==> es[m] != RemoveUser && !es[m].SetCheckEmailCode?
  }

  /** The last check after i presents the code c: call j does, and no later check
      presents another one. */
  ghost predicate LastCheckIs(es: seq<Event>, i: nat, j: nat, k: nat, c: string)
    requires k <= |es|
  {
    && i < j < k && es[j] == CheckEmailCode(c)
    && forall m :: j < m < k && es[m].CheckEmailCode? ==> es[m].code == c
  }

  ghost predicate Verified(cfg: Config, u: UserId, es: seq<Event>, i: nat, j: nat, k: nat, c: string)
    requires k <= |es|
  {
    LastSet(cfg, u, es, i, k, c) && LastCheckIs(es, i, j, k, c)
  }

  /** What a call other than a removal does to the e-mail columns of an existing record. */
  lemma EmailStep(cfg: Config, u: UserId, r: Option<Record>, e: Event)
    requires r.Some? && e != RemoveUser
    ensures Next(cfg, u, r, e).Some?
    ensures e.SetCheckEmailCode? ==>
              Next(cfg, u, r, e).value.sndfaEmailCode == Some(e.code) && !Next(cfg, u, r, e).value.sndfaEmail
    ensures !e.SetCheckEmailCode? ==> Next(cfg, u, r, e).value.sndfaEmailCode == r.value.sndfaEmailCode
    ensures e.CheckEmailCode? && HasEmailCode(r) ==>
              Next(cfg, u, r, e).value.sndfaEmail == (r.value.sndfaEmailCode == Some(e.code))
    ensures !e.SetCheckEmailCode? && !(e.CheckEmailCode? && HasEmailCode(r)) ==>
              Next(cfg, u, r, e).value.sndfaEmail == r.value.sndfaEmail
  {
  }

  lemma NewRecordHasNoEmailCode(cfg: Config, u: UserId, r: Option<Record>, e: Event)
    requires r.None? && Next(cfg, u, r, e).Some?
    ensures Next(cfg, u, r, e).value.sndfaEmailCode.None? && !Next(cfg, u, r, e).value.sndfaEmail
  {
  }

  lemma {:induction false} EmailCodeHasSetter(cfg: Config, u: UserId, es: seq<Event>, k: nat) returns (i: nat)
    requires k <= |es| && StateAt(cfg, u, None, es, k).Some? && StateAt(cfg, u, None, es, k).value.sndfaEmailCode.Some?
    ensures LastSet(cfg, u, es, i, k, StateAt(cfg, u, None, es, k).value.sndfaEmailCode.value)
  {
    var r, e := StateAt(cfg, u, None, es, k - 1), es[k - 1];
    if r.None? {
      NewRecordHasNoEmailCode(cfg, u, r, e);
      assert false;
    }
    EmailStep(cfg, u, r, e);
    if e.SetCheckEmailCode? {
      i := k - 1;
    } else {
      i := EmailCodeHasSetter(cfg, u, es, k - 1);
    }
  }

  lemma {:induction false} SetCodeStays(cfg: Config, u: UserId, es: seq<Event>, i: nat, k: nat, c: string)
    requires k <= |es| && LastSet(cfg, u, es, i, k, c)
    ensures StateAt(cfg, u, None, es, k).Some? && StateAt(cfg, u, None, es, k).value.sndfaEmailCode == Some(c)
  {
    if i == k - 1 {
      EmailStep(cfg, u, StateAt(cfg, u, None, es, i), es[i]);
    } else {
      SetCodeStays(cfg, u, es, i, k - 1, c);
      EmailStep(cfg, u, StateAt(cfg, u, None, es, k - 1), es[k - 1]);
    }
  }

  lemma StillVerified(cfg: Config, u: UserId, es: seq<Event>, i: nat, j: nat, k: nat, c: string)
    requires 0 < k <= |es| && Verified(cfg, u, es, i, j, k - 1, c)
    requires es[k - 1] != RemoveUser && !es[k - 1].SetCheckEmailCode?
    requires es[k - 1].CheckEmailCode? ==> es[k - 1].code == c
    ensures Verified(cfg, u, es, i, j, k, c)
  {
  }

  lemma NowVerified(cfg: Config, u: UserId, es: seq<Event>, i: nat, k: nat, c: string)
    requires 0 < k <= |es| && LastSet(cfg, u, es, i, k - 1, c) && es[k - 1] == CheckEmailCode(c)
    ensures Verified(cfg, u, es, i, k - 1, k, c)
  {
  }

  /** The call that leaves the flag on found it on, or is the matching check. */
  lemma FlagStep(cfg: Config, u: UserId, r: Option<Record>, e: Event)
    requires Next(cfg, u, r, e).Some? && Next(cfg, u, r, e).value.sndfaEmail
    requires r.Some? ==> r.value.sndfaEmailCode != Some("")
    ensures r.Some? && e != RemoveUser && !e.SetCheckEmailCode?
    ensures e.CheckEmailCode? && r.value.sndfaEmailCode.Some? ==> r.value.sndfaEmailCode == Some(e.code)
    ensures !r.value.sndfaEmail ==> e.CheckEmailCode? && r.value.sndfaEmailCode == Some(e.code)
  {
  }

  /** A verified e-mail has a setter and a matching check in its history. */
  lemma {:induction false} FlagHasHistory(cfg: Config, u: UserId, t0: Time, es: seq<Event>, k: nat)
      returns (i: nat, j: nat, c: string)
    requires ValidRun(t0, es) && k <= |es|
    requires StateAt(cfg, u, None, es, k).Some? && StateAt(cfg, u, None, es, k).value.sndfaEmail
    ensures Verified(cfg, u, es, i, j, k, c)
  {
    var r := StateAt(cfg, u, None, es, k - 1);
    RunKeepsInv(cfg, u, None, t0, es, k - 1);
    FlagStep(cfg, u, r, es[k - 1]);
    if r.value.sndfaEmail {
      i, j, c := FlagHasHistory(cfg, u, t0, es, k - 1);
      SetCodeStays(cfg, u, es, i, k - 1, c);
      StillVerified(cfg, u, es, i, j, k, c);
    } else {
      i := EmailCodeHasSetter(cfg, u, es, k - 1);
      j, c := k - 1, es[k - 1].code;
      NowVerified(cfg, u, es, i, k, c);
    }
  }

  lemma VerifiedBefore(cfg: Config, u: UserId, es: seq<Event>, i: nat, j: nat, k: nat, c: string)
    requires k <= |es| && Verified(cfg, u, es, i, j, k, c)
    ensures LastSet(cfg, u, es, i, k - 1, c) && es[k - 1] != RemoveUser && !es[k - 1].SetCheckEmailCode?
    ensures es[k - 1].CheckEmailCode? ==> es[k - 1].code == c
    ensures j < k - 1 ==> Verified(cfg, u, es, i, j, k - 1, c)
    ensures j == k - 1 ==> es[k - 1].CheckEmailCode?
  {
  }

  lemma {:induction false} HistoryGivesFlag(cfg: Config, u: UserId, t0: Time, es: seq<Event>,
                                            i: nat, j: nat, k: nat, c: string)
    requires ValidRun(t0, es) && k <= |es| && Verified(cfg, u, es, i, j, k, c)
    ensures StateAt(cfg, u, None, es, k).Some? && StateAt(cfg, u, None, es, k).value.sndfaEmail
  {
    VerifiedBefore(cfg, u, es, i, j, k, c);
    SetCodeStays(cfg, u, es, i, k - 1, c);
    assert ValidAt(t0, es, i);
    if j < k - 1 {
      HistoryGivesFlag(cfg, u, t0, es, i, j, k - 1, c);
    }
    EmailStep(cfg, u, StateAt(cfg, u, None, es, k - 1), es[k - 1]);
  }

  /** `sndfa_email` is true exactly when, since the record was created, a code was
      set and the most recent check after that presented it. */
  lemma EmailFlagIsHistory(cfg: Config, u: UserId, t0: Time, es: seq<Event>, k: nat)
    requires ValidRun(t0, es) && k <= |es|
    ensures StateAt(cfg, u, None, es, k).Some? && StateAt(cfg, u, None, es, k).value.sndfaEmail
            <==> exists i: nat, j: nat, c: string :: Verified(cfg, u, es, i, j, k, c)
  {
    if StateAt(cfg, u, None, es, k).Some? && StateAt(cfg, u, None, es, k).value.sndfaEmail {
      var i, j, c := FlagHasHistory(cfg, u, t0, es, k);
    }
    forall i: nat, j: nat, c: string | Verified(cfg, u, es, i, j, k, c)
      ensures StateAt(cfg, u, None, es, k).Some? && StateAt(cfg, u, None, es, k).value.sndfaEmail
    {
      HistoryGivesFlag(cfg, u, t0, es, i, j, k, c);
    }
  }

  /** A code is accepted as the e-mail code exactly when it is the one last set since
      the record was created. */
  lemma EmailCodeAcceptedIff(cfg: Config, u: UserId, t0: Time, es: seq<Event>, k: nat, c: string)
    requires ValidRun(t0, es) && k <= |es|
    ensures Answer(cfg, u, StateAt(cfg, u, None, es, k), CheckEmailCode(c)) == Flag(true)
            <==> exists i: nat :: LastSet(cfg, u, es, i, k, c)
  {
    RunKeepsInv(cfg, u, None, t0, es, k);
    if Answer(cfg, u, StateAt(cfg, u, None, es, k), CheckEmailCode(c)) == Flag(true) {
      var i := EmailCodeHasSetter(cfg, u, es, k);
    }
    forall i: nat | LastSet(cfg, u, es, i, k, c)
      ensures Answer(cfg, u, StateAt(cfg, u, None, es, k), CheckEmailCode(c)) == Flag(true)
    {
      SetCodeStays(cfg, u, es, i, k, c);
    }
  }

  /** The second factor is switched only by `modify_sndfa`, and only with a verified
      e-mail. */
  lemma SwitchNeedsVerifiedEmail(cfg: Config, u: UserId, t0: Time, es: seq<Event>, k: nat)
    requires ValidRun(t0, es) && k < |es|
    requires StateAt(cfg, u, None, es, k).Some? && StateAt(cfg, u, None, es, k + 1).Some?
    requires StateAt(cfg, u, None, es, k).value.sndfa != StateAt(cfg, u, None, es, k + 1).value.sndfa
    ensures es[k] == ModifySndfa(StateAt(cfg, u, None, es, k + 1).value.sndfa)
    ensures exists i: nat, j: nat, c: string :: Verified(cfg, u, es, i, j, k, c)
  {
    SwitchStep(cfg, u, StateAt(cfg, u, None, es, k), es[k]);
    EmailFlagIsHistory(cfg, u, t0, es, k);
  }

  lemma SwitchStep(cfg: Config, u: UserId, r: Option<Record>, e: Event)
    requires r.Some? && Next(cfg, u, r, e).Some? && Next(cfg, u, r, e).value.sndfa != r.value.sndfa
    ensures e == ModifySndfa(Next(cfg, u, r, e).value.sndfa) && r.value.sndfaEmail
  {
  }

  // ----- Expiry blacklist -----

  lemma EvalUndoesStr(b: bool)
    ensures Eval(Str(b)) == Some(b)
  {
  }

  /** The value of the last `modify_black` that answered True since the record was
      created; False if there is none. */
  ghost function LastBlack(cfg: Config, u: UserId, es: seq<Event>, k: nat): bool
    requires k <= |es|
  {
    if k == 0 || es[k - 1].RemoveUser? then false
    else if es[k - 1].ModifyBlack? && AnswerAt(cfg, u, None, es, k - 1) == Flag(true) then es[k - 1].enable
    else LastBlack(cfg, u, es, k - 1)
  }

  lemma BlackStep(cfg: Config, u: UserId, r: Option<Record>, e: Event)
    requires Next(cfg, u, r, e).Some? && !e.ModifyBlack?
    ensures Black(Next(cfg, u, r, e).value.extra) == if r.Some? then Black(r.value.extra) else Some(false)
  {
  }

  lemma {:induction false} AbsentHasNoBlack(cfg: Config, u: UserId, es: seq<Event>, k: nat)
    requires k <= |es| && StateAt(cfg, u, None, es, k).None?
    ensures !LastBlack(cfg, u, es, k)
  {
    if k > 0 && !es[k - 1].RemoveUser? {
      AbsentStays(cfg, u, StateAt(cfg, u, None, es, k - 1), es[k - 1]);
      AbsentHasNoBlack(cfg, u, es, k - 1);
    }
  }

  lemma AbsentStays(cfg: Config, u: UserId, r: Option<Record>, e: Event)
    requires Next(cfg, u, r, e).None? && e != RemoveUser
    ensures r.None?
  {
  }

  /** The stored text evaluates to the last value written, whatever happened between. */
  lemma {:induction false} BlackRoundTrip(cfg: Config, u: UserId, es: seq<Event>, k: nat)
    requires k <= |es| && StateAt(cfg, u, None, es, k).Some?
    ensures Black(StateAt(cfg, u, None, es, k).value.extra) == Some(LastBlack(cfg, u, es, k))
  {
    var r, e := StateAt(cfg, u, None, es, k - 1), es[k - 1];
    if e.ModifyBlack? {
      assert r.Some?;
      EvalUndoesStr(e.enable);
    } else {
      BlackStep(cfg, u, r, e);
      if r.None? {
        AbsentHasNoBlack(cfg, u, es, k - 1);
      } else {
        BlackRoundTrip(cfg, u, es, k - 1);
      }
    }
  }

  /** So the gate in `_check_password` spares exactly the users whose last successful
      `modify_black` was True, besides the static list. */
  lemma ExpiryExemption(cfg: Config, u: UserId, t0: Time, es: seq<Event>, k: nat, now: Time)
    requires ValidRun(t0, es) && k <= |es| && StateAt(cfg, u, None, es, k).Some?
    ensures StateAt(cfg, u, None, es, k).value.creationTime.Some?
    ensures ExpiryGate(cfg, u, StateAt(cfg, u, None, es, k), now) == Fail <==>
              && cfg.enabled && u !in cfg.pwdUserBlacklist && !LastBlack(cfg, u, es, k)
              && StateAt(cfg, u, None, es, k).value.creationTime.value + cfg.Expiry() < now
  {
    RunKeepsInv(cfg, u, None, t0, es, k);
    BlackRoundTrip(cfg, u, es, k);
  }

  // ----- Reported expiry -----

  ghost predicate KeepsCreation(e: Event) {
    !e.SetUserCreationTime? && !e.UpdateUserModificationTime? && !e.RemoveUser?
  }

  lemma {:induction false} CreationStays(cfg: Config, u: UserId, r0: Option<Record>, es: seq<Event>, j: nat, k: nat)
    requires j <= k <= |es| && StateAt(cfg, u, r0, es, j).Some?
    requires forall m :: j <= m < k ==> KeepsCreation(es[m])
    ensures StateAt(cfg, u, r0, es, k).Some?
    ensures StateAt(cfg, u, r0, es, k).value.creationTime == StateAt(cfg, u, r0, es, j).value.creationTime
  {
    if j < k {
      CreationStays(cfg, u, r0, es, j, k - 1);
      CreationStep(cfg, u, StateAt(cfg, u, r0, es, k - 1), es[k - 1]);
    }
  }

  lemma CreationStep(cfg: Config, u: UserId, r: Option<Record>, e: Event)
    requires r.Some? && KeepsCreation(e)
    ensures Next(cfg, u, r, e).Some? && Next(cfg, u, r, e).value.creationTime == r.value.creationTime
  {
  }

  lemma SuccessReportsExpiration(cfg: Config, u: UserId, r: Option<Record>, env: LoginEnv)
    requires cfg.enabled && LoginStep(cfg, u, r, env).1.Success?
    ensures LoginStep(cfg, u, r, env).0.Some? && LoginStep(cfg, u, r, env).1.extras.Some?
    ensures PwdExpiration(cfg, LoginStep(cfg, u, r, env).0)
            == ExpiresAt(LoginStep(cfg, u, r, env).1.extras.value.passwordExpirationTime)
  {
  }

  /** The expiry a login at j reported stays the one `get_pwd_expiration` gives and
      the one the gate enforces, to the instant, until the next user event. */
  lemma ReportedExpiryIsExact(cfg: Config, u: UserId, t0: Time, es: seq<Event>, j: nat, k: nat, x: Extras)
    requires cfg.enabled && ValidRun(t0, es) && j < k < |es|
    requires es[j].Login? && AnswerAt(cfg, u, None, es, j) == LoginReply(Success(Some(x)))
    requires forall m :: j < m < k ==> KeepsCreation(es[m])
    requires es[k].Login? && es[k].env.base.PasswordChecked?
    requires LockoutGate(cfg, u, StateAt(cfg, u, None, es, k), es[k].env.gate) == Pass
    ensures PwdExpiration(cfg, StateAt(cfg, u, None, es, k)) == ExpiresAt(x.passwordExpirationTime)
    ensures AnswerAt(cfg, u, None, es, k) == LoginReply(Expired) <==>
              && u !in cfg.pwdUserBlacklist && !LastBlack(cfg, u, es, k)
              && es[k].env.expiry > x.passwordExpirationTime
  {
    SuccessReportsExpiration(cfg, u, StateAt(cfg, u, None, es, j), es[j].env);
    CreationStays(cfg, u, None, es, j + 1, k);
    ExpiryExemption(cfg, u, t0, es, k, es[k].env.expiry);
    ExpiredStep(cfg, u, StateAt(cfg, u, None, es, k), es[k].env);
  }

  lemma ExpiredStep(cfg: Config, u: UserId, r: Option<Record>, env: LoginEnv)
    requires env.base.PasswordChecked? && LockoutGate(cfg, u, r, env.gate) == Pass
    ensures LoginStep(cfg, u, r, env).1 == Expired <==> ExpiryGate(cfg, u, r, env.expiry) == Fail
  {
  }
}
