/**
 Runs: any sequence of calls about one user, the clock that moves under them, and
 the invariant every reachable record keeps.
 */
module Runs {
  import opened Model
  import opened Steps

  /** The record after the first k calls. */
  ghost function StateAt(cfg: Config, u: UserId, r0: Option<Record>, es: seq<Event>, k: nat): Option<Record>
    requires k <= |es|
  {
    if k == 0 then r0 else Next(cfg, u, StateAt(cfg, u, r0, es, k - 1), es[k - 1])
  }

  /** What call k answered. */
  ghost function AnswerAt(cfg: Config, u: UserId, r0: Option<Record>, es: seq<Event>, k: nat): Reply
    requires k < |es|
  {
    Answer(cfg, u, StateAt(cfg, u, r0, es, k), es[k])
  }

  lemma {:induction false} PrefixDecides(cfg: Config, u: UserId, r0: Option<Record>, es: seq<Event>, more: seq<Event>,
                                         k: nat)
    requires k <= |es|
    ensures StateAt(cfg, u, r0, es + more, k) == StateAt(cfg, u, r0, es, k)
  {
    if k > 0 {
      PrefixDecides(cfg, u, r0, es, more, k - 1);
      assert (es + more)[k - 1] == es[k - 1];
    }
  }

  ghost function ClockAfter(now: Time, e: Event): Time {
    match e
    case Login(env) => env.issue
    case SetUserCreationTime(_, t) => t
    case UpdateUserModificationTime(_, t) => t
    case CheckSndfaCode(_, t) => t
    case _ => now
  }

  /** The clock only moves forward and generated codes are not empty. */
  ghost predicate ValidEvent(now: Time, e: Event) {
    match e
    case Login(env) =>
      now <= env.gate <= env.expiry <= env.attempt <= env.lastCheck <= env.codeCheck <= env.issue
      && env.freshCode != ""
    case SetCheckEmailCode(code) => code != ""
    case _ => now <= ClockAfter(now, e)
  }

  ghost function ClockAt(t0: Time, es: seq<Event>, k: nat): Time
    requires k <= |es|
  {
    if k == 0 then t0 else ClockAfter(ClockAt(t0, es, k - 1), es[k - 1])
  }

  ghost predicate ValidAt(t0: Time, es: seq<Event>, k: nat)
    requires k < |es|
  {
    ValidEvent(ClockAt(t0, es, k), es[k])
  }

  ghost predicate ValidRun(t0: Time, es: seq<Event>) {
    forall k: nat :: k < |es| ==> ValidAt(t0, es, k)
  }

  lemma {:induction false} ClockIsMonotone(t0: Time, es: seq<Event>, j: nat, k: nat)
    requires ValidRun(t0, es) && j <= k <= |es|
    ensures ClockAt(t0, es, j) <= ClockAt(t0, es, k)
  {
    if j < k {
      ClockIsMonotone(t0, es, j, k - 1);
      assert ValidAt(t0, es, k - 1);
    }
  }

  ghost predicate NotAfter(t: Option<Time>, now: Time) {
    t.Some? ==> t.value <= now
  }

  ghost predicate RecordInv(row: Record, now: Time) {
    && row.creationTime.Some?
    && 0 <= row.loginAttempts
    && (row.loginAttempts > 0 ==> row.lastLoginAttemptTime.Some?)
    && (row.sndfaCode.Some? <==> row.sndfaTimeCode.Some?)
    && (row.sndfaLast.Some? ==> row.sndfaCode.Some?)
    && (row.sndfa || row.sndfaEmail ==> row.sndfaEmailCode.Some?)
    && row.sndfaEmailCode != Some("")
    && Black(row.extra).Some?
    && NotAfter(row.creationTime, now)
    && NotAfter(row.lastLoginAttemptTime, now)
    && NotAfter(row.sndfaLast, now)
    && NotAfter(row.sndfaTimeCode, now)
  }

  ghost predicate Inv(r: Option<Record>, now: Time) {
    r.Some? ==> RecordInv(r.value, now)
  }

  lemma RightPasswordKeepsInv(cfg: Config, u: UserId, row: Record, now: Time, env: LoginEnv)
    requires RecordInv(row, now) && ValidEvent(now, Login(env))
    ensures RecordInv(RightPassword(cfg, u, row, env).0, env.issue)
  {
  }

  lemma LoginKeepsInv(cfg: Config, u: UserId, r: Option<Record>, now: Time, env: LoginEnv)
    requires Inv(r, now) && ValidEvent(now, Login(env))
    ensures Inv(LoginStep(cfg, u, r, env).0, env.issue)
  {
    if r.Some? {
      RightPasswordKeepsInv(cfg, u, r.value, now, env);
    }
  }

  lemma StepKeepsInv(cfg: Config, u: UserId, r: Option<Record>, now: Time, e: Event)
    requires Inv(r, now) && ValidEvent(now, e)
    ensures Inv(Next(cfg, u, r, e), ClockAfter(now, e))
  {
    if e.Login? {
      LoginKeepsInv(cfg, u, r, now, e.env);
    }
  }

  /** Every record a run can reach satisfies the record invariant. */
  lemma {:induction false} RunKeepsInv(cfg: Config, u: UserId, r0: Option<Record>, t0: Time, es: seq<Event>, k: nat)
    requires Inv(r0, t0) && ValidRun(t0, es) && k <= |es|
    ensures Inv(StateAt(cfg, u, r0, es, k), ClockAt(t0, es, k))
  {
    if k > 0 {
      RunKeepsInv(cfg, u, r0, t0, es, k - 1);
      assert ValidAt(t0, es, k - 1);
      StepKeepsInv(cfg, u, StateAt(cfg, u, r0, es, k - 1), ClockAt(t0, es, k - 1), es[k - 1]);
    }
  }

  ghost predicate CrashesAt(cfg: Config, u: UserId, es: seq<Event>, k: nat)
    requires k < |es|
  {
    AnswerAt(cfg, u, None, es, k) == LoginReply(Crashed)
  }

  ghost predicate NeverCrashes(cfg: Config, u: UserId) {
    forall t0: Time, es: seq<Event>, k: nat ::
      ValidRun(t0, es) && k < |es| ==> !CrashesAt(cfg, u, es, k)
  }

  lemma NoCrashStep(cfg: Config, u: UserId, r: Option<Record>, now: Time, env: LoginEnv)
    requires Inv(r, now)
    requires !cfg.enabled || u in cfg.pwdUserBlacklist || 0 <= cfg.pwdMaxTries
    ensures LoginStep(cfg, u, r, env).1 != Crashed
  {
  }

  /** A user created under a negative `pwd_max_tries` cannot log in: the gate reads
      an attempt time that was never written. */
  lemma NegativeTriesCrash(cfg: Config, u: UserId) returns (es: seq<Event>)
    requires cfg.enabled && u !in cfg.pwdUserBlacklist && cfg.pwdMaxTries < 0
    ensures |es| == 2 && ValidRun(0, es) && CrashesAt(cfg, u, es, 1)
  {
    var user := DirUser("user", "domain", None);
    es := [SetUserCreationTime(user, 0), Login(LoginEnv(0, 0, 0, 0, 0, 0, UnknownUser, None, "abc", MailSent))];
    assert ValidAt(0, es, 0);
    assert ClockAt(0, es, 1) == 0 && ValidAt(0, es, 1);
    assert StateAt(cfg, u, None, es, 0) == None;
    assert StateAt(cfg, u, None, es, 1) == Some(NewRecord(user, 0, 0, None));
  }

  /** No None ever reaches an unguarded date operation, exactly when the number of
      allowed tries is not negative or the lockout gate does not apply. */
  lemma NeverCrashesIff(cfg: Config, u: UserId)
    ensures NeverCrashes(cfg, u) <==> !cfg.enabled || u in cfg.pwdUserBlacklist || 0 <= cfg.pwdMaxTries
  {
    if !cfg.enabled || u in cfg.pwdUserBlacklist || 0 <= cfg.pwdMaxTries {
      forall t0: Time, es: seq<Event>, k: nat | ValidRun(t0, es) && k < |es|
        ensures !CrashesAt(cfg, u, es, k)
      {
        RunKeepsInv(cfg, u, None, t0, es, k);
        if es[k].Login? {
          NoCrashStep(cfg, u, StateAt(cfg, u, None, es, k), ClockAt(t0, es, k), es[k].env);
        }
      }
    } else {
      var es := NegativeTriesCrash(cfg, u);
      assert CrashesAt(cfg, u, es, 1);
    }
  }
}
