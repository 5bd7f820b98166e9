/**
 The attempt counter and the temporary block over whole runs: how many wrong
 passwords can be recorded in an interval, when a block ends, and what the counter
 counts.
 */
module Lockout {
  import opened Model
  import opened Steps
  import opened Runs

  // ----- Resets -----

  /** The call cleared the counter: a user event, or a login that got past the password
      and was recorded. */
  ghost predicate Clears(e: Event, reply: Reply) {
    match e
    case Login(_) =>
      reply.LoginReply? && (reply.out.Success? || reply.out.Challenge? || reply.out.EmailUnverified?)
    case SetUserCreationTime(_, _) => true
    case UpdateUserModificationTime(_, _) => true
    case RemoveUser => true
    case _ => false
  }

  ghost predicate ResetAt(cfg: Config, u: UserId, r0: Option<Record>, es: seq<Event>, k: nat)
    requires k < |es|
  {
    Clears(es[k], AnswerAt(cfg, u, r0, es, k))
  }

  ghost predicate NoReset(cfg: Config, u: UserId, r0: Option<Record>, es: seq<Event>) {
    forall i: nat :: i < |es| ==> !ResetAt(cfg, u, r0, es, i)
  }

  /** Calls that are neither a correct password nor a user event. */
  ghost predicate KeepsCounter(e: Event) {
    match e
    case Login(env) => env.base != PasswordChecked(true, false)
    case SetUserCreationTime(_, _) => false
    case UpdateUserModificationTime(_, _) => false
    case RemoveUser => false
    case _ => true
  }

  /** Without a correct password and user events nothing is reset. The converse fails:
      a correct password that is blocked, expired or lost resets nothing either. */
  lemma OnlyCorrectPasswordsReset(cfg: Config, u: UserId, r: Option<Record>, e: Event)
    requires KeepsCounter(e)
    ensures !Clears(e, Answer(cfg, u, r, e))
  {
  }

  // ----- The guess throttle -----

  ghost predicate WrongAt(cfg: Config, u: UserId, r0: Option<Record>, es: seq<Event>, k: nat)
    requires k < |es|
  {
    es[k].Login? && AnswerAt(cfg, u, r0, es, k) == LoginReply(BadPassword)
  }

  ghost predicate CountedAt(cfg: Config, u: UserId, r0: Option<Record>, es: seq<Event>, a: Time, b: Time, k: nat)
    requires k < |es|
  {
    WrongAt(cfg, u, r0, es, k) && a <= es[k].env.attempt <= b
  }

  /** How many of the first k calls were wrong passwords recorded between a and b. */
  ghost function WrongBetween(cfg: Config, u: UserId, r0: Option<Record>, es: seq<Event>, a: Time, b: Time, k: nat): nat
    requires k <= |es|
  {
    if k == 0 then 0
    else WrongBetween(cfg, u, r0, es, a, b, k - 1)
         + if CountedAt(cfg, u, r0, es, a, b, k - 1) then 1 else 0
  }

  function Attempts(r: Option<Record>): int {
    if r.Some? then r.value.loginAttempts else 0
  }

  /** A recorded wrong password adds one, and beyond the allowed tries it comes at
      least one block after the attempt before it. */
  lemma WrongStep(cfg: Config, u: UserId, r: Option<Record>, now: Time, env: LoginEnv)
    requires cfg.enabled && u !in cfg.pwdUserBlacklist
    requires Inv(r, now) && ValidEvent(now, Login(env))
    requires LoginStep(cfg, u, r, env).1 == BadPassword
    ensures Attempts(LoginStep(cfg, u, r, env).0) == Attempts(r) + 1
    ensures LoginStep(cfg, u, r, env).0.value.lastLoginAttemptTime == Some(env.attempt)
    ensures r.Some? && r.value.loginAttempts > cfg.pwdMaxTries && r.value.lastLoginAttemptTime.Some? ==>
              r.value.lastLoginAttemptTime.value + cfg.Block() <= env.attempt
  {
  }

  lemma OtherStep(cfg: Config, u: UserId, r: Option<Record>, e: Event)
    requires cfg.enabled && !Clears(e, Answer(cfg, u, r, e))
    requires !(e.Login? && LoginStep(cfg, u, r, e.env).1 == BadPassword)
    ensures r.None? <==> Next(cfg, u, r, e).None?
    ensures r.Some? ==> Next(cfg, u, r, e).value.loginAttempts == r.value.loginAttempts
    ensures r.Some? ==> Next(cfg, u, r, e).value.lastLoginAttemptTime == r.value.lastLoginAttemptTime
  {
  }

  /** What the guesses counted so far say about the record. */
  ghost predicate Throttled(cfg: Config, r: Option<Record>, a: Time, b: Time, count: nat) {
    count > 0 ==>
      && r.Some? && r.value.lastLoginAttemptTime.Some?
      && count <= r.value.loginAttempts
      && a <= r.value.lastLoginAttemptTime.value
      && (count > cfg.pwdMaxTries + 1 ==>
            (count - (cfg.pwdMaxTries + 1)) * cfg.Block() <= b - a)
      && (count > cfg.pwdMaxTries + 1 && r.value.lastLoginAttemptTime.value <= b ==>
            (count - (cfg.pwdMaxTries + 1)) * cfg.Block() <= r.value.lastLoginAttemptTime.value - a)
  }

  lemma OneMoreBlock(n: nat, block: int, d: int, d': int)
    requires n * block <= d && d + block <= d'
    ensures (n + 1) * block <= d'
  {
    assert (n + 1) * block == n * block + block;
  }

  lemma CountedWrong(cfg: Config, u: UserId, r: Option<Record>, now: Time, env: LoginEnv, a: Time, b: Time, count: nat)
    requires cfg.enabled && u !in cfg.pwdUserBlacklist && 0 <= cfg.pwdMaxTries
    requires Inv(r, now) && ValidEvent(now, Login(env)) && Throttled(cfg, r, a, b, count)
    requires LoginStep(cfg, u, r, env).1 == BadPassword && a <= env.attempt <= b
    ensures Throttled(cfg, LoginStep(cfg, u, r, env).0, a, b, count + 1)
  {
    WrongStep(cfg, u, r, now, env);
    var allowed := cfg.pwdMaxTries + 1;
    if count >= allowed {
      var last := r.value.lastLoginAttemptTime.value;
      OneMoreBlock(count - allowed, cfg.Block(), last - a, env.attempt - a);
    }
  }

  /** One call keeps the bound, counted or not. */
  lemma ThrottledStep(cfg: Config, u: UserId, r: Option<Record>, now: Time, e: Event, a: Time, b: Time, count: nat)
    requires cfg.enabled && u !in cfg.pwdUserBlacklist && 0 <= cfg.pwdMaxTries
    requires Inv(r, now) && ValidEvent(now, e) && Throttled(cfg, r, a, b, count)
    requires !Clears(e, Answer(cfg, u, r, e))
    ensures var wrong := e.Login? && Answer(cfg, u, r, e) == LoginReply(BadPassword);
            Throttled(cfg, Next(cfg, u, r, e), a, b, count + if wrong && a <= e.env.attempt <= b then 1 else 0)
  {
    if !(e.Login? && Answer(cfg, u, r, e) == LoginReply(BadPassword)) {
      OtherStep(cfg, u, r, e);
    } else if a <= e.env.attempt <= b {
      CountedWrong(cfg, u, r, now, e.env, a, b, count);
    } else {
      WrongStep(cfg, u, r, now, e.env);
    }
  }

  ghost predicate ThrottledAt(cfg: Config, u: UserId, r0: Option<Record>, es: seq<Event>, a: Time, b: Time, k: nat)
    requires k <= |es|
  {
    Throttled(cfg, StateAt(cfg, u, r0, es, k), a, b, WrongBetween(cfg, u, r0, es, a, b, k))
  }

  lemma ThrottledOn(cfg: Config, u: UserId, r0: Option<Record>, t0: Time, es: seq<Event>, a: Time, b: Time, k: nat)
    requires cfg.enabled && u !in cfg.pwdUserBlacklist && 0 <= cfg.pwdMaxTries
    requires Inv(r0, t0) && ValidRun(t0, es) && k < |es| && !ResetAt(cfg, u, r0, es, k)
    requires ThrottledAt(cfg, u, r0, es, a, b, k)
    ensures ThrottledAt(cfg, u, r0, es, a, b, k + 1)
  {
    RunKeepsInv(cfg, u, r0, t0, es, k);
    assert ValidAt(t0, es, k);
    ThrottledStep(cfg, u, StateAt(cfg, u, r0, es, k), ClockAt(t0, es, k), es[k], a, b,
                  WrongBetween(cfg, u, r0, es, a, b, k));
  }

  lemma ThrottledRun(cfg: Config, u: UserId, r0: Option<Record>, t0: Time, es: seq<Event>, a: Time, b: Time, k: nat)
    requires cfg.enabled && u !in cfg.pwdUserBlacklist && 0 <= cfg.pwdMaxTries
    requires Inv(r0, t0) && ValidRun(t0, es) && NoReset(cfg, u, r0, es) && k <= |es|
    ensures ThrottledAt(cfg, u, r0, es, a, b, k)
  {
    for i := 0 to k
      invariant ThrottledAt(cfg, u, r0, es, a, b, i)
    {
      assert !ResetAt(cfg, u, r0, es, i);
      ThrottledOn(cfg, u, r0, t0, es, a, b, i);
    }
  }

  /** While nothing resets the counter, at most `pwd_max_tries + 1` guesses, plus one for
      each whole block the interval holds, are recorded between a and b. */
  lemma GuessThrottle(cfg: Config, u: UserId, r0: Option<Record>, t0: Time, es: seq<Event>, a: Time, b: Time)
    requires cfg.enabled && u !in cfg.pwdUserBlacklist && 0 <= cfg.pwdMaxTries && 1 <= cfg.pwdBlockMinutes
    requires Inv(r0, t0) && ValidRun(t0, es) && NoReset(cfg, u, r0, es) && a <= b
    ensures WrongBetween(cfg, u, r0, es, a, b, |es|) <= cfg.pwdMaxTries + 1 + (b - a) / cfg.Block()
  {
    ThrottledRun(cfg, u, r0, t0, es, a, b, |es|);
    ThrottledBound(cfg, StateAt(cfg, u, r0, es, |es|), a, b, WrongBetween(cfg, u, r0, es, a, b, |es|));
  }

  lemma ThrottledBound(cfg: Config, r: Option<Record>, a: Time, b: Time, count: nat)
    requires Throttled(cfg, r, a, b, count) && 0 <= cfg.pwdMaxTries && 1 <= cfg.pwdBlockMinutes && a <= b
    ensures count <= cfg.pwdMaxTries + 1 + (b - a) / cfg.Block()
  {
    var extra := if count > cfg.pwdMaxTries + 1 then count - (cfg.pwdMaxTries + 1) else 0;
    QuotientBound(extra, cfg.Block(), b - a);
  }

  lemma QuotientBound(n: nat, block: int, d: int)
    requires 0 < block && n * block <= d
    ensures n <= d / block
  {
    var q := d / block;
    assert d < (q + 1) * block;
    if q < n {
      Monotone(q + 1, n, block);
    }
  }

  lemma Monotone(x: int, y: int, block: int)
    requires x <= y && 0 < block
    ensures x * block <= y * block
  {
  }

  // ----- The bound is attained -----

  /** When the i-th guess of the fastest attack is made: the allowed tries at once,
      then one each time a block ends. */
  function GuessTime(cfg: Config, t: Time, i: nat): Time {
    if i <= cfg.pwdMaxTries then t else t + (i - cfg.pwdMaxTries) * cfg.Block()
  }

  function Guess(t: Time, user: DirUser): Event {
    Login(LoginEnv(t, t, t, t, t, t, PasswordChecked(false, false), Some(user), "abc", MailSent))
  }

  /** n guesses; after the first one the user is put on the expiry blacklist, or is
      explicitly left off it. */
  function Schedule(cfg: Config, t: Time, user: DirUser, n: nat, exempt: bool): (es: seq<Event>)
    ensures |es| == n + 1
    ensures forall i :: 0 <= i <= n ==> es[i] == Scheduled(cfg, t, user, exempt, i)
  {
    seq(n + 1, i requires 0 <= i <= n => Scheduled(cfg, t, user, exempt, i))
  }

  function Scheduled(cfg: Config, t: Time, user: DirUser, exempt: bool, i: nat): Event {
    if i == 1 then ModifyBlack(exempt) else Guess(GuessTime(cfg, t, Guesses(i)), user)
  }

  /** How many of the first k scheduled calls are guesses. */
  function Guesses(k: nat): nat {
    if k <= 1 then k else k - 1
  }

  lemma GuessTimeGap(cfg: Config, t: Time, i: nat)
    requires 0 <= cfg.pwdMaxTries && 1 <= cfg.pwdBlockMinutes && 1 <= cfg.Block()
    ensures GuessTime(cfg, t, i + 1) == GuessTime(cfg, t, i) + if i < cfg.pwdMaxTries then 0 else cfg.Block()
    ensures t <= GuessTime(cfg, t, i) <= GuessTime(cfg, t, i + 1)
  {
    if i >= cfg.pwdMaxTries {
      var n := i - cfg.pwdMaxTries;
      assert (n + 1) * cfg.Block() == n * cfg.Block() + cfg.Block();
      Monotone(0, n, cfg.Block());
    }
  }

  lemma {:induction false} GuessTimeUpTo(cfg: Config, t: Time, i: nat, j: nat)
    requires 0 <= cfg.pwdMaxTries && 1 <= cfg.pwdBlockMinutes && i <= j
    ensures t <= GuessTime(cfg, t, i) <= GuessTime(cfg, t, j)
  {
    GuessTimeGap(cfg, t, j);
    if i < j {
      GuessTimeUpTo(cfg, t, i, j - 1);
      GuessTimeGap(cfg, t, j - 1);
    }
  }

  /** The record after k scheduled calls. */
  function ScheduledRecord(cfg: Config, t: Time, user: DirUser, exempt: bool, k: nat): Option<Record> {
    if k == 0 then None
    else if k == 1 then Some(NewRecord(user, t, 1, Some(t)))
    else Some(NewRecord(user, t, k - 1, Some(GuessTime(cfg, t, k - 2))).(extra := map["black" := Str(exempt)]))
  }

  ghost predicate CanGuess(cfg: Config, u: UserId, t: Time, n: nat, exempt: bool) {
    && cfg.enabled && u !in cfg.pwdUserBlacklist && 0 <= cfg.pwdMaxTries && 1 <= cfg.pwdBlockMinutes && 0 < n
    && (exempt || GuessTime(cfg, t, n - 1) - t <= cfg.Expiry())
  }

  /** A guess at a registered user is evaluated, found wrong and recorded. */
  lemma GuessStep(cfg: Config, u: UserId, row: Record, now: Time, user: DirUser, exempt: bool)
    requires cfg.enabled && Black(row.extra) == Some(exempt) && row.creationTime.Some?
    requires exempt || now - row.creationTime.value <= cfg.Expiry()
    requires row.lastLoginAttemptTime.Some?
    requires row.loginAttempts > cfg.pwdMaxTries ==> row.lastLoginAttemptTime.value + cfg.Block() <= now
    ensures Answer(cfg, u, Some(row), Guess(now, user)) == LoginReply(BadPassword)
    ensures Next(cfg, u, Some(row), Guess(now, user)) == Some(RecordAttempt(row, row.loginAttempts + 1, now))
  {
  }

  lemma ScheduledStep(cfg: Config, u: UserId, t: Time, user: DirUser, n: nat, exempt: bool, k: nat)
    requires CanGuess(cfg, u, t, n, exempt) && k <= n
    ensures Next(cfg, u, ScheduledRecord(cfg, t, user, exempt, k), Scheduled(cfg, t, user, exempt, k))
            == ScheduledRecord(cfg, t, user, exempt, k + 1)
    ensures k != 1 ==>
              Answer(cfg, u, ScheduledRecord(cfg, t, user, exempt, k), Scheduled(cfg, t, user, exempt, k))
              == LoginReply(BadPassword)
  {
    if k > 1 {
      GuessTimeGap(cfg, t, k - 2);
      GuessTimeUpTo(cfg, t, k - 1, n - 1);
      GuessStep(cfg, u, ScheduledRecord(cfg, t, user, exempt, k).value, GuessTime(cfg, t, k - 1), user, exempt);
    }
  }

  lemma {:induction false} ScheduleRun(cfg: Config, u: UserId, t: Time, user: DirUser, n: nat, exempt: bool, k: nat)
    requires CanGuess(cfg, u, t, n, exempt) && k <= n + 1
    ensures StateAt(cfg, u, None, Schedule(cfg, t, user, n, exempt), k) == ScheduledRecord(cfg, t, user, exempt, k)
  {
    if k > 0 {
      ScheduleRun(cfg, u, t, user, n, exempt, k - 1);
      ScheduledStep(cfg, u, t, user, n, exempt, k - 1);
    }
  }

  lemma {:induction false} ScheduleCount(cfg: Config, u: UserId, t: Time, user: DirUser, n: nat, exempt: bool, k: nat)
    requires CanGuess(cfg, u, t, n, exempt) && k <= n + 1
    ensures WrongBetween(cfg, u, None, Schedule(cfg, t, user, n, exempt), t, GuessTime(cfg, t, n - 1), k) == Guesses(k)
  {
    if k > 0 {
      ScheduleCount(cfg, u, t, user, n, exempt, k - 1);
      ScheduleRun(cfg, u, t, user, n, exempt, k - 1);
      ScheduledStep(cfg, u, t, user, n, exempt, k - 1);
      if k != 2 {
        GuessTimeUpTo(cfg, t, Guesses(k - 1), n - 1);
      }
    }
  }

  lemma {:induction false} ScheduleClock(cfg: Config, t: Time, user: DirUser, n: nat, exempt: bool, k: nat)
    requires 0 <= cfg.pwdMaxTries && 1 <= cfg.pwdBlockMinutes && 0 < n && k <= n + 1
    ensures ClockAt(t, Schedule(cfg, t, user, n, exempt), k)
            == if k == 0 then t else GuessTime(cfg, t, Guesses(k) - 1)
    ensures k <= n ==> ValidAt(t, Schedule(cfg, t, user, n, exempt), k)
  {
    if k > 0 {
      ScheduleClock(cfg, t, user, n, exempt, k - 1);
      GuessTimeGap(cfg, t, Guesses(k) - 1);
    }
  }

  lemma ScheduleAttains(cfg: Config, u: UserId, t: Time, user: DirUser, n: nat, exempt: bool, b: Time)
    requires CanGuess(cfg, u, t, n, exempt) && b == GuessTime(cfg, t, n - 1)
    ensures var es := Schedule(cfg, t, user, n, exempt);
            && ValidRun(t, es) && WrongBetween(cfg, u, None, es, t, b, |es|) == n
            && forall i :: 0 <= i < |es| ==> KeepsCounter(es[i]) && (es[i].ModifyBlack? ==> es[i].enable == exempt)
  {
    ScheduleCount(cfg, u, t, user, n, exempt, n + 1);
    forall k: nat | k < n + 1
      ensures ValidAt(t, Schedule(cfg, t, user, n, exempt), k)
    {
      ScheduleClock(cfg, t, user, n, exempt, k);
    }
  }

  /** No smaller bound holds: for every number of blocks some run without a correct
      password or user event records exactly as many guesses as the throttle allows.
      The user is on the expiry blacklist, or the blocks fit in the password's life. */
  lemma ThrottleIsTight(cfg: Config, u: UserId, t: Time, user: DirUser, blocks: nat, exempt: bool)
      returns (es: seq<Event>)
    requires cfg.enabled && u !in cfg.pwdUserBlacklist && 0 <= cfg.pwdMaxTries && 1 <= cfg.pwdBlockMinutes
    requires exempt || blocks * cfg.Block() <= cfg.Expiry()
    ensures ValidRun(t, es)
    ensures forall i :: 0 <= i < |es| ==> KeepsCounter(es[i]) && (es[i].ModifyBlack? ==> es[i].enable == exempt)
    ensures WrongBetween(cfg, u, None, es, t, t + blocks * cfg.Block(), |es|)
            == cfg.pwdMaxTries + 1 + blocks
  {
    var n := cfg.pwdMaxTries + 1 + blocks;
    var b := t + blocks * cfg.Block();
    assert GuessTime(cfg, t, n - 1) == b by {
      LastGuess(cfg, t, blocks);
    }
    es := Schedule(cfg, t, user, n, exempt);
    ScheduleAttains(cfg, u, t, user, n, exempt, b);
  }

  lemma LastGuess(cfg: Config, t: Time, blocks: nat)
    requires 0 <= cfg.pwdMaxTries
    ensures GuessTime(cfg, t, cfg.pwdMaxTries + blocks) == t + blocks * cfg.Block()
  {
    if blocks == 0 {
      assert blocks * cfg.Block() == 0;
    }
  }

  // ----- The block -----

  /** Calls a blocked user can see before the block that ends at `until` is over:
      anything but a user event, and no login from that time on. */
  ghost predicate DuringBlock(e: Event, until: Time) {
    match e
    case Login(env) => env.gate < until
    case SetUserCreationTime(_, _) => false
    case UpdateUserModificationTime(_, _) => false
    case RemoveUser => false
    case _ => true
  }

  ghost predicate LockedSince(cfg: Config, r: Option<Record>, last: Time) {
    r.Some? && r.value.loginAttempts > cfg.pwdMaxTries && r.value.lastLoginAttemptTime == Some(last)
  }

  lemma LockedLogin(cfg: Config, u: UserId, r: Option<Record>, last: Time, env: LoginEnv)
    requires cfg.enabled && u !in cfg.pwdUserBlacklist && LockedSince(cfg, r, last)
    ensures LoginStep(cfg, u, r, env).1 == Blocked <==> env.gate < last + cfg.Block()
    ensures env.gate < last + cfg.Block() ==> LoginStep(cfg, u, r, env).0 == r
    ensures env.gate >= last + cfg.Block() ==> LockoutGate(cfg, u, r, env.gate) == Pass
  {
  }

  lemma LockedStep(cfg: Config, u: UserId, r: Option<Record>, last: Time, e: Event)
    requires cfg.enabled && u !in cfg.pwdUserBlacklist && LockedSince(cfg, r, last)
    requires DuringBlock(e, last + cfg.Block())
    ensures LockedSince(cfg, Next(cfg, u, r, e), last)
    ensures Next(cfg, u, r, e).value.loginAttempts == r.value.loginAttempts
    ensures e.Login? ==> Answer(cfg, u, r, e) == LoginReply(Blocked) && Next(cfg, u, r, e) == r
  {
    if e.Login? {
      LockedLogin(cfg, u, r, last, e.env);
    }
  }

  /** While the block lasts every login, right or wrong, is rejected and leaves the
      record as it was, so hitting the block cannot extend it. */
  lemma {:induction false} BlockHolds(cfg: Config, u: UserId, r0: Option<Record>, es: seq<Event>, last: Time, k: nat)
    requires cfg.enabled && u !in cfg.pwdUserBlacklist && k <= |es|
    requires LockedSince(cfg, r0, last)
    requires forall i :: 0 <= i < |es| ==> DuringBlock(es[i], last + cfg.Block())
    ensures LockedSince(cfg, StateAt(cfg, u, r0, es, k), last)
    ensures StateAt(cfg, u, r0, es, k).value.loginAttempts == r0.value.loginAttempts
    ensures k < |es| && es[k].Login? ==>
              && AnswerAt(cfg, u, r0, es, k) == LoginReply(Blocked)
              && StateAt(cfg, u, r0, es, k + 1) == StateAt(cfg, u, r0, es, k)
  {
    if k > 0 {
      BlockHolds(cfg, u, r0, es, last, k - 1);
      LockedStep(cfg, u, StateAt(cfg, u, r0, es, k - 1), last, es[k - 1]);
    }
    if k < |es| {
      LockedStep(cfg, u, StateAt(cfg, u, r0, es, k), last, es[k]);
    }
  }

  /** After any such calls, a login is turned away by the block exactly when its
      clock read at the gate is before the end of the block. */
  lemma BlockIsExact(cfg: Config, u: UserId, r0: Option<Record>, es: seq<Event>, last: Time, env: LoginEnv)
    requires cfg.enabled && u !in cfg.pwdUserBlacklist
    requires LockedSince(cfg, r0, last)
    requires forall i :: 0 <= i < |es| ==> DuringBlock(es[i], last + cfg.Block())
    ensures Answer(cfg, u, StateAt(cfg, u, r0, es, |es|), Login(env)) == LoginReply(Blocked)
            <==> env.gate < last + cfg.Block()
    ensures env.gate >= last + cfg.Block() ==>
              LockoutGate(cfg, u, StateAt(cfg, u, r0, es, |es|), env.gate) == Pass
  {
    BlockHolds(cfg, u, r0, es, last, |es|);
    LockedLogin(cfg, u, StateAt(cfg, u, r0, es, |es|), last, env);
  }

  // ----- What the counter counts -----

  /** The index just after the last reset among the first k calls. */
  ghost function SinceReset(cfg: Config, u: UserId, es: seq<Event>, k: nat): (i: nat)
    requires k <= |es|
    ensures i <= k
    ensures forall j :: i <= j < k ==> !ResetAt(cfg, u, None, es, j)
    ensures i > 0 ==> ResetAt(cfg, u, None, es, i - 1)
  {
    if k == 0 then 0 else if ResetAt(cfg, u, None, es, k - 1) then k else SinceReset(cfg, u, es, k - 1)
  }

  ghost function CountWrong(cfg: Config, u: UserId, es: seq<Event>, i: nat, k: nat): nat
    requires i <= k <= |es|
    decreases k
  {
    if i == k then 0
    else CountWrong(cfg, u, es, i, k - 1) + if WrongAt(cfg, u, None, es, k - 1) then 1 else 0
  }

  lemma CounterStep(cfg: Config, u: UserId, r: Option<Record>, e: Event)
    requires cfg.enabled
    ensures Clears(e, Answer(cfg, u, r, e)) ==> Attempts(Next(cfg, u, r, e)) == 0
    ensures !Clears(e, Answer(cfg, u, r, e)) ==>
              Attempts(Next(cfg, u, r, e))
              == Attempts(r) + if e.Login? && Answer(cfg, u, r, e) == LoginReply(BadPassword) then 1 else 0
  {
  }

  /** The counter is the number of wrong-password answers since the last reset.
      Blocked, expired and failed calls count for nothing. */
  lemma {:induction false} CounterIsHistory(cfg: Config, u: UserId, es: seq<Event>, k: nat)
    requires cfg.enabled && k <= |es|
    ensures Attempts(StateAt(cfg, u, None, es, k)) == CountWrong(cfg, u, es, SinceReset(cfg, u, es, k), k)
  {
    if k > 0 {
      CounterIsHistory(cfg, u, es, k - 1);
      CounterStep(cfg, u, StateAt(cfg, u, None, es, k - 1), es[k - 1]);
    }
  }

  /** A successful login reports that number, and a blocked one proves that it is at
      least `pwd_max_tries + 1`. */
  lemma ReportedAttempts(cfg: Config, u: UserId, es: seq<Event>, k: nat)
    requires cfg.enabled && k < |es| && es[k].Login?
    ensures AnswerAt(cfg, u, None, es, k).out.Success? ==>
              && AnswerAt(cfg, u, None, es, k).out.extras.Some?
              && AnswerAt(cfg, u, None, es, k).out.extras.value.previousLoginAttempts
                 == CountWrong(cfg, u, es, SinceReset(cfg, u, es, k), k)
    ensures AnswerAt(cfg, u, None, es, k).out == Blocked ==>
              CountWrong(cfg, u, es, SinceReset(cfg, u, es, k), k) >= cfg.pwdMaxTries + 1
  {
    CounterIsHistory(cfg, u, es, k);
  }

  /** A correct password clears the counter exactly when the call is not lost while
      mailing a challenge: the user has an e-mail address and the mail server does
      not raise. */
  lemma CorrectPasswordClears(cfg: Config, u: UserId, r: Option<Record>, env: LoginEnv)
    requires cfg.enabled && r.Some? && r.value.creationTime.Some? && r.value.loginAttempts > 0
    requires LockoutGate(cfg, u, r, env.gate) == Pass && BaseAuthenticate(cfg, u, r, env) == Right
    ensures Attempts(LoginStep(cfg, u, r, env).0) == 0 <==>
              (NeedsCode(cfg, r.value, env) ==>
                 env.user.Some? && env.user.value.email.Some? && !env.mail.MailRaises?)
  {
  }
}
