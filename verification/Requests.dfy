/**
 The whole service: what its requests answer, tied to the runs of driver calls and to
 their history, and the guess throttle as the clients see it.
 */
module Requests {
  import opened Model
  import opened Steps
  import opened Runs
  import opened Workflows
  import opened Projection
  import opened Lockout
  import opened History

  ghost predicate ValidService(cfg: Config, s: Service, reqs: seq<Request>) {
    forall i: nat :: i < |reqs| ==> ValidRequestAt(cfg, s, reqs, i)
  }

  /** The record of u that request k finds. */
  ghost function RecordAt(cfg: Config, s: Service, reqs: seq<Request>, u: UserId, k: nat): Option<Record>
    requires k <= |reqs|
  {
    Lookup(ServiceAt(cfg, s, reqs, k).rows, u)
  }

  /** The driver calls of request k. */
  ghost function EventsAt(cfg: Config, s: Service, reqs: seq<Request>, k: nat): seq<Event>
    requires k < |reqs|
  {
    Events(cfg, RecordAt(cfg, s, reqs, reqs[k].user, k), reqs[k].call)
  }

  /** What request k answered. */
  ghost function ResultAt(cfg: Config, s: Service, reqs: seq<Request>, k: nat): ApiResult
    requires k < |reqs|
  {
    Result(cfg, reqs[k].user, RecordAt(cfg, s, reqs, reqs[k].user, k), reqs[k].call)
  }

  // ----- Results come from the answers of the driver -----

  /** The result of a request, given whether the user's e-mail is verified and what
      the first driver call of the operation answered. */
  function Outcome(cfg: Config, checked: bool, reply: Reply, call: ApiCall): ApiResult {
    match call
    case Authenticate(_) => if reply.LoginReply? then LoginResult(reply.out) else Failed
    case UserCreated(user, _) => if user.None? then NotFound else Ok
    case UserUpdated(user, _) => if user.None? then NotFound else Ok
    case UserDeleted => Ok
    case Reset(user, _, update, _, mail) =>
      if user.None? then NotFound
      else if reply != Flag(true) || update.UpdateAssertion? then Unauthorized
      else if update.UpdateRaises? || !HasEmail(user) || mail.MailRaises? then Failed
      else Ok
    case AskCheckEmail(user, _, mail) =>
      if user.None? then NotFound else if !HasEmail(user) then Unauthorized else Mail(mail)
    case CheckEmail(user, _) =>
      if user.None? then NotFound else if HasEmail(user) && reply == Flag(true) then Ok else Unauthorized
    case Recover(user, _, mail) =>
      if !Configured(cfg) then NotConfigured
      else if user.None? then NotFound
      else if !HasEmail(user) || !checked then Unauthorized
      else Mail(mail)
    case SetSndfa(user, body) =>
      if !Configured(cfg) then NotConfigured
      else if user.None? then NotFound
      else if !HasEmail(user) || !checked then Unauthorized
      else if Enable(body).None? then Invalid
      else Modified(reply == Flag(true))
    case CheckSndfa(user, _, _) =>
      if !Configured(cfg) then NotConfigured
      else if user.None? then NotFound
      else if checked && reply == Flag(true) then Ok
      else Unauthorized
    case SetBlack(user, body) =>
      if !Configured(cfg) then NotConfigured
      else if user.None? then NotFound
      else if Enable(body).None? then Invalid
      else Modified(reply == Flag(true))
  }

  lemma ResultIsOutcome(cfg: Config, u: UserId, r: Option<Record>, call: ApiCall)
    ensures var es := Events(cfg, r, call);
            Result(cfg, u, r, call)
            == Outcome(cfg, EmailChecked(r), if es == [] then Done else Answer(cfg, u, r, es[0]), call)
  {
  }

  lemma {:induction false} TraceGrows(cfg: Config, s: Service, reqs: seq<Request>, u: UserId, j: nat, k: nat)
    requires j <= k <= |reqs|
    ensures TraceOf(cfg, s, reqs, u, j) <= TraceOf(cfg, s, reqs, u, k)
  {
    if j < k {
      TraceGrows(cfg, s, reqs, u, j, k - 1);
    }
  }

  /** Call m of `more` is call n + m of the run `all`, and answers there what it answers
      in a run from r. */
  ghost predicate Stands(cfg: Config, u: UserId, r0: Option<Record>, all: seq<Event>, n: nat,
                         r: Option<Record>, more: seq<Event>, m: nat)
    requires m < |more|
  {
    && n + m < |all| && all[n + m] == more[m]
    && AnswerAt(cfg, u, r0, all, n + m) == AnswerAt(cfg, u, r, more, m)
  }

  lemma SegmentAnswers(cfg: Config, u: UserId, r0: Option<Record>, es: seq<Event>, r: Option<Record>, more: seq<Event>,
                       all: seq<Event>, m: nat)
    requires es + more <= all && r == StateAt(cfg, u, r0, es, |es|) && m < |more|
    ensures Stands(cfg, u, r0, all, |es|, r, more, m)
  {
    assert all == es + more + all[|es + more|..];
    AnswersCompose(cfg, u, r0, es + more, all[|es + more|..], |es| + m);
    AnswersCompose(cfg, u, r0, es, more, |es| + m);
  }

  lemma RunOn(cfg: Config, u: UserId, r0: Option<Record>, es: seq<Event>, r: Option<Record>, more: seq<Event>)
    requires StateAt(cfg, u, r0, es, |es|) == r
    ensures StateAt(cfg, u, r0, es + more, |es + more|) == StateAt(cfg, u, r, more, |more|)
  {
    RunsCompose(cfg, u, r0, es, more, |more|);
  }

  /** One request takes the record as its driver calls do. */
  lemma ReachStep(cfg: Config, u: UserId, r0: Option<Record>, es: seq<Event>, s: Service, req: Request)
    requires StateAt(cfg, u, r0, es, |es|) == Lookup(s.rows, u)
    ensures var all := es + if req.user == u then Events(cfg, Lookup(s.rows, u), req.call) else [];
            StateAt(cfg, u, r0, all, |all|) == Lookup(Serve(cfg, s, req).rows, u)
  {
    OtherUsersStay(cfg, s.rows, req.user, req.call, u);
    if req.user == u {
      RunOn(cfg, u, r0, es, Lookup(s.rows, u), Events(cfg, Lookup(s.rows, u), req.call));
    } else {
      assert es + [] == es;
    }
  }

  lemma {:induction false} TraceReaches(cfg: Config, s: Service, reqs: seq<Request>, u: UserId, k: nat)
    requires k <= |reqs|
    ensures StateAt(cfg, u, Lookup(s.rows, u), TraceOf(cfg, s, reqs, u, k), |TraceOf(cfg, s, reqs, u, k)|)
            == RecordAt(cfg, s, reqs, u, k)
  {
    if k > 0 {
      TraceReaches(cfg, s, reqs, u, k - 1);
      ReachStep(cfg, u, Lookup(s.rows, u), TraceOf(cfg, s, reqs, u, k - 1), ServiceAt(cfg, s, reqs, k - 1),
                reqs[k - 1]);
    }
  }

  lemma EventsStand(cfg: Config, s: Service, reqs: seq<Request>, u: UserId, k: nat)
    requires k < |reqs| && reqs[k].user == u
    ensures TraceOf(cfg, s, reqs, u, k) + EventsAt(cfg, s, reqs, k) <= TraceOf(cfg, s, reqs, u, |reqs|)
  {
    TraceGrows(cfg, s, reqs, u, k + 1, |reqs|);
  }

  /** The driver calls of request k, and their answers, stand in the user's run. */
  lemma AnswersLift(cfg: Config, s: Service, reqs: seq<Request>, u: UserId, k: nat, m: nat)
    requires k < |reqs| && reqs[k].user == u && m < |EventsAt(cfg, s, reqs, k)|
    ensures Stands(cfg, u, Lookup(s.rows, u), TraceOf(cfg, s, reqs, u, |reqs|), |TraceOf(cfg, s, reqs, u, k)|,
                   RecordAt(cfg, s, reqs, u, k), EventsAt(cfg, s, reqs, k), m)
  {
    TraceReaches(cfg, s, reqs, u, k);
    EventsStand(cfg, s, reqs, u, k);
    SegmentAnswers(cfg, u, Lookup(s.rows, u), TraceOf(cfg, s, reqs, u, k), RecordAt(cfg, s, reqs, u, k),
                   EventsAt(cfg, s, reqs, k), TraceOf(cfg, s, reqs, u, |reqs|), m);
  }

  /** What the first driver call of request k answers, as it stands in the user's run. */
  ghost function ReplyAt(cfg: Config, s: Service, reqs: seq<Request>, k: nat): Reply
    requires k < |reqs|
  {
    var u := reqs[k].user;
    var es, n := TraceOf(cfg, s, reqs, u, |reqs|), |TraceOf(cfg, s, reqs, u, k)|;
    if EventsAt(cfg, s, reqs, k) != [] && n < |es| then AnswerAt(cfg, u, Lookup(s.rows, u), es, n) else Done
  }

  lemma ReplyLift(cfg: Config, s: Service, reqs: seq<Request>, k: nat)
    requires k < |reqs|
    ensures var more := EventsAt(cfg, s, reqs, k);
            ReplyAt(cfg, s, reqs, k)
            == if more == [] then Done
               else Answer(cfg, reqs[k].user, RecordAt(cfg, s, reqs, reqs[k].user, k), more[0])
  {
    if EventsAt(cfg, s, reqs, k) != [] {
      AnswersLift(cfg, s, reqs, reqs[k].user, k, 0);
      assert StateAt(cfg, reqs[k].user, RecordAt(cfg, s, reqs, reqs[k].user, k), EventsAt(cfg, s, reqs, k), 0)
             == RecordAt(cfg, s, reqs, reqs[k].user, k);
    }
  }

  /** In any run of the whole service every result is that of the user's own run: the
      answer standing there to the first driver call of the request decides it, and
      whether the run so far left the e-mail verified. */
  lemma ResultsAreOfRuns(cfg: Config, s: Service, reqs: seq<Request>, u: UserId, k: nat)
    requires k < |reqs| && reqs[k].user == u
    ensures var es := TraceOf(cfg, s, reqs, u, k);
            ResultAt(cfg, s, reqs, k)
            == Outcome(cfg, EmailChecked(StateAt(cfg, u, Lookup(s.rows, u), es, |es|)), ReplyAt(cfg, s, reqs, k),
                       reqs[k].call)
  {
    TraceReaches(cfg, s, reqs, u, k);
    ReplyLift(cfg, s, reqs, k);
    ResultIsOutcome(cfg, u, RecordAt(cfg, s, reqs, u, k), reqs[k].call);
  }

  // ----- Results are history -----

  /** The answer of the first driver call, told from the facts. */
  function ToldFirst(cfg: Config, f: Facts, call: ApiCall): Reply {
    match call
    case Authenticate(env) => Told(cfg, f, Login(env))
    case Reset(_, code, _, _, _) => Told(cfg, f, CheckEmailCode(code))
    case CheckEmail(_, code) => Told(cfg, f, CheckEmailCode(code))
    case CheckSndfa(_, code, t) => Told(cfg, f, CheckSndfaCode(code, t))
    case SetSndfa(_, Boolean(value)) => Told(cfg, f, ModifySndfa(value))
    case SetSndfa(_, _) => Told(cfg, f, ModifySndfa(false))
    case SetBlack(_, Boolean(value)) => Told(cfg, f, ModifyBlack(value))
    case SetBlack(_, _) => Told(cfg, f, ModifyBlack(false))
    case _ => Done
  }

  lemma ResultIsTold(cfg: Config, u: UserId, r: Option<Record>, now: Time, call: ApiCall)
    requires cfg.enabled && Inv(r, now)
    ensures Result(cfg, u, r, call)
            == Outcome(cfg, FactsOf(cfg, u, r).email, ToldFirst(cfg, FactsOf(cfg, u, r), call), call)
  {
    ResultIsOutcome(cfg, u, r, call);
    var es := Events(cfg, r, call);
    if es != [] {
      AnswerIsTold(cfg, u, r, now, es[0]);
    }
  }

  /** Starting from an empty table, every result of every request in every run of the
      service is told from the driver calls made about that user and their answers. */
  lemma ResultsAreHistory(cfg: Config, t0: Time, reqs: seq<Request>, u: UserId, k: nat)
    requires cfg.enabled && k < |reqs| && reqs[k].user == u && ValidService(cfg, Service(map[], t0), reqs)
    ensures var es := TraceOf(cfg, Service(map[], t0), reqs, u, k);
            var f := FactsAt(cfg, u, es, |es|);
            ResultAt(cfg, Service(map[], t0), reqs, k)
            == Outcome(cfg, f.email, ToldFirst(cfg, f, reqs[k].call), reqs[k].call)
  {
    var s := Service(map[], t0);
    var es := TraceOf(cfg, s, reqs, u, k);
    ServiceRunsAreRuns(cfg, s, reqs, u, k);
    ReachableTables(cfg, t0, reqs, u, k);
    FactsAreHistory(cfg, u, t0, es, |es|);
    ResultIsTold(cfg, u, RecordAt(cfg, s, reqs, u, k), ServiceAt(cfg, s, reqs, k).now, reqs[k].call);
  }

  // ----- The guess throttle of the service -----

  /** The request cleared the counter, as its result shows: a login that got past the
      password, a user event, or a password reset that went through the update. */
  predicate ClearsCounter(call: ApiCall, result: ApiResult) {
    match call
    case Authenticate(_) =>
      result.LoginResult? && (result.out.Success? || result.out.Challenge? || result.out.EmailUnverified?)
    case UserCreated(user, _) => user.Some?
    case UserUpdated(user, _) => user.Some?
    case UserDeleted => true
    case Reset(_, _, update, _, _) => update.UpdateOk? && (result.Ok? || result.Failed?)
    case _ => false
  }

  lemma ClearsIff(cfg: Config, u: UserId, r: Option<Record>, call: ApiCall)
    requires cfg.enabled
    ensures NoReset(cfg, u, r, Events(cfg, r, call)) <==> !ClearsCounter(call, Result(cfg, u, r, call))
  {
    var es := Events(cfg, r, call);
    assert |es| <= 2;
    assert |es| > 0 ==> StateAt(cfg, u, r, es, 0) == r;
    assert |es| > 0 ==> (ResetAt(cfg, u, r, es, 0) <==> Clears(es[0], Answer(cfg, u, r, es[0])));
    assert call.Reset? && |es| == 2 ==> ResetAt(cfg, u, r, es, 1);
  }

  ghost predicate ClearsFor(cfg: Config, s: Service, req: Request, u: UserId) {
    req.user == u && ClearsCounter(req.call, Result(cfg, u, Lookup(s.rows, u), req.call))
  }

  ghost predicate ClearedAt(cfg: Config, s: Service, reqs: seq<Request>, u: UserId, k: nat)
    requires k < |reqs|
  {
    ClearsFor(cfg, ServiceAt(cfg, s, reqs, k), reqs[k], u)
  }

  ghost predicate NoneClears(cfg: Config, s: Service, reqs: seq<Request>, u: UserId) {
    forall i: nat :: i < |reqs| ==> !ClearedAt(cfg, s, reqs, u, i)
  }

  /** A login with the attempt between a and b that was told a wrong password. */
  predicate IsGuess(call: ApiCall, result: ApiResult, a: Time, b: Time) {
    call.Authenticate? && a <= call.env.attempt <= b && result == LoginResult(BadPassword)
  }

  ghost predicate GuessesFor(cfg: Config, s: Service, req: Request, u: UserId, a: Time, b: Time) {
    req.user == u && IsGuess(req.call, Result(cfg, u, Lookup(s.rows, u), req.call), a, b)
  }

  ghost predicate GuessedAt(cfg: Config, s: Service, reqs: seq<Request>, u: UserId, a: Time, b: Time, k: nat)
    requires k < |reqs|
  {
    GuessesFor(cfg, ServiceAt(cfg, s, reqs, k), reqs[k], u, a, b)
  }

  /** How many of the first k requests were told a wrong password of u, between a and b. */
  ghost function GuessesOf(cfg: Config, s: Service, reqs: seq<Request>, u: UserId, a: Time, b: Time, k: nat): nat
    requires k <= |reqs|
  {
    if k == 0 then 0
    else GuessesOf(cfg, s, reqs, u, a, b, k - 1) + if GuessedAt(cfg, s, reqs, u, a, b, k - 1) then 1 else 0
  }

  lemma CountedInPrefix(cfg: Config, u: UserId, r0: Option<Record>, es: seq<Event>, more: seq<Event>,
                        a: Time, b: Time, k: nat)
    requires k < |es|
    ensures CountedAt(cfg, u, r0, es + more, a, b, k) <==> CountedAt(cfg, u, r0, es, a, b, k)
  {
    AnswersCompose(cfg, u, r0, es, more, k);
  }

  lemma CountedBeyond(cfg: Config, u: UserId, r0: Option<Record>, es: seq<Event>, r: Option<Record>, more: seq<Event>,
                      a: Time, b: Time, m: nat)
    requires r == StateAt(cfg, u, r0, es, |es|) && m < |more|
    ensures CountedAt(cfg, u, r0, es + more, a, b, |es| + m) <==> CountedAt(cfg, u, r, more, a, b, m)
  {
    AnswersBeyond(cfg, u, r0, es, r, more, m);
  }

  lemma AnswersBeyond(cfg: Config, u: UserId, r0: Option<Record>, es: seq<Event>, r: Option<Record>, more: seq<Event>,
                      m: nat)
    requires r == StateAt(cfg, u, r0, es, |es|) && m < |more|
    ensures (es + more)[|es| + m] == more[m]
    ensures AnswerAt(cfg, u, r0, es + more, |es| + m) == AnswerAt(cfg, u, r, more, m)
  {
    AnswersCompose(cfg, u, r0, es, more, |es| + m);
  }

  lemma {:induction false} WrongsInPrefix(cfg: Config, u: UserId, r0: Option<Record>, es: seq<Event>, more: seq<Event>,
                                          a: Time, b: Time, k: nat)
    requires k <= |es|
    ensures WrongBetween(cfg, u, r0, es + more, a, b, k) == WrongBetween(cfg, u, r0, es, a, b, k)
  {
    if k > 0 {
      WrongsInPrefix(cfg, u, r0, es, more, a, b, k - 1);
      CountedInPrefix(cfg, u, r0, es, more, a, b, k - 1);
    }
  }

  lemma {:induction false} WrongsCompose(cfg: Config, u: UserId, r0: Option<Record>, es: seq<Event>, r: Option<Record>,
                                         more: seq<Event>, a: Time, b: Time, m: nat)
    requires r == StateAt(cfg, u, r0, es, |es|) && m <= |more|
    ensures WrongBetween(cfg, u, r0, es + more, a, b, |es| + m)
            == WrongBetween(cfg, u, r0, es, a, b, |es|) + WrongBetween(cfg, u, r, more, a, b, m)
  {
    if m == 0 {
      WrongsInPrefix(cfg, u, r0, es, more, a, b, |es|);
    } else {
      WrongsCompose(cfg, u, r0, es, r, more, a, b, m - 1);
      CountedBeyond(cfg, u, r0, es, r, more, a, b, m - 1);
    }
  }

  lemma NoResetComposes(cfg: Config, u: UserId, r0: Option<Record>, es: seq<Event>, more: seq<Event>)
    requires NoReset(cfg, u, r0, es) && NoReset(cfg, u, StateAt(cfg, u, r0, es, |es|), more)
    ensures NoReset(cfg, u, r0, es + more)
  {
    forall i: nat | i < |es + more|
      ensures !ResetAt(cfg, u, r0, es + more, i)
    {
      AnswersCompose(cfg, u, r0, es, more, i);
      if i < |es| {
        assert !ResetAt(cfg, u, r0, es, i);
      } else {
        assert !ResetAt(cfg, u, StateAt(cfg, u, r0, es, |es|), more, i - |es|);
      }
    }
  }

  /** One request counts at most one guess, and only if it is a login. */
  lemma WrongsOfCall(cfg: Config, u: UserId, r: Option<Record>, call: ApiCall, a: Time, b: Time)
    ensures WrongBetween(cfg, u, r, Events(cfg, r, call), a, b, |Events(cfg, r, call)|)
            == if IsGuess(call, Result(cfg, u, r, call), a, b) then 1 else 0
  {
    var es := Events(cfg, r, call);
    assert |es| <= 2;
    if |es| >= 1 {
      assert StateAt(cfg, u, r, es, 0) == r;
      assert WrongBetween(cfg, u, r, es, a, b, 0) == 0;
      assert WrongBetween(cfg, u, r, es, a, b, 1)
             == if CountedAt(cfg, u, r, es, a, b, 0) then 1 else 0;
    }
  }

  /** The run es takes r0 to r without a reset and counts n guesses. */
  ghost predicate Counts(cfg: Config, u: UserId, r0: Option<Record>, es: seq<Event>, r: Option<Record>,
                         a: Time, b: Time, n: nat) {
    NoReset(cfg, u, r0, es) && StateAt(cfg, u, r0, es, |es|) == r && WrongBetween(cfg, u, r0, es, a, b, |es|) == n
  }

  lemma CountsCompose(cfg: Config, u: UserId, r0: Option<Record>, es: seq<Event>, r: Option<Record>, n: nat,
                      more: seq<Event>, r': Option<Record>, m: nat, a: Time, b: Time)
    requires Counts(cfg, u, r0, es, r, a, b, n) && Counts(cfg, u, r, more, r', a, b, m)
    ensures Counts(cfg, u, r0, es + more, r', a, b, n + m)
  {
    NoResetComposes(cfg, u, r0, es, more);
    RunsCompose(cfg, u, r0, es, more, |more|);
    WrongsCompose(cfg, u, r0, es, r, more, a, b, |more|);
  }

  /** A request that does not clear the counter. */
  lemma CallCounts(cfg: Config, u: UserId, r: Option<Record>, call: ApiCall, a: Time, b: Time)
    requires cfg.enabled && !ClearsCounter(call, Result(cfg, u, r, call))
    ensures Counts(cfg, u, r, Events(cfg, r, call), ApiNext(cfg, u, r, call), a, b,
                   if IsGuess(call, Result(cfg, u, r, call), a, b) then 1 else 0)
  {
    ClearsIff(cfg, u, r, call);
    WrongsOfCall(cfg, u, r, call, a, b);
  }

  lemma RequestCounts(cfg: Config, u: UserId, r0: Option<Record>, es: seq<Event>, s: Service, req: Request,
                      a: Time, b: Time, n: nat, es': seq<Event>, s': Service, n': nat)
    requires cfg.enabled && Counts(cfg, u, r0, es, Lookup(s.rows, u), a, b, n) && !ClearsFor(cfg, s, req, u)
    requires es' == es + if req.user == u then Events(cfg, Lookup(s.rows, u), req.call) else []
    requires s' == Serve(cfg, s, req) && n' == n + if GuessesFor(cfg, s, req, u, a, b) then 1 else 0
    ensures Counts(cfg, u, r0, es', Lookup(s'.rows, u), a, b, n')
  {
    OtherUsersStay(cfg, s.rows, req.user, req.call, u);
    var r := Lookup(s.rows, u);
    if req.user == u {
      CallCounts(cfg, u, r, req.call, a, b);
      CountsCompose(cfg, u, r0, es, r, n, Events(cfg, r, req.call), ApiNext(cfg, u, r, req.call),
                    if IsGuess(req.call, Result(cfg, u, r, req.call), a, b) then 1 else 0, a, b);
    } else {
      assert es' == es;
    }
  }

  ghost predicate Counted(cfg: Config, s: Service, reqs: seq<Request>, u: UserId, a: Time, b: Time, k: nat)
    requires k <= |reqs|
  {
    Counts(cfg, u, Lookup(s.rows, u), TraceOf(cfg, s, reqs, u, k), Lookup(ServiceAt(cfg, s, reqs, k).rows, u), a, b,
           GuessesOf(cfg, s, reqs, u, a, b, k))
  }

  lemma CountedStart(cfg: Config, s: Service, reqs: seq<Request>, u: UserId, a: Time, b: Time)
    ensures Counted(cfg, s, reqs, u, a, b, 0)
  {
  }

  lemma CountedStep(cfg: Config, s: Service, reqs: seq<Request>, u: UserId, a: Time, b: Time, k: nat)
    requires cfg.enabled && NoneClears(cfg, s, reqs, u) && 0 < k <= |reqs|
    requires Counted(cfg, s, reqs, u, a, b, k - 1)
    ensures Counted(cfg, s, reqs, u, a, b, k)
  {
    assert !ClearedAt(cfg, s, reqs, u, k - 1);
    RequestCounts(cfg, u, Lookup(s.rows, u), TraceOf(cfg, s, reqs, u, k - 1), ServiceAt(cfg, s, reqs, k - 1),
                  reqs[k - 1], a, b, GuessesOf(cfg, s, reqs, u, a, b, k - 1),
                  TraceOf(cfg, s, reqs, u, k), ServiceAt(cfg, s, reqs, k), GuessesOf(cfg, s, reqs, u, a, b, k));
  }

  /** The requests told a wrong password are the wrong answers of the user's run. */
  lemma GuessesAreWrongs(cfg: Config, s: Service, reqs: seq<Request>, u: UserId,
                                            a: Time, b: Time, k: nat)
    requires cfg.enabled && NoneClears(cfg, s, reqs, u) && k <= |reqs|
    ensures Counted(cfg, s, reqs, u, a, b, k)
  {
    CountedStart(cfg, s, reqs, u, a, b);
    for i := 0 to k
      invariant Counted(cfg, s, reqs, u, a, b, i)
    {
      CountedStep(cfg, s, reqs, u, a, b, i + 1);
    }
  }

  /** Whatever all users send, in any order: while no request about u clears the
      counter, at most `pwd_max_tries + 1` logins of u, plus one for each whole block
      the interval holds, are told between a and b that the password is wrong. */
  lemma ServiceThrottle(cfg: Config, s: Service, reqs: seq<Request>, u: UserId, a: Time, b: Time)
    requires cfg.enabled && u !in cfg.pwdUserBlacklist && 0 <= cfg.pwdMaxTries && 1 <= cfg.pwdBlockMinutes
    requires Inv(Lookup(s.rows, u), s.now) && ValidService(cfg, s, reqs) && a <= b
    requires NoneClears(cfg, s, reqs, u)
    ensures GuessesOf(cfg, s, reqs, u, a, b, |reqs|) <= cfg.pwdMaxTries + 1 + (b - a) / cfg.Block()
  {
    var es := TraceOf(cfg, s, reqs, u, |reqs|);
    GuessesAreWrongs(cfg, s, reqs, u, a, b, |reqs|);
    ServiceRunsAreRuns(cfg, s, reqs, u, |reqs|);
    GuessThrottle(cfg, u, Lookup(s.rows, u), s.now, es, a, b);
  }
}
