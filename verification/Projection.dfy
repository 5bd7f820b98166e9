/**
 Interleaved runs over many users: each user's record is the result of that user's
 own calls.
 */
module Projection {
  import opened Model
  import opened Steps
  import opened Runs
  import opened Workflows

  datatype Call = Call(user: UserId, event: Event)

  ghost function TableAt(cfg: Config, rows: Table, calls: seq<Call>, k: nat): Table
    requires k <= |calls|
  {
    if k == 0 then rows
    else TableStep(cfg, TableAt(cfg, rows, calls, k - 1), calls[k - 1].user, calls[k - 1].event)
  }

  /** The calls about u among the first k, in order. */
  ghost function EventsOf(calls: seq<Call>, u: UserId, k: nat): (es: seq<Event>)
    requires k <= |calls|
    ensures |es| <= k
  {
    if k == 0 then []
    else if calls[k - 1].user == u then EventsOf(calls, u, k - 1) + [calls[k - 1].event]
    else EventsOf(calls, u, k - 1)
  }

  /** Erasing every call about other users leaves u's record as it was. */
  lemma {:induction false} ProjectionIsExact(cfg: Config, rows: Table, calls: seq<Call>, u: UserId, k: nat)
    requires k <= |calls|
    ensures Lookup(TableAt(cfg, rows, calls, k), u)
            == StateAt(cfg, u, Lookup(rows, u), EventsOf(calls, u, k), |EventsOf(calls, u, k)|)
  {
    if k > 0 {
      ProjectionIsExact(cfg, rows, calls, u, k - 1);
      var es := EventsOf(calls, u, k - 1);
      if calls[k - 1].user == u {
        PrefixDecides(cfg, u, Lookup(rows, u), es, [calls[k - 1].event], |es|);
      }
    }
  }

  /** It leaves every answer to a call about u as it was, too. */
  lemma AnswersProject(cfg: Config, rows: Table, calls: seq<Call>, u: UserId, k: nat)
    requires k < |calls| && calls[k].user == u
    ensures Answer(cfg, u, Lookup(TableAt(cfg, rows, calls, k), u), calls[k].event)
            == AnswerAt(cfg, u, Lookup(rows, u), EventsOf(calls, u, k + 1), |EventsOf(calls, u, k)|)
  {
    ProjectionIsExact(cfg, rows, calls, u, k);
    var es := EventsOf(calls, u, k);
    PrefixDecides(cfg, u, Lookup(rows, u), es, [calls[k].event], |es|);
  }

  /** Two interleavings that agree on u's calls agree on u's record. */
  lemma InterleavingsAgree(cfg: Config, rows: Table, calls: seq<Call>, others: seq<Call>, u: UserId)
    requires EventsOf(calls, u, |calls|) == EventsOf(others, u, |others|)
    ensures Lookup(TableAt(cfg, rows, calls, |calls|), u) == Lookup(TableAt(cfg, rows, others, |others|), u)
  {
    ProjectionIsExact(cfg, rows, calls, u, |calls|);
    ProjectionIsExact(cfg, rows, others, u, |others|);
  }

  // ----- The whole service -----

  datatype Request = Request(user: UserId, call: ApiCall)

  /** The table and the one clock of all users. */
  datatype Service = Service(rows: Table, now: Time)

  ghost function Serve(cfg: Config, s: Service, req: Request): Service {
    Service(ApiTable(cfg, s.rows, req.user, req.call),
            ClockThrough(s.now, Events(cfg, Lookup(s.rows, req.user), req.call)))
  }

  ghost function ServiceAt(cfg: Config, s: Service, reqs: seq<Request>, k: nat): Service
    requires k <= |reqs|
  {
    if k == 0 then s else Serve(cfg, ServiceAt(cfg, s, reqs, k - 1), reqs[k - 1])
  }

  ghost predicate ValidRequestAt(cfg: Config, s: Service, reqs: seq<Request>, k: nat)
    requires k < |reqs|
  {
    ValidCall(ServiceAt(cfg, s, reqs, k).now, reqs[k].call)
  }

  /** The driver calls the first k requests made about u. */
  ghost function TraceOf(cfg: Config, s: Service, reqs: seq<Request>, u: UserId, k: nat): seq<Event>
    requires k <= |reqs|
  {
    if k == 0 then []
    else TraceOf(cfg, s, reqs, u, k - 1)
         + if reqs[k - 1].user == u then
             Events(cfg, Lookup(ServiceAt(cfg, s, reqs, k - 1).rows, u), reqs[k - 1].call)
           else []
  }

  /** The run es takes the record r0 to r and is valid on a clock that is not ahead
      of `now` at its end. */
  ghost predicate Follows(cfg: Config, u: UserId, r0: Option<Record>, t0: Time, es: seq<Event>, r: Option<Record>,
                          now: Time) {
    ValidRun(t0, es) && ClockThrough(t0, es) <= now && StateAt(cfg, u, r0, es, |es|) == r
  }

  lemma ClockOfTwo(t0: Time, es: seq<Event>, more: seq<Event>)
    ensures ClockThrough(t0, es + more) == ClockThrough(ClockThrough(t0, es), more)
  {
    ClocksCompose(t0, es, more, |es| + |more|);
  }

  lemma FollowOn(cfg: Config, u: UserId, r0: Option<Record>, t0: Time, es: seq<Event>, r: Option<Record>, now: Time,
                 more: seq<Event>)
    requires Follows(cfg, u, r0, t0, es, r, now)
    requires ValidRun(ClockThrough(t0, es), more)
    ensures Follows(cfg, u, r0, t0, es + more, StateAt(cfg, u, r, more, |more|), ClockThrough(now, more))
  {
    ValidRunsCompose(t0, es, more);
    ClockOfTwo(t0, es, more);
    LaterStart(ClockThrough(t0, es), now, more, |more|);
    RunsCompose(cfg, u, r0, es, more, |more|);
  }

  lemma {:induction false} LaterStart(a: Time, b: Time, es: seq<Event>, k: nat)
    requires a <= b && k <= |es|
    ensures ClockAt(a, es, k) <= ClockAt(b, es, k)
  {
    if k > 0 {
      LaterStart(a, b, es, k - 1);
    }
  }

  lemma EarlierNow(now: Time, later: Time, call: ApiCall)
    requires now <= later && ValidCall(later, call)
    ensures ValidCall(now, call)
  {
  }

  lemma OtherUsersStay(cfg: Config, rows: Table, v: UserId, call: ApiCall, u: UserId)
    ensures Lookup(ApiTable(cfg, rows, v, call), u)
            == if v == u then ApiNext(cfg, u, Lookup(rows, u), call) else Lookup(rows, u)
  {
  }

  /** A request about u extends u's run; any other leaves it, and moves the clock on. */
  lemma ServeStep(cfg: Config, u: UserId, r0: Option<Record>, t0: Time, es: seq<Event>, s: Service, req: Request)
    requires Follows(cfg, u, r0, t0, es, Lookup(s.rows, u), s.now) && ValidCall(s.now, req.call)
    ensures Follows(cfg, u, r0, t0,
                    es + if req.user == u then Events(cfg, Lookup(s.rows, u), req.call) else [],
                    Lookup(Serve(cfg, s, req).rows, u), Serve(cfg, s, req).now)
  {
    OtherUsersStay(cfg, s.rows, req.user, req.call, u);
    var more := Events(cfg, Lookup(s.rows, req.user), req.call);
    if req.user == u {
      EarlierNow(ClockThrough(t0, es), s.now, req.call);
      EventsAreValid(cfg, Lookup(s.rows, u), ClockThrough(t0, es), req.call);
      FollowOn(cfg, u, r0, t0, es, Lookup(s.rows, u), s.now, more);
    } else {
      EventsAreValid(cfg, Lookup(s.rows, req.user), s.now, req.call);
      ClockIsMonotone(s.now, more, 0, |more|);
      assert es + [] == es;
    }
  }

  /** In any run of the whole service, on one clock, every user's record is that of a
      valid run of driver calls about this user alone: what is proved of such runs
      holds of the service. */
  lemma {:induction false} ServiceRunsAreRuns(cfg: Config, s: Service, reqs: seq<Request>, u: UserId, k: nat)
    requires k <= |reqs|
    requires forall i: nat :: i < |reqs| ==> ValidRequestAt(cfg, s, reqs, i)
    ensures Follows(cfg, u, Lookup(s.rows, u), s.now, TraceOf(cfg, s, reqs, u, k),
                    Lookup(ServiceAt(cfg, s, reqs, k).rows, u), ServiceAt(cfg, s, reqs, k).now)
  {
    if k > 0 {
      ServiceRunsAreRuns(cfg, s, reqs, u, k - 1);
      assert ValidRequestAt(cfg, s, reqs, k - 1);
      ServeStep(cfg, u, Lookup(s.rows, u), s.now, TraceOf(cfg, s, reqs, u, k - 1),
                ServiceAt(cfg, s, reqs, k - 1), reqs[k - 1]);
    }
  }

  /** In particular every record of every table the service can reach satisfies the
      record invariant. */
  lemma ReachableTables(cfg: Config, t0: Time, reqs: seq<Request>, u: UserId, k: nat)
    requires k <= |reqs|
    requires forall i: nat :: i < |reqs| ==> ValidRequestAt(cfg, Service(map[], t0), reqs, i)
    ensures Inv(Lookup(ServiceAt(cfg, Service(map[], t0), reqs, k).rows, u),
                ServiceAt(cfg, Service(map[], t0), reqs, k).now)
  {
    ServiceRunsAreRuns(cfg, Service(map[], t0), reqs, u, k);
    var es := TraceOf(cfg, Service(map[], t0), reqs, u, k);
    RunKeepsInv(cfg, u, None, t0, es, |es|);
  }
}
