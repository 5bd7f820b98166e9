/**
 The extension switched off, which is its default: logins are Keystone's own and leave
 no trace, and the service changes nothing but the e-mail columns.
 */
module Disabled {
  import opened Model
  import opened Steps
  import opened Runs
  import opened Workflows
  import opened Projection
  import opened Requests
  import opened Operations

  /** What the caller is told is what Keystone says of the password. */
  ghost predicate KeystoneSays(out: LoginOut, base: Base) {
    && (out == Success(None) <==> base == PasswordChecked(true, false))
    && (out == BadPassword <==> base.UnknownUser? || (base.PasswordChecked? && !base.matches))
    && (out == BaseRaised <==> base.RaisesBefore? || base == PasswordChecked(true, true))
    && (out == Success(None) || out == BadPassword || out == BaseRaised)
  }

  /** A login does not touch the record and answers what Keystone says, whatever the
      record holds. */
  lemma DisabledLogin(cfg: Config, u: UserId, r: Option<Record>, env: LoginEnv)
    requires !cfg.enabled
    ensures Next(cfg, u, r, Login(env)) == r
    ensures Answer(cfg, u, r, Login(env)).LoginReply? && KeystoneSays(Answer(cfg, u, r, Login(env)).out, env.base)
  {
  }

  // ----- Runs -----

  /** The calls among the first k that are no logins. */
  function WithoutLogins(es: seq<Event>, k: nat): (rest: seq<Event>)
    requires k <= |es|
    ensures |rest| <= k && forall i :: 0 <= i < |rest| ==> !rest[i].Login?
  {
    if k == 0 then []
    else WithoutLogins(es, k - 1) + if es[k - 1].Login? then [] else [es[k - 1]]
  }

  /** In any run, erasing all logins leaves the record as it was, and each of them
      answers what Keystone says. */
  lemma {:induction false} LoginsAreTransparent(cfg: Config, u: UserId, r0: Option<Record>, es: seq<Event>, k: nat)
    requires !cfg.enabled && k <= |es|
    ensures StateAt(cfg, u, r0, es, k) == StateAt(cfg, u, r0, WithoutLogins(es, k), |WithoutLogins(es, k)|)
    ensures k < |es| && es[k].Login? ==>
              AnswerAt(cfg, u, r0, es, k).LoginReply? && KeystoneSays(AnswerAt(cfg, u, r0, es, k).out, es[k].env.base)
  {
    if k > 0 {
      LoginsAreTransparent(cfg, u, r0, es, k - 1);
      ErasedStep(cfg, u, r0, WithoutLogins(es, k - 1), es[k - 1]);
    }
    if k < |es| && es[k].Login? {
      DisabledLogin(cfg, u, StateAt(cfg, u, r0, es, k), es[k].env);
    }
  }

  lemma ErasedStep(cfg: Config, u: UserId, r0: Option<Record>, rest: seq<Event>, e: Event)
    requires !cfg.enabled
    ensures var all := rest + if e.Login? then [] else [e];
            StateAt(cfg, u, r0, all, |all|) == Next(cfg, u, StateAt(cfg, u, r0, rest, |rest|), e)
  {
    if e.Login? {
      DisabledLogin(cfg, u, StateAt(cfg, u, r0, rest, |rest|), e.env);
      assert rest + [] == rest;
    } else {
      PrefixDecides(cfg, u, r0, rest, [e], |rest|);
    }
  }

  // ----- The service -----

  /** Both absent, or equal in all but the e-mail columns. */
  ghost predicate SameButEmail(r: Option<Record>, r': Option<Record>) {
    && (r.None? <==> r'.None?)
    && (r.Some? ==>
          r'.value == r.value.(sndfaEmail := r'.value.sndfaEmail, sndfaEmailCode := r'.value.sndfaEmailCode))
  }

  lemma DisabledRequest(cfg: Config, u: UserId, r: Option<Record>, call: ApiCall)
    requires !cfg.enabled
    ensures SameButEmail(r, ApiNext(cfg, u, r, call))
    ensures !call.AskCheckEmail? && !call.CheckEmail? && !call.Reset? ==> ApiNext(cfg, u, r, call) == r
    ensures call.Authenticate? ==>
              && Result(cfg, u, r, call).LoginResult?
              && KeystoneSays(Result(cfg, u, r, call).out, call.env.base)
  {
    ShortApi(cfg, u, r, call);
  }

  /** In any run of the disabled service every login answers what Keystone says. */
  lemma DisabledServiceAnswers(cfg: Config, s: Service, reqs: seq<Request>, k: nat)
    requires !cfg.enabled && k < |reqs| && reqs[k].call.Authenticate?
    ensures ResultAt(cfg, s, reqs, k).LoginResult?
    ensures KeystoneSays(ResultAt(cfg, s, reqs, k).out, reqs[k].call.env.base)
    ensures ServiceAt(cfg, s, reqs, k + 1).rows == ServiceAt(cfg, s, reqs, k).rows
  {
    var u, before := reqs[k].user, ServiceAt(cfg, s, reqs, k);
    DisabledRequest(cfg, u, Lookup(before.rows, u), reqs[k].call);
    PutBack(before.rows, u);
  }

  lemma PutBack(rows: Table, u: UserId)
    ensures Put(rows, u, Lookup(rows, u)) == rows
  {
  }

  /** No user is registered or removed, and no counter, date, switch or second-factor
      code changes. */
  lemma {:induction false} DisabledServiceKeeps(cfg: Config, s: Service, reqs: seq<Request>, u: UserId, k: nat)
    requires !cfg.enabled && k <= |reqs|
    ensures SameButEmail(Lookup(s.rows, u), RecordAt(cfg, s, reqs, u, k))
  {
    if k > 0 {
      DisabledServiceKeeps(cfg, s, reqs, u, k - 1);
      var before := ServiceAt(cfg, s, reqs, k - 1);
      OtherUsersStay(cfg, before.rows, reqs[k - 1].user, reqs[k - 1].call, u);
      DisabledRequest(cfg, u, Lookup(before.rows, u), reqs[k - 1].call);
    }
  }

  /** So a service that was never enabled has no records, and answers every request as
      if it were the first. */
  lemma NeverEnabled(cfg: Config, t0: Time, reqs: seq<Request>, k: nat)
    requires !cfg.enabled && k <= |reqs|
    ensures ServiceAt(cfg, Service(map[], t0), reqs, k).rows == map[]
    ensures k < |reqs| ==>
              ResultAt(cfg, Service(map[], t0), reqs, k) == Result(cfg, reqs[k].user, None, reqs[k].call)
  {
    var rows := ServiceAt(cfg, Service(map[], t0), reqs, k).rows;
    forall u | u in rows
      ensures false
    {
      DisabledServiceKeeps(cfg, Service(map[], t0), reqs, u, k);
    }
  }
}
