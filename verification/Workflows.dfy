/**
 The API operations and the user notifications: which driver calls each one makes,
 behind which guards, and what it answers.
 */
module Workflows {
  import opened Model
  import opened Steps
  import opened Runs

  /** The "enable" value of a request body. */
  datatype Body = Missing | Boolean(value: bool) | Other

  datatype UpdateOutcome = UpdateOk | UpdateAssertion | UpdateRaises

  /** One request or notification about a user. `user` is what Keystone's directory
      answers, None for an unknown user. */
  datatype ApiCall =
    | Authenticate(env: LoginEnv)
    | UserCreated(user: Option<DirUser>, t: Time)
    | UserUpdated(user: Option<DirUser>, t: Time)
    | UserDeleted
    | Recover(user: Option<DirUser>, code: string, mail: MailOutcome)
    | Reset(user: Option<DirUser>, code: string, update: UpdateOutcome, t: Time, mail: MailOutcome)
    | SetSndfa(user: Option<DirUser>, body: Body)
    | CheckSndfa(user: Option<DirUser>, code: string, t: Time)
    | AskCheckEmail(user: Option<DirUser>, code: string, mail: MailOutcome)
    | CheckEmail(user: Option<DirUser>, code: string)
    | SetBlack(user: Option<DirUser>, body: Body)

  datatype ApiResult =
    | LoginResult(out: LoginOut)
    | Ok
    | BadRequest
    | NotConfigured
    | Unauthorized
    | NotFound
    | Invalid
    | Modified(value: bool)
    | Failed             // an exception the operation does not handle

  function Configured(cfg: Config): bool { cfg.enabled && cfg.sndfa }

  function HasEmail(user: Option<DirUser>): bool { user.Some? && user.value.email.Some? }

  function EmailChecked(r: Option<Record>): bool { r.Some? && r.value.sndfaEmail }

  /** The boolean of a request body: a missing key is False, another type is None. */
  function Enable(body: Body): Option<bool> {
    match body
    case Missing => Some(false)
    case Boolean(value) => Some(value)
    case Other => None
  }

  function EmailCodeMatches(r: Option<Record>, code: string): bool {
    HasEmailCode(r) && r.value.sndfaEmailCode == Some(code)
  }

  /** The driver calls the operation makes, in order. */
  function Events(cfg: Config, r: Option<Record>, call: ApiCall): seq<Event> {
    match call
    case Authenticate(env) => [Login(env)]
    case UserCreated(user, t) => if user.Some? && cfg.enabled then [SetUserCreationTime(user.value, t)] else []
    case UserUpdated(user, t) => if user.Some? && cfg.enabled then [UpdateUserModificationTime(user.value, t)] else []
    case UserDeleted => if cfg.enabled then [RemoveUser] else []
    case Recover(user, code, _) =>
      if Configured(cfg) && HasEmail(user) && EmailChecked(r) then
        [SetCheckEmailCode(code), CheckEmailCode(code)]
      else []
    case Reset(user, code, update, t, _) =>
      if user.None? then []
      else if EmailCodeMatches(r, code) && update.UpdateOk? && cfg.enabled then
        [CheckEmailCode(code), UpdateUserModificationTime(user.value, t)]
      else [CheckEmailCode(code)]
    case SetSndfa(user, body) =>
      if Configured(cfg) && HasEmail(user) && EmailChecked(r) && Enable(body).Some? then
        [ModifySndfa(Enable(body).value)]
      else []
    case CheckSndfa(user, code, t) =>
      if Configured(cfg) && user.Some? && EmailChecked(r) then [CheckSndfaCode(code, t)] else []
    case AskCheckEmail(user, code, _) => if HasEmail(user) then [SetCheckEmailCode(code)] else []
    case CheckEmail(user, code) => if HasEmail(user) then [CheckEmailCode(code)] else []
    case SetBlack(user, body) =>
      if Configured(cfg) && user.Some? && Enable(body).Some? then [ModifyBlack(Enable(body).value)] else []
  }

  function Mail(mail: MailOutcome): ApiResult {
    match mail
    case MailSent => Ok
    case MailRefused => BadRequest
    case MailRaises => Failed
  }

  function Result(cfg: Config, u: UserId, r: Option<Record>, call: ApiCall): ApiResult {
    match call
    case Authenticate(env) => LoginResult(LoginStep(cfg, u, r, env).1)
    case UserCreated(user, _) => if user.None? then NotFound else Ok
    case UserUpdated(user, _) => if user.None? then NotFound else Ok
    case UserDeleted => Ok
    case Recover(user, _, mail) =>
      if !Configured(cfg) then NotConfigured
      else if user.None? then NotFound
      else if !HasEmail(user) || !EmailChecked(r) then Unauthorized
      else Mail(mail)
    case Reset(user, code, update, _, mail) =>
      if user.None? then NotFound
      else if !EmailCodeMatches(r, code) || update.UpdateAssertion? then Unauthorized
      else if update.UpdateRaises? || !HasEmail(user) || mail.MailRaises? then Failed
      else Ok
    case SetSndfa(user, body) =>
      if !Configured(cfg) then NotConfigured
      else if user.None? then NotFound
      else if !HasEmail(user) || !EmailChecked(r) then Unauthorized
      else if Enable(body).None? then Invalid
      else Modified(true)
    case CheckSndfa(user, code, _) =>
      if !Configured(cfg) then NotConfigured
      else if user.None? then NotFound
      else if EmailChecked(r) && AcceptsSndfaCode(r, code) then Ok
      else Unauthorized
    case AskCheckEmail(user, _, mail) =>
      if user.None? then NotFound else if !HasEmail(user) then Unauthorized else Mail(mail)
    case CheckEmail(user, code) =>
      if user.None? then NotFound
      else if HasEmail(user) && EmailCodeMatches(r, code) then Ok
      else Unauthorized
    case SetBlack(user, body) =>
      if !Configured(cfg) then NotConfigured
      else if user.None? then NotFound
      else if Enable(body).None? then Invalid
      else Modified(r.Some?)
  }

  ghost function ApiNext(cfg: Config, u: UserId, r: Option<Record>, call: ApiCall): Option<Record> {
    StateAt(cfg, u, r, Events(cfg, r, call), |Events(cfg, r, call)|)
  }

  /** The table after the operation. */
  ghost function ApiTable(cfg: Config, rows: Table, u: UserId, call: ApiCall): Table {
    Put(rows, u, ApiNext(cfg, u, Lookup(rows, u), call))
  }

  /** Most operations make at most one driver call; recover and reset make two. */
  lemma ShortRuns(cfg: Config, u: UserId, r: Option<Record>, a: Event, b: Event)
    ensures StateAt(cfg, u, r, [], 0) == r
    ensures StateAt(cfg, u, r, [a], 1) == Next(cfg, u, r, a)
    ensures StateAt(cfg, u, r, [a, b], 2) == Next(cfg, u, Next(cfg, u, r, a), b)
  {
    assert StateAt(cfg, u, r, [a], 0) == r;
    assert StateAt(cfg, u, r, [a, b], 1) == Next(cfg, u, r, a);
  }

  // ----- Runs can be put together -----

  ghost function ClockThrough(now: Time, es: seq<Event>): Time {
    ClockAt(now, es, |es|)
  }

  lemma {:induction false} RunsCompose(cfg: Config, u: UserId, r0: Option<Record>, es: seq<Event>, more: seq<Event>,
                                       k: nat)
    requires k <= |more|
    ensures StateAt(cfg, u, r0, es + more, |es| + k) == StateAt(cfg, u, StateAt(cfg, u, r0, es, |es|), more, k)
  {
    if k == 0 {
      PrefixDecides(cfg, u, r0, es, more, |es|);
    } else {
      RunsCompose(cfg, u, r0, es, more, k - 1);
      assert (es + more)[|es| + k - 1] == more[k - 1];
    }
  }

  /** What the calls of two consecutive runs answer is what the runs answer. */
  lemma AnswersCompose(cfg: Config, u: UserId, r0: Option<Record>, es: seq<Event>, more: seq<Event>, k: nat)
    requires k < |es| + |more|
    ensures AnswerAt(cfg, u, r0, es + more, k)
            == if k < |es| then AnswerAt(cfg, u, r0, es, k)
               else AnswerAt(cfg, u, StateAt(cfg, u, r0, es, |es|), more, k - |es|)
  {
    if k < |es| {
      PrefixDecides(cfg, u, r0, es, more, k);
    } else {
      RunsCompose(cfg, u, r0, es, more, k - |es|);
    }
  }

  lemma {:induction false} ClocksCompose(t0: Time, es: seq<Event>, more: seq<Event>, k: nat)
    requires k <= |es| + |more|
    ensures ClockAt(t0, es + more, k)
            == if k <= |es| then ClockAt(t0, es, k) else ClockAt(ClockAt(t0, es, |es|), more, k - |es|)
  {
    if k > 0 {
      ClocksCompose(t0, es, more, k - 1);
    }
  }

  /** The clock is past `now` in the call and the codes it generates are not empty. */
  ghost predicate ValidCall(now: Time, call: ApiCall) {
    match call
    case Authenticate(env) => ValidEvent(now, Login(env))
    case UserCreated(_, t) => now <= t
    case UserUpdated(_, t) => now <= t
    case Recover(_, code, _) => code != ""
    case Reset(_, _, _, t, _) => now <= t
    case CheckSndfa(_, _, t) => now <= t
    case AskCheckEmail(_, code, _) => code != ""
    case _ => true
  }

  lemma EventsAreValid(cfg: Config, r: Option<Record>, now: Time, call: ApiCall)
    requires ValidCall(now, call)
    ensures ValidRun(now, Events(cfg, r, call))
  {
    var es := Events(cfg, r, call);
    assert |es| <= 2;
    forall k: nat | k < |es|
      ensures ValidAt(now, es, k)
    {
      assert ClockAt(now, es, 0) == now;
      if k == 1 {
        assert ClockAt(now, es, 1) == ClockAfter(now, es[0]);
      }
    }
  }

  lemma ValidRunsCompose(t0: Time, es: seq<Event>, more: seq<Event>)
    requires ValidRun(t0, es) && ValidRun(ClockAt(t0, es, |es|), more)
    ensures ValidRun(t0, es + more)
  {
    forall k: nat | k < |es + more|
      ensures ValidAt(t0, es + more, k)
    {
      ClocksCompose(t0, es, more, k);
      if k < |es| {
        assert ValidAt(t0, es, k);
      } else {
        assert ValidAt(ClockAt(t0, es, |es|), more, k - |es|);
      }
    }
  }
}
