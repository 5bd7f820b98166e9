/**
 What the requests of the whole service leave behind: the switches as functions of the
 requests and their results, and the mailed codes across everything that all users do
 in between.
 */
module RequestHistory {
  import opened Model
  import opened Steps
  import opened Runs
  import opened Workflows
  import opened Projection
  import opened Requests
  import opened Recovery
  import opened Operations
  import EmailAndBlacklist
  import History

  /** The record that request k leaves its user. */
  lemma RecordAfter(cfg: Config, s: Service, reqs: seq<Request>, u: UserId, k: nat)
    requires k < |reqs|
    ensures RecordAt(cfg, s, reqs, u, k + 1)
            == if reqs[k].user == u then ApiNext(cfg, u, RecordAt(cfg, s, reqs, u, k), reqs[k].call)
               else RecordAt(cfg, s, reqs, u, k)
  {
    OtherUsersStay(cfg, ServiceAt(cfg, s, reqs, k).rows, reqs[k].user, reqs[k].call, u);
  }

  // ----- Registration and the switches -----

  /** What one request and its result do to a flag. */
  function RegisteredAfter(before: bool, call: ApiCall, result: ApiResult): bool {
    match call
    case UserDeleted => false
    case UserCreated(user, _) => user.Some? || before
    case UserUpdated(user, _) => user.Some? || before
    case Authenticate(_) => before || (result.LoginResult? && (result.out.Success? || result.out.BadPassword?))
    case _ => before
  }

  function SwitchAfter(cfg: Config, before: bool, call: ApiCall, result: ApiResult): bool {
    if call.UserDeleted? && cfg.enabled then false
    else if call.SetSndfa? && result == Modified(true) then call.body == Boolean(true)
    else before
  }

  function BlackAfter(cfg: Config, before: bool, call: ApiCall, result: ApiResult): bool {
    if call.UserDeleted? && cfg.enabled then false
    else if call.SetBlack? && result == Modified(true) then call.body == Boolean(true)
    else before
  }

  ghost function BlackOn(r: Option<Record>): bool { r.Some? && Black(r.value.extra) == Some(true) }

  lemma RegisteredStep(cfg: Config, u: UserId, r: Option<Record>, call: ApiCall)
    requires cfg.enabled
    ensures ApiNext(cfg, u, r, call).Some? == RegisteredAfter(r.Some?, call, Result(cfg, u, r, call))
  {
    ShortApi(cfg, u, r, call);
  }

  lemma SwitchStep(cfg: Config, u: UserId, r: Option<Record>, call: ApiCall)
    ensures History.SwitchedOn(ApiNext(cfg, u, r, call))
            == SwitchAfter(cfg, History.SwitchedOn(r), call, Result(cfg, u, r, call))
  {
    ShortApi(cfg, u, r, call);
  }

  lemma BlackStep(cfg: Config, u: UserId, r: Option<Record>, call: ApiCall)
    ensures BlackOn(ApiNext(cfg, u, r, call)) == BlackAfter(cfg, BlackOn(r), call, Result(cfg, u, r, call))
  {
    ShortApi(cfg, u, r, call);
    EmailAndBlacklist.EvalUndoesStr(true);
    EmailAndBlacklist.EvalUndoesStr(false);
  }

  datatype Flags = Flags(registered: bool, switch: bool, black: bool)

  ghost function FlagsOf(r: Option<Record>): Flags {
    Flags(r.Some?, History.SwitchedOn(r), BlackOn(r))
  }

  function FlagsAfter(cfg: Config, f: Flags, call: ApiCall, result: ApiResult): Flags {
    Flags(RegisteredAfter(f.registered, call, result), SwitchAfter(cfg, f.switch, call, result),
          BlackAfter(cfg, f.black, call, result))
  }

  lemma FlagsStep(cfg: Config, u: UserId, r: Option<Record>, call: ApiCall)
    requires cfg.enabled
    ensures FlagsOf(ApiNext(cfg, u, r, call)) == FlagsAfter(cfg, FlagsOf(r), call, Result(cfg, u, r, call))
  {
    RegisteredStep(cfg, u, r, call);
    SwitchStep(cfg, u, r, call);
    BlackStep(cfg, u, r, call);
  }

  /** The flags of u, from the requests about u and their results alone. */
  ghost function FlagsAt(cfg: Config, s: Service, reqs: seq<Request>, u: UserId, k: nat): Flags
    requires k <= |reqs|
  {
    if k == 0 then FlagsOf(Lookup(s.rows, u))
    else if reqs[k - 1].user == u then
      FlagsAfter(cfg, FlagsAt(cfg, s, reqs, u, k - 1), reqs[k - 1].call, ResultAt(cfg, s, reqs, k - 1))
    else FlagsAt(cfg, s, reqs, u, k - 1)
  }

  /** In any run of the whole service a user is registered, has the second factor on and
      is on the expiry blacklist exactly as the last requests that were granted say: the
      switches are the booleans of their bodies. */
  lemma {:induction false} FlagsAreRequests(cfg: Config, s: Service, reqs: seq<Request>, u: UserId, k: nat)
    requires cfg.enabled && k <= |reqs|
    ensures FlagsOf(RecordAt(cfg, s, reqs, u, k)) == FlagsAt(cfg, s, reqs, u, k)
  {
    if k > 0 {
      FlagsAreRequests(cfg, s, reqs, u, k - 1);
      RecordAfter(cfg, s, reqs, u, k - 1);
      if reqs[k - 1].user == u {
        FlagsStep(cfg, u, RecordAt(cfg, s, reqs, u, k - 1), reqs[k - 1].call);
      }
    }
  }

  // ----- Mailed codes -----

  /** The request neither removes its user nor mails another e-mail code. */
  predicate KeepsMailedCode(call: ApiCall) {
    !call.UserDeleted? && !call.AskCheckEmail? && !call.Recover?
  }

  ghost predicate KeepsCodeOf(req: Request, u: UserId) {
    req.user == u ==> KeepsMailedCode(req.call)
  }

  ghost predicate HoldsEmailCode(r: Option<Record>, code: string) {
    r.Some? && r.value.sndfaEmailCode == Some(code)
  }

  lemma MailedCodeStep(cfg: Config, u: UserId, r: Option<Record>, call: ApiCall, code: string)
    requires HoldsEmailCode(r, code) && KeepsMailedCode(call)
    ensures HoldsEmailCode(ApiNext(cfg, u, r, call), code)
  {
    ShortApi(cfg, u, r, call);
  }

  lemma {:induction false} MailedCodeStays(cfg: Config, s: Service, reqs: seq<Request>, u: UserId,
                                           j: nat, k: nat, code: string)
    requires j <= k <= |reqs| && HoldsEmailCode(RecordAt(cfg, s, reqs, u, j), code)
    requires forall i :: j <= i < k ==> KeepsCodeOf(reqs[i], u)
    ensures HoldsEmailCode(RecordAt(cfg, s, reqs, u, k), code)
  {
    if j < k {
      MailedCodeStays(cfg, s, reqs, u, j, k - 1, code);
      RecordAfter(cfg, s, reqs, u, k - 1);
      assert KeepsCodeOf(reqs[k - 1], u);
      if reqs[k - 1].user == u {
        MailedCodeStep(cfg, u, RecordAt(cfg, s, reqs, u, k - 1), reqs[k - 1].call, code);
      }
    }
  }

  /** Request j mailed u an e-mail code, to verify an address or to recover a password. */
  ghost predicate MailsCode(cfg: Config, s: Service, reqs: seq<Request>, u: UserId, j: nat, code: string)
    requires j < |reqs|
  {
    && reqs[j].user == u && RecordAt(cfg, s, reqs, u, j).Some?
    && (reqs[j].call.AskCheckEmail? || reqs[j].call.Recover?) && reqs[j].call.code == code != ""
    && ResultAt(cfg, s, reqs, j) == Ok
  }

  lemma MailedCodeIsHeld(cfg: Config, s: Service, reqs: seq<Request>, u: UserId, j: nat, k: nat, code: string)
    requires j < k <= |reqs| && MailsCode(cfg, s, reqs, u, j, code)
    requires forall i :: j < i < k ==> KeepsCodeOf(reqs[i], u)
    ensures HoldsEmailCode(RecordAt(cfg, s, reqs, u, k), code)
  {
    RefusedIff(cfg, u, RecordAt(cfg, s, reqs, u, j), reqs[j].call);
    MailedCodeIsStored(cfg, u, RecordAt(cfg, s, reqs, u, j), reqs[j].call);
    RecordAfter(cfg, s, reqs, u, j);
    MailedCodeStays(cfg, s, reqs, u, j + 1, k, code);
  }

  /** Whatever all users send meanwhile, wrong codes for u included: while no other code
      is mailed to u, a check answers Ok and verifies the address exactly when it
      presents the mailed code. */
  lemma MailedCodeVerifies(cfg: Config, s: Service, reqs: seq<Request>, u: UserId, j: nat, k: nat, code: string)
    requires j < k < |reqs| && MailsCode(cfg, s, reqs, u, j, code)
    requires forall i :: j < i < k ==> KeepsCodeOf(reqs[i], u)
    requires reqs[k].user == u && reqs[k].call.CheckEmail?
    requires reqs[k].call.user.Some? && reqs[k].call.user.value.email.Some?
    ensures ResultAt(cfg, s, reqs, k) == if reqs[k].call.code == code then Ok else Unauthorized
    ensures RecordAt(cfg, s, reqs, u, k).Some?
    ensures RecordAt(cfg, s, reqs, u, k + 1)
            == Some(RecordAt(cfg, s, reqs, u, k).value.(sndfaEmail := reqs[k].call.code == code))
  {
    MailedCodeIsHeld(cfg, s, reqs, u, j, k, code);
    RecordAfter(cfg, s, reqs, u, k);
    CheckEmailEffect(cfg, u, RecordAt(cfg, s, reqs, u, k), reqs[k].call.user, reqs[k].call.code);
  }

  /** Likewise a password reset that presents the code goes through, restarts the
      password's life and clears the counter. */
  lemma MailedCodeResets(cfg: Config, s: Service, reqs: seq<Request>, u: UserId, j: nat, k: nat, code: string)
    requires cfg.enabled && j < k < |reqs| && MailsCode(cfg, s, reqs, u, j, code)
    requires forall i :: j < i < k ==> KeepsCodeOf(reqs[i], u)
    requires reqs[k].user == u && reqs[k].call.Reset? && reqs[k].call.code == code
    requires reqs[k].call.user.Some? && reqs[k].call.update.UpdateOk?
    ensures ResultAt(cfg, s, reqs, k)
            == if reqs[k].call.user.value.email.Some? && !reqs[k].call.mail.MailRaises? then Ok else Failed
    ensures RecordAt(cfg, s, reqs, u, k).Some?
    ensures RecordAt(cfg, s, reqs, u, k + 1)
            == Some(RecordAt(cfg, s, reqs, u, k).value.(sndfaEmail := true, creationTime := Some(reqs[k].call.t),
                                                        loginAttempts := 0))
  {
    MailedCodeIsHeld(cfg, s, reqs, u, j, k, code);
    RecordAfter(cfg, s, reqs, u, k);
    ResetWithCode(cfg, u, RecordAt(cfg, s, reqs, u, k), reqs[k].call.user.value, code, reqs[k].call.t,
                  reqs[k].call.mail);
  }
}
