/**
 One-shot execution permits (backend/app/authority/delegated.py).

 A permit is identified by its row. Hashes are modelled by a constructor, so equal hashes mean equal content.
 The answers of the identity, profile and reservation tables at the moment of a call are its parameters.
 */
module ExecutionPermits {
  import opened Wrappers

  type Time = int
  type ActionId = nat
  type PermitId = nat

  datatype G13 = Continue | Throttle | Review | Halt
  datatype AutonomyState = StateActive | StateThrottled | StateReviewRequired | StateHalted

  /** The provider-neutral description of one exact action. */
  datatype Envelope = Envelope(contract: nat, payloadHash: nat, target: nat, economic: nat, rest: nat)

  const EXECUTION_ACTION_CONTRACT: nat := 1

  /** The name of an action kind, and whether it starts with that of the gateway. */
  datatype ActionKind = TelegraphKind(name: nat) | OtherKind(name: nat)

  /** A profile as resolved; an empty list of kinds or of intents admits all. */
  datatype Profile = Profile(
    active: bool, kinds: set<ActionKind>, intents: set<nat>, external: bool, telegraph: bool,
    unlimitedBudget: bool, economicBudget: Option<int>, perActionBudget: Option<int>)

  datatype Request = Request(
    action: ActionId, kind: ActionKind, intent: Option<nat>, envelope: Envelope, amount: int, g13: G13,
    autonomyEnabled: bool, profile: Option<Profile>, identity: Option<AutonomyState>,
    recoveryProbe: bool, bootstrap: bool, reservationVerified: bool, throttleSatisfied: bool)

  datatype Error =
    | FullAutonomyDisabled | ProfileMissing | IdentityMissing | G13Halt | G13Review | ThrottleConstraintsRequired
    | ActionNotAllowed | ReservationRequired | NoEconomicAuthority | PerActionBudgetExceeded | DelegatedBudgetExceeded
    | PermitMissing | AlreadyConsumed | Expired | Invalid | PayloadMismatch | TargetMismatch | EconomicMismatch
    | ActionMismatch | AuthorityRevoked

  /** What the authority hash of a permit covers. */
  datatype Authority = Authority(request: Request, state: AutonomyState)
  datatype Hash = HashOf(authority: Authority)

  datatype Permit = Permit(authority: Authority, hash: Hash, issuedAt: Time, expiresAt: Option<Time>, consumedAt: Option<Time>) {
    function Action(): ActionId { authority.request.action }
    function Bound(): Envelope { authority.request.envelope }
  }

  datatype Event =
    | PermitIssued(permit: PermitId, action: ActionId)
    | PermitConsumed(permit: PermitId, action: ActionId)
    | DispatchCommitted(permit: PermitId, action: ActionId, envelope: Envelope)

  datatype Tables = Tables(permits: seq<Permit>, log: seq<Event>)

  predicate Allowed(p: Profile, kind: ActionKind, intent: Option<nat>) {
    if p.kinds != {} && kind !in p.kinds then false
    else if intent.Some? && p.intents != {} && intent.value !in p.intents then false
    else if !p.external || (kind.TelegraphKind? && !p.telegraph) then false
    else true
  }

  function G12Check(p: Profile, amount: int, reservationVerified: bool): Option<Error> {
    if !reservationVerified then Some(ReservationRequired)
    else if p.unlimitedBudget then None
    else if p.economicBudget.None? || p.economicBudget.value <= 0 then Some(NoEconomicAuthority)
    else if p.perActionBudget.Some? && amount > p.perActionBudget.value then Some(PerActionBudgetExceeded)
    else if amount > p.economicBudget.value then Some(DelegatedBudgetExceeded)
    else None
  }

  /** The first authority that denies a permit for the request. */
  function Denial(r: Request): Option<Error> {
    if !r.autonomyEnabled then Some(FullAutonomyDisabled)
    else if r.profile.None? then Some(ProfileMissing)
    else if r.identity.None? then Some(IdentityMissing)
    else if r.identity.value == StateHalted then Some(G13Halt)
    else if r.identity.value == StateReviewRequired && !r.recoveryProbe && !r.bootstrap then Some(G13Review)
    else if !r.profile.value.active || !Allowed(r.profile.value, r.kind, r.intent) then Some(ActionNotAllowed)
    else
      var g12 := G12Check(r.profile.value, r.amount, r.reservationVerified);
      if g12.Some? then g12
      else if r.g13 == Halt then Some(G13Halt)
      else if r.g13 == Review && !r.recoveryProbe && !r.bootstrap then Some(G13Review)
      else if r.g13 == Throttle && !r.throttleSatisfied then Some(ThrottleConstraintsRequired)
      else None
  }

  function FindPermit(permits: seq<Permit>, action: ActionId): Option<PermitId> {
    if permits == [] then None
    else
      var before := FindPermit(permits[..|permits| - 1], action);
      if before.Some? then before
      else if permits[|permits| - 1].Action() == action then Some(|permits| - 1)
      else None
  }

  /** How the presented action differs from the bound one, in the order in which it is compared. */
  function Mismatch(stored: Envelope, expected: Envelope): Option<Error> {
    if stored.contract != EXECUTION_ACTION_CONTRACT then Some(Invalid)
    else if stored.payloadHash != expected.payloadHash then Some(PayloadMismatch)
    else if stored.target != expected.target then Some(TargetMismatch)
    else if stored.economic != expected.economic then Some(EconomicMismatch)
    else if stored != expected then Some(ActionMismatch)
    else None
  }

  function IssueIn(t: Tables, r: Request, at: Time): (Tables, Result<PermitId, Error>) {
    var denial := Denial(r);
    if denial.Some? then (t, Err(denial.value))
    else
      var existing := FindPermit(t.permits, r.action);
      if existing.Some? then (t, Ok(existing.value))
      else
        var authority := Authority(r, r.identity.GetOr(StateActive));
        (Tables(t.permits + [Permit(authority, HashOf(authority), at, None, None)],
                t.log + [PermitIssued(|t.permits|, r.action)]),
         Ok(|t.permits|))
  }

  function ConsumeIn(t: Tables, id: PermitId, expected: Envelope, authorityHolds: bool, now: Time)
    : (Tables, Result<PermitId, Error>)
  {
    if id >= |t.permits| then (t, Err(PermitMissing))
    else
      var p := t.permits[id];
      if p.consumedAt.Some? then (t, Err(AlreadyConsumed))
      else if p.expiresAt.Some? && p.expiresAt.value <= now then (t, Err(Expired))
      else if p.hash != HashOf(p.authority) then (t, Err(Invalid))
      else if Mismatch(p.Bound(), expected).Some? then (t, Err(Mismatch(p.Bound(), expected).value))
      else if !authorityHolds then (t, Err(AuthorityRevoked))
      else
        (Tables(t.permits[id := p.(consumedAt := Some(now))],
                t.log + [PermitConsumed(id, p.Action()), DispatchCommitted(id, p.Action(), p.Bound())]),
         Ok(id))
  }

  class PermitStore {
    var permits: seq<Permit>
    var log: seq<Event>

    ghost function Contents(): Tables
      reads this
    {
      Tables(permits, log)
    }

    constructor ()
      ensures Contents() == Tables([], [])
    {
      permits, log := [], [];
    }

    method IssueExecutionPermit(r: Request, at: Time) returns (result: Result<PermitId, Error>)
      modifies this
      ensures (Contents(), result) == IssueIn(old(Contents()), r, at)
    {
      var denial := Denial(r);
      if denial.Some? {
        return Err(denial.value);
      }
      var existing := FindPermit(permits, r.action);
      if existing.Some? {
        return Ok(existing.value);
      }
      var authority := Authority(r, r.identity.value);
      var id := |permits|;
      permits := permits + [Permit(authority, HashOf(authority), at, None, None)];
      log := log + [PermitIssued(id, r.action)];
      return Ok(id);
    }

    method ConsumeExecutionPermit(id: PermitId, expected: Envelope, authorityHolds: bool, now: Time)
      returns (result: Result<PermitId, Error>)
      modifies this
      ensures (Contents(), result) == ConsumeIn(old(Contents()), id, expected, authorityHolds, now)
    {
      if id >= |permits| {
        return Err(PermitMissing);
      }
      var p := permits[id];
      if p.consumedAt.Some? {
        return Err(AlreadyConsumed);
      }
      if p.expiresAt.Some? && p.expiresAt.value <= now {
        return Err(Expired);
      }
      if p.hash != HashOf(p.authority) {
        return Err(Invalid);
      }
      var mismatch := Mismatch(p.Bound(), expected);
      if mismatch.Some? {
        return Err(mismatch.value);
      }
      if !authorityHolds {
        return Err(AuthorityRevoked);
      }
      permits := permits[id := p.(consumedAt := Some(now))];
      log := log + [PermitConsumed(id, p.Action())];
      log := log + [DispatchCommitted(id, p.Action(), p.Bound())];
      assert log == old(log) + [PermitConsumed(id, p.Action()), DispatchCommitted(id, p.Action(), p.Bound())];
      return Ok(id);
    }
  }

  // ---------------------------------------------------------------------------------------------------
  // Runs: any sequence of issue and consume calls, by anyone, with any answers from the other tables
  // ---------------------------------------------------------------------------------------------------

  datatype Call =
    | Issue(request: Request, at: Time)
    | Consume(permit: PermitId, expected: Envelope, authorityHolds: bool, now: Time)

  function Apply(t: Tables, call: Call): Tables {
    match call
    case Issue(r, at) => IssueIn(t, r, at).0
    case Consume(id, expected, holds, now) => ConsumeIn(t, id, expected, holds, now).0
  }

  function After(calls: seq<Call>): Tables {
    if calls == [] then Tables([], [])
    else Apply(After(calls[..|calls| - 1]), calls[|calls| - 1])
  }

  /** How often the action was committed for dispatch. */
  function Dispatches(log: seq<Event>, action: ActionId): nat {
    if log == [] then 0
    else
      var e := log[|log| - 1];
      Dispatches(log[..|log| - 1], action) + (if e.DispatchCommitted? && e.action == action then 1 else 0)
  }

  lemma {:induction false} DispatchesConcat(a: seq<Event>, b: seq<Event>, action: ActionId)
    ensures Dispatches(a + b, action) == Dispatches(a, action) + Dispatches(b, action)
  {
    if b == [] {
      assert a + b == a;
    } else {
      assert (a + b)[..|a + b| - 1] == a + b[..|b| - 1];
      DispatchesConcat(a, b[..|b| - 1], action);
    }
  }

  lemma {:induction false} FindPermitExact(permits: seq<Permit>, action: ActionId)
    ensures var found := FindPermit(permits, action);
            && (found.Some? ==> found.value < |permits| && permits[found.value].Action() == action)
            && (found.None? ==> forall i | 0 <= i < |permits| :: permits[i].Action() != action)
  {
    if permits != [] {
      FindPermitExact(permits[..|permits| - 1], action);
    }
  }

  // ---------------------------------------------------------------------------------------------------
  // Who is entitled to a permit
  // ---------------------------------------------------------------------------------------------------

  /** A stored or current review is overridden only by a probe or a bootstrap grant, a halt by nothing. */
  ghost predicate Unhindered(r: Request) {
    && r.g13 != Halt && r.identity != Some(StateHalted)
    && (r.g13 == Review || r.identity == Some(StateReviewRequired) ==> r.recoveryProbe || r.bootstrap)
    && (r.g13 == Throttle ==> r.throttleSatisfied)
  }

  /** The profile delegates the amount: without limit, or within its positive budget and its limit per action. */
  ghost predicate Delegates(p: Profile, amount: int) {
    p.unlimitedBudget
    || exists budget :: p.economicBudget == Some(budget) && 0 < budget && amount <= budget
         && forall limit | p.perActionBudget == Some(limit) :: amount <= limit
  }

  /** The profile speaks for the kind and the intent of the action. */
  ghost predicate Covers(p: Profile, kind: ActionKind, intent: Option<nat>) {
    && (p.kinds == {} || kind in p.kinds) && (forall i | intent == Some(i) :: p.intents == {} || i in p.intents)
    && p.external && (kind.TelegraphKind? ==> p.telegraph)
  }

  /** What a request must bring to be granted a permit. */
  ghost predicate Entitled(r: Request) {
    && r.autonomyEnabled && r.identity.Some? && r.reservationVerified
    && r.profile.Some? && r.profile.value.active && Covers(r.profile.value, r.kind, r.intent) && Delegates(r.profile.value, r.amount)
    && Unhindered(r)
  }

  /** A permit is granted exactly to an entitled request, and a refused one changes nothing. */
  lemma PermitGrantedExactly(t: Tables, r: Request, at: Time)
    ensures IssueIn(t, r, at).1.Ok? <==> Entitled(r)
    ensures IssueIn(t, r, at).1.Err? ==> IssueIn(t, r, at).0 == t
  {
    if r.profile.Some? && r.profile.value.economicBudget.Some? {
      assert r.profile.value.economicBudget == Some(r.profile.value.economicBudget.value);
    }
    if r.profile.Some? && r.profile.value.perActionBudget.Some? {
      assert r.profile.value.perActionBudget == Some(r.profile.value.perActionBudget.value);
    }
  }

  /** The authority that refuses, in the order in which they are asked. */
  lemma RefusalNamesTheAuthority(t: Tables, r: Request, at: Time)
    ensures var result := IssueIn(t, r, at).1;
            && (result == Err(FullAutonomyDisabled) <==> !r.autonomyEnabled)
            && (result == Err(ProfileMissing) <==> r.autonomyEnabled && r.profile.None?)
            && (result == Err(IdentityMissing) <==> r.autonomyEnabled && r.profile.Some? && r.identity.None?)
            && (result == Err(G13Halt) ==> r.g13 == Halt || r.identity == Some(StateHalted))
            && (result == Err(G13Review) ==> !r.recoveryProbe && !r.bootstrap && (r.g13 == Review || r.identity == Some(StateReviewRequired)))
            && (result == Err(ThrottleConstraintsRequired) ==> r.g13 == Throttle && !r.throttleSatisfied)
            && (result == Err(ActionNotAllowed) ==> r.profile.Some? && !(r.profile.value.active && Covers(r.profile.value, r.kind, r.intent)))
            && (result == Err(ReservationRequired) ==> !r.reservationVerified)
            && (result in {Err(NoEconomicAuthority), Err(PerActionBudgetExceeded), Err(DelegatedBudgetExceeded)} ==>
                  r.profile.Some? && !Delegates(r.profile.value, r.amount))
  {
  }

  /** The action's earlier permit is returned as it is; otherwise one is added, unused and unexpiring, bound to the request. */
  lemma IssuedPermit(t: Tables, r: Request, at: Time)
    requires Entitled(r)
    ensures var (t', result) := IssueIn(t, r, at);
            if Permitted(t.permits, r.action) then
              t' == t && result.Ok? && result.value < |t.permits| && t.permits[result.value].Action() == r.action
            else
              && result == Ok(|t.permits|) && |t'.permits| == |t.permits| + 1 && t'.permits[..|t.permits|] == t.permits
              && t'.log == t.log + [PermitIssued(|t.permits|, r.action)]
              && var p := t'.permits[|t.permits|];
              && p.authority.request == r && Some(p.authority.state) == r.identity && p.hash == HashOf(p.authority)
              && p.issuedAt == at && p.expiresAt.None? && p.consumedAt.None?
  {
    PermitGrantedExactly(t, r, at);
    FindPermitExact(t.permits, r.action);
  }

  ghost predicate OnePermitPerAction(permits: seq<Permit>) {
    forall i, j | 0 <= i < j < |permits| :: permits[i].Action() != permits[j].Action()
  }

  /** The permit is intact, was lawfully issued, and was dispatched once if consumed and never otherwise. */
  ghost predicate Intact(p: Permit, log: seq<Event>) {
    && p.hash == HashOf(p.authority)
    && p.expiresAt.None?
    && Entitled(p.authority.request)
    && Dispatches(log, p.Action()) == if p.consumedAt.Some? then 1 else 0
  }

  ghost predicate Permitted(permits: seq<Permit>, action: ActionId) {
    exists i :: 0 <= i < |permits| && permits[i].Action() == action
  }

  /** The event, if it is a dispatch, is of a permit's own action and envelope. */
  ghost predicate Faithful(e: Event, permits: seq<Permit>) {
    e.DispatchCommitted? ==>
      e.permit < |permits| && e.action == permits[e.permit].Action() && e.envelope == permits[e.permit].Bound()
  }

  ghost predicate WellKept(t: Tables) {
    && OnePermitPerAction(t.permits)
    && (forall i | 0 <= i < |t.permits| :: Intact(t.permits[i], t.log))
    && (forall a :: !Permitted(t.permits, a) ==> Dispatches(t.log, a) == 0)
    && (forall e | e in t.log :: Faithful(e, t.permits))
  }

  lemma IssueKeeps(t: Tables, r: Request, at: Time)
    requires WellKept(t)
    ensures WellKept(IssueIn(t, r, at).0)
  {
    var t' := IssueIn(t, r, at).0;
    if t' != t {
      PermitGrantedExactly(t, r, at);
      FindPermitExact(t.permits, r.action);
      assert !Permitted(t.permits, r.action);
      forall a ensures Dispatches(t'.log, a) == Dispatches(t.log, a) {
        assert t'.log[..|t.log|] == t.log;
      }
      forall a ensures Permitted(t'.permits, a) <==> Permitted(t.permits, a) || a == r.action {
        assert t'.permits[|t.permits|].Action() == r.action;
        if Permitted(t.permits, a) {
          var i :| 0 <= i < |t.permits| && t.permits[i].Action() == a;
          assert t'.permits[i] == t.permits[i];
        }
      }
    }
  }

  lemma ConsumeLogs(t: Tables, id: PermitId, a: ActionId)
    requires id < |t.permits|
    ensures var p := t.permits[id];
            Dispatches(t.log + [PermitConsumed(id, p.Action()), DispatchCommitted(id, p.Action(), p.Bound())], a)
            == Dispatches(t.log, a) + (if a == p.Action() then 1 else 0)
  {
    var p := t.permits[id];
    var tail := [PermitConsumed(id, p.Action()), DispatchCommitted(id, p.Action(), p.Bound())];
    DispatchesConcat(t.log, tail, a);
    DispatchesConcat([tail[0]], [tail[1]], a);
    assert tail == [tail[0]] + [tail[1]];
  }

  lemma ConsumeKeeps(t: Tables, id: PermitId, expected: Envelope, holds: bool, now: Time)
    requires WellKept(t)
    ensures WellKept(ConsumeIn(t, id, expected, holds, now).0)
  {
    var t' := ConsumeIn(t, id, expected, holds, now).0;
    if t' != t {
      var p := t.permits[id];
      forall a ensures Dispatches(t'.log, a) == Dispatches(t.log, a) + (if a == p.Action() then 1 else 0) {
        ConsumeLogs(t, id, a);
      }
      assert forall i | 0 <= i < |t.permits| :: t'.permits[i].authority == t.permits[i].authority;
      forall a ensures Permitted(t'.permits, a) <==> Permitted(t.permits, a) {
        SameActionsSamePermitted(t.permits, t'.permits, a);
      }
      forall i | 0 <= i < |t'.permits| ensures Intact(t'.permits[i], t'.log) {
        assert Intact(t.permits[i], t.log);
      }
      forall e | e in t'.log ensures Faithful(e, t'.permits) {
        if e in t.log {
          assert Faithful(e, t.permits);
        }
      }
    }
  }

  lemma SameActionsSamePermitted(a: seq<Permit>, b: seq<Permit>, action: ActionId)
    requires |a| == |b| && forall i | 0 <= i < |a| :: a[i].authority == b[i].authority
    ensures Permitted(a, action) <==> Permitted(b, action)
  {
    if Permitted(a, action) {
      var i :| 0 <= i < |a| && a[i].Action() == action;
      assert b[i].Action() == action;
    }
    if Permitted(b, action) {
      var i :| 0 <= i < |b| && b[i].Action() == action;
      assert a[i].Action() == action;
    }
  }

  lemma {:induction false} AlwaysWellKept(calls: seq<Call>)
    ensures WellKept(After(calls))
  {
    if calls != [] {
      var before, call := calls[..|calls| - 1], calls[|calls| - 1];
      AlwaysWellKept(before);
      match call
      case Issue(r, at) => IssueKeeps(After(before), r, at);
      case Consume(id, expected, holds, now) => ConsumeKeeps(After(before), id, expected, holds, now);
    }
  }

  ghost predicate Consumed(t: Tables, action: ActionId) {
    exists i :: 0 <= i < |t.permits| && t.permits[i].Action() == action && t.permits[i].consumedAt.Some?
  }

  /** At most once: over any sequence of issue and consume calls an action is committed for dispatch at most one time. */
  lemma AtMostOneDispatch(calls: seq<Call>, action: ActionId)
    ensures Dispatches(After(calls).log, action) == if Consumed(After(calls), action) then 1 else 0
  {
    AlwaysWellKept(calls);
    var t := After(calls);
    if Permitted(t.permits, action) {
      var i :| 0 <= i < |t.permits| && t.permits[i].Action() == action;
      assert Intact(t.permits[i], t.log);
      assert Consumed(t, action) <==> t.permits[i].consumedAt.Some?;
    }
  }

  /** The k-th call asked for a permit for this action and envelope, and was entitled to it. */
  ghost predicate Requested(calls: seq<Call>, k: nat, action: ActionId, envelope: Envelope) {
    && k < |calls| && calls[k].Issue?
    && var r := calls[k].request;
    && r.action == action && r.envelope == envelope && Entitled(r)
  }

  lemma NewPermitIsRequested(t: Tables, call: Call, id: PermitId)
    requires |t.permits| <= id < |Apply(t, call).permits|
    ensures call.Issue?
    ensures var p, r := Apply(t, call).permits[id], call.request;
            p.Action() == r.action && p.Bound() == r.envelope && Entitled(r)
  {
    PermitGrantedExactly(t, call.request, call.at);
  }

  lemma OldPermitKeepsItsBinding(t: Tables, call: Call, id: PermitId)
    requires id < |t.permits|
    ensures id < |Apply(t, call).permits|
    ensures Apply(t, call).permits[id].Action() == t.permits[id].Action()
    ensures Apply(t, call).permits[id].Bound() == t.permits[id].Bound()
  {
  }

  lemma {:induction false} PermitWasRequested(calls: seq<Call>, id: PermitId) returns (k: nat)
    requires id < |After(calls).permits|
    ensures Requested(calls, k, After(calls).permits[id].Action(), After(calls).permits[id].Bound())
  {
    var before, call := calls[..|calls| - 1], calls[|calls| - 1];
    if id < |After(before).permits| {
      k := PermitWasRequested(before, id);
      OldPermitKeepsItsBinding(After(before), call, id);
      assert before[k] == calls[k];
    } else {
      k := |calls| - 1;
      NewPermitIsRequested(After(before), call, id);
    }
  }

  /** Every dispatch carries the envelope bound when its action was permitted, by a request that was entitled to it. */
  lemma DispatchIsTheBoundAction(calls: seq<Call>, e: Event) returns (k: nat)
    requires e in After(calls).log && e.DispatchCommitted?
    ensures Requested(calls, k, e.action, e.envelope)
  {
    AlwaysWellKept(calls);
    assert Faithful(e, After(calls).permits);
    k := PermitWasRequested(calls, e.permit);
  }

  /** A permit can be consumed exactly when the presented action is the bound one, the permit is unused and authority holds. */
  lemma {:induction false} ConsumptionExactlyWhen(calls: seq<Call>, id: PermitId, expected: Envelope, holds: bool, now: Time)
    ensures var t := After(calls);
            ConsumeIn(t, id, expected, holds, now).1.Ok? <==>
            && id < |t.permits| && t.permits[id].consumedAt.None?
            && t.permits[id].Bound() == expected && expected.contract == EXECUTION_ACTION_CONTRACT
            && holds
  {
    AlwaysWellKept(calls);
    if id < |After(calls).permits| {
      assert Intact(After(calls).permits[id], After(calls).log);
    }
  }

  /** The permit is there, unused, and bound to an action of the known form. */
  ghost predicate Presented(t: Tables, id: PermitId) {
    id < |t.permits| && t.permits[id].consumedAt.None? && t.permits[id].Bound().contract == EXECUTION_ACTION_CONTRACT
  }

  /** Consuming marks the one permit and commits its bound action; a refusal names what is wrong and changes nothing. */
  lemma ConsumptionOutcome(calls: seq<Call>, id: PermitId, expected: Envelope, holds: bool, now: Time)
    ensures var t := After(calls);
            var (t', result) := ConsumeIn(t, id, expected, holds, now);
            && (result == Err(PermitMissing) <==> id >= |t.permits|)
            && (result == Err(AlreadyConsumed) <==> id < |t.permits| && t.permits[id].consumedAt.Some?)
            && (result == Err(PayloadMismatch) <==> Presented(t, id) && t.permits[id].Bound().payloadHash != expected.payloadHash)
            && (result == Err(TargetMismatch) <==>
                  Presented(t, id) && t.permits[id].Bound().payloadHash == expected.payloadHash && t.permits[id].Bound().target != expected.target)
            && (result == Err(EconomicMismatch) <==>
                  && Presented(t, id) && t.permits[id].Bound().payloadHash == expected.payloadHash
                  && t.permits[id].Bound().target == expected.target && t.permits[id].Bound().economic != expected.economic)
            && (result == Err(AuthorityRevoked) <==>
                  && id < |t.permits| && t.permits[id].consumedAt.None? && t.permits[id].Bound() == expected
                  && expected.contract == EXECUTION_ACTION_CONTRACT && !holds)
            && (result.Err? ==> t' == t)
            && (result.Ok? ==>
                  && id < |t.permits| && result.value == id && |t'.permits| == |t.permits|
                  && (forall i | 0 <= i < |t.permits| && i != id :: t'.permits[i] == t.permits[i])
                  && t'.permits[id] == t.permits[id].(consumedAt := Some(now))
                  && t'.log == t.log + [PermitConsumed(id, t.permits[id].Action()), DispatchCommitted(id, t.permits[id].Action(), expected)])
  {
    AlwaysWellKept(calls);
    if id < |After(calls).permits| {
      assert Intact(After(calls).permits[id], After(calls).log);
    }
  }

  /** Whatever the rows hold, an expired permit and one that no longer matches its hash are refused as such. */
  lemma StaleOrForgedIsRefused(t: Tables, id: PermitId, expected: Envelope, holds: bool, now: Time)
    requires id < |t.permits| && t.permits[id].consumedAt.None?
    ensures var p, result := t.permits[id], ConsumeIn(t, id, expected, holds, now).1;
            && (result == Err(Expired) <==> exists end :: p.expiresAt == Some(end) && end <= now)
            && (result == Err(Invalid) <==>
                  && (forall end | p.expiresAt == Some(end) :: now < end)
                  && (p.hash.authority != p.authority || p.Bound().contract != EXECUTION_ACTION_CONTRACT))
  {
    if t.permits[id].expiresAt.Some? {
      assert t.permits[id].expiresAt == Some(t.permits[id].expiresAt.value);
    }
  }
}
