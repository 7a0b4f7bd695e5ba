/**
 Bounded cold-start grants (backend/app/authority/bootstrap.py).

 A grant is identified by its row. The amount of a request is a decimal number; the row keeps it in millionths, rounded,
 while its hash was computed from the number itself. The content hash is modelled by a constructor.
 */
module BootstrapAuthority {
  import opened Wrappers
  import Numerals
  import CanonicalDecimals
  import StoredAmounts

  type Time = int
  type AgentId = nat
  type PolicyId = nat
  type ActionId = nat
  type GrantId = nat

  /** The kind of an action; a blank name is refused. */
  datatype Kind = TelegraphAcquisition | NamedKind(name: nat) | BlankKind

  datatype Status = Active | Revoked | Exhausted

  /** The immutable part of a grant but for its amount. */
  datatype Terms = Terms(agent: AgentId, policy: PolicyId, profile: nat, maxActions: int, kinds: set<Kind>,
                         validFrom: Time, validUntil: Option<Time>)

  datatype Hash = HashOf(terms: Terms, maxSpend: Numerals.Text)

  datatype Grant = Grant(terms: Terms, maxSpend: nat, hash: Hash, enabled: bool, status: Status, consumed: int) {
    function Remaining(): int {
      if terms.maxActions > consumed then terms.maxActions - consumed else 0
    }

    predicate InForce(at: Time) {
      terms.validFrom <= at && (terms.validUntil.Some? ==> at < terms.validUntil.value)
    }

    /** The hash computed anew from the row is the stored one. */
    predicate Verified() {
      hash == HashOf(terms, StoredAmounts.TextOf(StoredAmounts.Loaded(maxSpend)))
    }
  }

  datatype Event =
    | Created(grant: GrantId)
    | Consumed(grant: GrantId, action: ActionId, amount: real)
    | RevokedEvent(grant: GrantId)

  datatype Tables = Tables(grants: seq<Grant>, log: seq<Event>)

  datatype Error =
    | ActionLimitInvalid | BudgetInvalid | IdentityInvalid | ScopeInvalid | ValidityInvalid | Exists
    | Ambiguous | HashUnverified | Missing | NoneLeft | ScopeDenied

  function FindActive(grants: seq<Grant>, agent: AgentId, policy: PolicyId): Option<GrantId> {
    if grants == [] then None
    else
      var g := grants[|grants| - 1];
      if g.terms.agent == agent && g.terms.policy == policy && g.status == Active then Some(|grants| - 1)
      else FindActive(grants[..|grants| - 1], agent, policy)
  }

  /** No kinds at all stand for the one default kind. */
  function Scoped(terms: Terms): Terms {
    if terms.kinds == {} then terms.(kinds := {TelegraphAcquisition}) else terms
  }

  /** The new row: the amount is hashed as it was given, and then rounded into its column. */
  function NewGrant(terms: Terms, maxSpend: CanonicalDecimals.Decimal): Grant
    requires StoredAmounts.Affordable(maxSpend)
  {
    Grant(terms, StoredAmounts.Stored(maxSpend), HashOf(terms, StoredAmounts.TextOf(maxSpend)), true, Active, 0)
  }

  function CreateIn(t: Tables, terms: Terms, maxSpend: CanonicalDecimals.Decimal, identityValid: bool): (Tables, Result<GrantId, Error>) {
    if terms.maxActions < 1 then (t, Err(ActionLimitInvalid))
    else if !StoredAmounts.Affordable(maxSpend) then (t, Err(BudgetInvalid))
    else if !identityValid then (t, Err(IdentityInvalid))
    else if BlankKind in terms.kinds then (t, Err(ScopeInvalid))
    else if terms.validUntil.Some? && terms.validUntil.value <= terms.validFrom then (t, Err(ValidityInvalid))
    else if FindActive(t.grants, terms.agent, terms.policy).Some? then (t, Err(Exists))
    else
      (Tables(t.grants + [NewGrant(Scoped(terms), maxSpend)], t.log + [Created(|t.grants|)]), Ok(|t.grants|))
  }

  predicate Spent(log: seq<Event>, id: GrantId, action: ActionId) {
    exists e | e in log :: e.Consumed? && e.grant == id && e.action == action
  }

  function ConsumeIn(t: Tables, id: GrantId, action: ActionId, kind: Kind, amount: real): (Tables, Result<GrantId, Error>) {
    if id >= |t.grants| then (t, Err(Missing))
    else
      var g := t.grants[id];
      if !g.Verified() then (t, Err(HashUnverified))
      else if Spent(t.log, id, action) then (t, Ok(id))
      else if !g.enabled || g.status != Active || g.Remaining() <= 0 then (t, Err(NoneLeft))
      else if kind !in g.terms.kinds then (t, Err(ScopeDenied))
      else if amount < 0.0 || amount > g.maxSpend as real then (t, Err(BudgetInvalid))
      else
        var g' := g.(consumed := g.consumed + 1);
        (Tables(t.grants[id := g'.(status := if g'.Remaining() == 0 then Exhausted else Active)],
                t.log + [Consumed(id, action, amount)]),
         Ok(id))
  }

  function RevokeIn(t: Tables, id: GrantId): (Tables, Result<GrantId, Error>) {
    if id >= |t.grants| then (t, Err(Missing))
    else if t.grants[id].status != Active then (t, Ok(id))
    else
      (Tables(t.grants[id := t.grants[id].(status := Revoked, enabled := false)], t.log + [RevokedEvent(id)]), Ok(id))
  }

  /** The grant may be resolved for the agent and policy at the instant. */
  predicate Usable(g: Grant, agent: AgentId, policy: PolicyId, at: Time) {
    g.terms.agent == agent && g.terms.policy == policy && g.enabled && g.status == Active && g.InForce(at)
  }

  function UsableIds(grants: seq<Grant>, agent: AgentId, policy: PolicyId, at: Time): seq<GrantId> {
    if grants == [] then []
    else
      var n := |grants| - 1;
      if Usable(grants[n], agent, policy, at) then UsableIds(grants[..n], agent, policy, at) + [n]
      else UsableIds(grants[..n], agent, policy, at)
  }

  function GetBootstrapAuthority(t: Tables, agent: AgentId, policy: PolicyId, at: Time): Result<Option<GrantId>, Error> {
    var ids := UsableIds(t.grants, agent, policy, at);
    if |ids| > 1 then Err(Ambiguous)
    else if |ids| == 0 then Ok(None)
    else if ids[0] < |t.grants| && !t.grants[ids[0]].Verified() then Err(HashUnverified)
    else Ok(Some(ids[0]))
  }

  class GrantStore {
    var grants: seq<Grant>
    var log: seq<Event>

    ghost function Contents(): Tables
      reads this
    {
      Tables(grants, log)
    }

    constructor ()
      ensures Contents() == Tables([], [])
    {
      grants, log := [], [];
    }

    method CreateBootstrapAuthority(terms: Terms, maxSpend: CanonicalDecimals.Decimal, identityValid: bool)
      returns (r: Result<GrantId, Error>)
      modifies this
      ensures (Contents(), r) == CreateIn(old(Contents()), terms, maxSpend, identityValid)
    {
      if terms.maxActions < 1 {
        return Err(ActionLimitInvalid);
      }
      if !StoredAmounts.Affordable(maxSpend) {
        return Err(BudgetInvalid);
      }
      if !identityValid {
        return Err(IdentityInvalid);
      }
      var kinds := if terms.kinds == {} then {TelegraphAcquisition} else terms.kinds;
      if BlankKind in kinds {
        return Err(ScopeInvalid);
      }
      if terms.validUntil.Some? && terms.validUntil.value <= terms.validFrom {
        return Err(ValidityInvalid);
      }
      var existing := FindActive(grants, terms.agent, terms.policy);
      if existing.Some? {
        return Err(Exists);
      }
      var id := |grants|;
      grants := grants + [NewGrant(terms.(kinds := kinds), maxSpend)];
      log := log + [Created(id)];
      return Ok(id);
    }

    method ConsumeBootstrapAuthority(id: GrantId, action: ActionId, kind: Kind, amount: real) returns (r: Result<GrantId, Error>)
      modifies this
      ensures (Contents(), r) == ConsumeIn(old(Contents()), id, action, kind, amount)
    {
      if id >= |grants| {
        return Err(Missing);
      }
      var g := grants[id];
      if !g.Verified() {
        return Err(HashUnverified);
      }
      if Spent(log, id, action) {
        return Ok(id);
      }
      if !g.enabled || g.status != Active || g.Remaining() <= 0 {
        return Err(NoneLeft);
      }
      if kind !in g.terms.kinds {
        return Err(ScopeDenied);
      }
      if amount < 0.0 || amount > g.maxSpend as real {
        return Err(BudgetInvalid);
      }
      g := g.(consumed := g.consumed + 1);
      if g.Remaining() == 0 {
        g := g.(status := Exhausted);
      }
      grants := grants[id := g];
      log := log + [Consumed(id, action, amount)];
      return Ok(id);
    }

    method RevokeBootstrapAuthority(id: GrantId) returns (r: Result<GrantId, Error>)
      modifies this
      ensures (Contents(), r) == RevokeIn(old(Contents()), id)
    {
      if id >= |grants| {
        return Err(Missing);
      }
      if grants[id].status == Active {
        grants := grants[id := grants[id].(status := Revoked, enabled := false)];
        log := log + [RevokedEvent(id)];
      }
      return Ok(id);
    }
  }

  // ---------------------------------------------------------------------------------------------------
  // Runs: any sequence of create, consume and revoke calls
  // ---------------------------------------------------------------------------------------------------

  datatype Call =
    | Create(terms: Terms, maxSpend: CanonicalDecimals.Decimal, identityValid: bool)
    | Consume(grant: GrantId, action: ActionId, kind: Kind, amount: real)
    | Revoke(grant: GrantId)

  function Apply(t: Tables, call: Call): Tables {
    match call
    case Create(terms, maxSpend, valid) => CreateIn(t, terms, maxSpend, valid).0
    case Consume(id, action, kind, amount) => ConsumeIn(t, id, action, kind, amount).0
    case Revoke(id) => RevokeIn(t, id).0
  }

  function After(calls: seq<Call>): Tables {
    if calls == [] then Tables([], [])
    else Apply(After(calls[..|calls| - 1]), calls[|calls| - 1])
  }

  /** The distinct actions that consumed the grant. */
  function ActionsOf(log: seq<Event>, id: GrantId): set<ActionId> {
    if log == [] then {}
    else
      var e := log[|log| - 1];
      ActionsOf(log[..|log| - 1], id) + (if e.Consumed? && e.grant == id then {e.action} else {})
  }

  /** The total amount committed under the grant. */
  function AmountOf(log: seq<Event>, id: GrantId): real {
    if log == [] then 0.0
    else
      var e := log[|log| - 1];
      AmountOf(log[..|log| - 1], id) + (if e.Consumed? && e.grant == id then e.amount else 0.0)
  }

  lemma LogStep(log: seq<Event>, e: Event, id: GrantId)
    ensures ActionsOf(log + [e], id) == ActionsOf(log, id) + (if e.Consumed? && e.grant == id then {e.action} else {})
    ensures AmountOf(log + [e], id) == AmountOf(log, id) + (if e.Consumed? && e.grant == id then e.amount else 0.0)
  {
    assert (log + [e])[..|log|] == log;
  }

  lemma {:induction false} ActionsAreSpent(log: seq<Event>, id: GrantId)
    ensures forall action :: action in ActionsOf(log, id) <==> Spent(log, id, action)
  {
    if log != [] {
      var n := |log| - 1;
      ActionsAreSpent(log[..n], id);
      assert log == log[..n] + [log[n]];
      forall action ensures action in ActionsOf(log, id) <==> Spent(log, id, action) {
        if Spent(log[..n], id, action) {
          var e :| e in log[..n] && e.Consumed? && e.grant == id && e.action == action;
          assert e in log;
        }
      }
    }
  }

  /** The allowance of a grant agrees with the log of its consumptions. */
  ghost predicate Metered(g: Grant, log: seq<Event>, id: GrantId) {
    && g.maxSpend <= StoredAmounts.LARGEST_STORED
    && g.consumed == |ActionsOf(log, id)| <= g.terms.maxActions
    && 0.0 <= AmountOf(log, id) <= (g.consumed * g.maxSpend) as real
    && (g.status == Active ==> g.enabled && g.consumed < g.terms.maxActions)
    && (g.status == Exhausted <==> g.consumed == g.terms.maxActions)
  }

  ghost predicate OneActive(grants: seq<Grant>) {
    forall i, j | 0 <= i < j < |grants| ::
      !(grants[i].status == Active && grants[j].status == Active
        && grants[i].terms.agent == grants[j].terms.agent && grants[i].terms.policy == grants[j].terms.policy)
  }

  ghost predicate WellKept(t: Tables) {
    && OneActive(t.grants)
    && (forall i | 0 <= i < |t.grants| :: Metered(t.grants[i], t.log, i))
    && (forall e | e in t.log :: e.grant < |t.grants|)
  }

  lemma {:induction false} FindActiveExact(grants: seq<Grant>, agent: AgentId, policy: PolicyId)
    ensures FindActive(grants, agent, policy).None? ==>
              forall i | 0 <= i < |grants| :: !(grants[i].terms.agent == agent && grants[i].terms.policy == policy && grants[i].status == Active)
  {
    if grants != [] {
      FindActiveExact(grants[..|grants| - 1], agent, policy);
    }
  }

  lemma {:induction false} UnknownGrantHasNoActions(log: seq<Event>, id: GrantId)
    requires forall e | e in log :: e.grant < id
    ensures ActionsOf(log, id) == {} && AmountOf(log, id) == 0.0
  {
    if log != [] {
      var n := |log| - 1;
      assert log[n] in log && forall e | e in log[..n] :: e in log;
      UnknownGrantHasNoActions(log[..n], id);
    }
  }

  lemma NewActiveIsAlone(grants: seq<Grant>, g: Grant)
    requires OneActive(grants)
    requires forall i | 0 <= i < |grants| ::
               !(grants[i].terms.agent == g.terms.agent && grants[i].terms.policy == g.terms.policy && grants[i].status == Active)
    ensures OneActive(grants + [g])
  {
  }

  lemma OneActiveAfterUpdate(grants: seq<Grant>, id: GrantId, g: Grant)
    requires OneActive(grants) && id < |grants| && g.terms == grants[id].terms && (g.status == Active ==> grants[id].status == Active)
    ensures OneActive(grants[id := g])
  {
  }

  lemma CreateKeeps(t: Tables, terms: Terms, maxSpend: CanonicalDecimals.Decimal, valid: bool)
    requires WellKept(t)
    ensures WellKept(CreateIn(t, terms, maxSpend, valid).0)
  {
    var t' := CreateIn(t, terms, maxSpend, valid).0;
    if t' != t {
      FindActiveExact(t.grants, terms.agent, terms.policy);
      NewActiveIsAlone(t.grants, t'.grants[|t.grants|]);
      UnknownGrantHasNoActions(t.log, |t.grants|);
      StoredAmounts.StoredIsBounded(maxSpend);
      forall i | 0 <= i < |t'.grants| ensures Metered(t'.grants[i], t'.log, i) {
        LogStep(t.log, Created(|t.grants|), i);
        assert i < |t.grants| ==> Metered(t.grants[i], t.log, i);
      }
    }
  }

  lemma AmountStaysWithin(total: real, consumed: int, maxSpend: int, amount: real)
    requires total <= (consumed * maxSpend) as real && amount <= maxSpend as real
    ensures total + amount <= ((consumed + 1) * maxSpend) as real
  {
    assert (consumed + 1) * maxSpend == consumed * maxSpend + maxSpend;
  }

  lemma {:induction false} ConsumeMeters(g: Grant, log: seq<Event>, id: GrantId, action: ActionId, amount: real)
    requires Metered(g, log, id) && g.status == Active && action !in ActionsOf(log, id) && 0.0 <= amount <= g.maxSpend as real
    ensures var g' := g.(consumed := g.consumed + 1);
            Metered(g'.(status := if g'.Remaining() == 0 then Exhausted else Active), log + [Consumed(id, action, amount)], id)
  {
    LogStep(log, Consumed(id, action, amount), id);
    assert |ActionsOf(log, id) + {action}| == |ActionsOf(log, id)| + 1;
    AmountStaysWithin(AmountOf(log, id), g.consumed, g.maxSpend, amount);
  }

  lemma ConsumeKeeps(t: Tables, id: GrantId, action: ActionId, kind: Kind, amount: real)
    requires WellKept(t)
    ensures WellKept(ConsumeIn(t, id, action, kind, amount).0)
  {
    var t' := ConsumeIn(t, id, action, kind, amount).0;
    if t' != t {
      assert Metered(t.grants[id], t.log, id);
      ActionsAreSpent(t.log, id);
      ConsumeMeters(t.grants[id], t.log, id, action, amount);
      OneActiveAfterUpdate(t.grants, id, t'.grants[id]);
      forall i | 0 <= i < |t'.grants| && i != id ensures Metered(t'.grants[i], t'.log, i) {
        LogStep(t.log, Consumed(id, action, amount), i);
        assert Metered(t.grants[i], t.log, i);
      }
    }
  }

  lemma RevokeKeeps(t: Tables, id: GrantId)
    requires WellKept(t)
    ensures WellKept(RevokeIn(t, id).0)
  {
    var t' := RevokeIn(t, id).0;
    if t' != t {
      OneActiveAfterUpdate(t.grants, id, t'.grants[id]);
      forall i | 0 <= i < |t'.grants| ensures Metered(t'.grants[i], t'.log, i) {
        LogStep(t.log, RevokedEvent(id), i);
        assert Metered(t.grants[i], t.log, i);
      }
    }
  }

  lemma {:induction false} AlwaysWellKept(calls: seq<Call>)
    ensures WellKept(After(calls))
  {
    if calls != [] {
      var before, call := calls[..|calls| - 1], calls[|calls| - 1];
      AlwaysWellKept(before);
      match call
      case Create(terms, maxSpend, valid) => CreateKeeps(After(before), terms, maxSpend, valid);
      case Consume(id, action, kind, amount) => ConsumeKeeps(After(before), id, action, kind, amount);
      case Revoke(id) => RevokeKeeps(After(before), id);
    }
  }

  /** The allowance is exact: it counts distinct actions, never exceeds the limit, and bounds the total amount. */
  lemma AllowanceIsExact(calls: seq<Call>, id: GrantId)
    requires id < |After(calls).grants|
    ensures var g, log := After(calls).grants[id], After(calls).log;
            && g.consumed == |ActionsOf(log, id)| <= g.terms.maxActions
            && (forall action :: action in ActionsOf(log, id) <==> Spent(log, id, action))
            && AmountOf(log, id) <= (g.terms.maxActions * g.maxSpend) as real
  {
    AlwaysWellKept(calls);
    var g := After(calls).grants[id];
    assert Metered(g, After(calls).log, id);
    ActionsAreSpent(After(calls).log, id);
    MultiplyMonotone(g.consumed, g.terms.maxActions, g.maxSpend);
  }

  lemma MultiplyMonotone(a: int, b: int, c: int)
    requires a <= b && 0 <= c
    ensures a * c <= b * c
  {
    assert b * c - a * c == (b - a) * c;
  }

  lemma {:induction false} NoneUsable(grants: seq<Grant>, agent: AgentId, policy: PolicyId, at: Time)
    ensures UsableIds(grants, agent, policy, at) == [] <==> forall g | g in grants :: !Usable(g, agent, policy, at)
  {
    if grants != [] {
      var n := |grants| - 1;
      NoneUsable(grants[..n], agent, policy, at);
      assert grants == grants[..n] + [grants[n]];
    }
  }

  lemma {:induction false} AtMostOneUsable(grants: seq<Grant>, agent: AgentId, policy: PolicyId, at: Time)
    requires OneActive(grants)
    ensures |UsableIds(grants, agent, policy, at)| <= 1
    ensures forall id | id in UsableIds(grants, agent, policy, at) :: id < |grants| && Usable(grants[id], agent, policy, at)
  {
    if grants != [] {
      var n := |grants| - 1;
      AtMostOneUsable(grants[..n], agent, policy, at);
      if Usable(grants[n], agent, policy, at) {
        NoneUsable(grants[..n], agent, policy, at);
      }
    }
  }

  // ---------------------------------------------------------------------------------------------------
  // Each operation told by the stored grants and the log
  // ---------------------------------------------------------------------------------------------------

  /** An active grant of the agent under the policy, within its validity. */
  ghost predicate Serves(g: Grant, agent: AgentId, policy: PolicyId, at: Time) {
    && g.status == Active && g.terms.agent == agent && g.terms.policy == policy
    && g.terms.validFrom <= at && forall end | g.terms.validUntil == Some(end) :: at < end
  }

  lemma UsableIsServing(calls: seq<Call>, g: Grant, agent: AgentId, policy: PolicyId, at: Time)
    requires g in After(calls).grants
    ensures Usable(g, agent, policy, at) <==> Serves(g, agent, policy, at)
  {
    AlwaysWellKept(calls);
    var i :| 0 <= i < |After(calls).grants| && After(calls).grants[i] == g;
    assert Metered(After(calls).grants[i], After(calls).log, i);
  }

  ghost predicate HasActive(t: Tables, agent: AgentId, policy: PolicyId) {
    exists g :: g in t.grants && g.status == Active && g.terms.agent == agent && g.terms.policy == policy
  }

  /** A grant is created exactly for a sound request while the agent has no active one under the policy, and starts unused. */
  lemma CreationExactly(t: Tables, terms: Terms, maxSpend: CanonicalDecimals.Decimal, identityValid: bool)
    ensures var (t', result) := CreateIn(t, terms, maxSpend, identityValid);
            && (result.Ok? <==>
                  && terms.maxActions >= 1 && StoredAmounts.Affordable(maxSpend) && identityValid && BlankKind !in terms.kinds
                  && (forall end | terms.validUntil == Some(end) :: terms.validFrom < end)
                  && !HasActive(t, terms.agent, terms.policy))
            && (result == Err(Exists) ==> HasActive(t, terms.agent, terms.policy))
            && (result.Err? ==> t' == t)
            && (result.Ok? ==>
                  && result.value == |t.grants| && |t'.grants| == |t.grants| + 1 && t'.grants[..|t.grants|] == t.grants
                  && t'.log == t.log + [Created(|t.grants|)]
                  && var g := t'.grants[|t.grants|];
                  && g.enabled && g.status == Active && g.consumed == 0 && CreatedFrom(g, maxSpend)
                  && g.terms == terms.(kinds := g.terms.kinds)
                  && (terms.kinds != {} ==> g.terms.kinds == terms.kinds) && (terms.kinds == {} ==> g.terms.kinds == {TelegraphAcquisition}))
  {
    FindActiveFound(t.grants, terms.agent, terms.policy);
    FindActiveExact(t.grants, terms.agent, terms.policy);
    if g :| g in t.grants && g.status == Active && g.terms.agent == terms.agent && g.terms.policy == terms.policy {
      var i :| 0 <= i < |t.grants| && t.grants[i] == g;
    }
  }

  lemma {:induction false} FindActiveFound(grants: seq<Grant>, agent: AgentId, policy: PolicyId)
    ensures FindActive(grants, agent, policy).Some? ==>
              exists g :: g in grants && g.status == Active && g.terms.agent == agent && g.terms.policy == policy
  {
    if grants != [] {
      var g := grants[|grants| - 1];
      if !(g.terms.agent == agent && g.terms.policy == policy && g.status == Active) {
        FindActiveFound(grants[..|grants| - 1], agent, policy);
      }
    }
  }

  /** The action was committed under the grant before. */
  ghost predicate Committed(t: Tables, id: GrantId, action: ActionId) {
    exists amount :: Consumed(id, action, amount) in t.log
  }

  /** Consuming succeeds exactly for a repeated action, or within the scope and the budget of a grant that is still active. */
  lemma ConsumptionExactly(calls: seq<Call>, id: GrantId, action: ActionId, kind: Kind, amount: real)
    ensures var t, result := After(calls), ConsumeIn(After(calls), id, action, kind, amount).1;
            && (result == Err(Missing) <==> id >= |t.grants|)
            && (result == Err(HashUnverified) <==> id < |t.grants| && !t.grants[id].Verified())
            && (id < |t.grants| && t.grants[id].Verified() ==>
                  var g, repeated := t.grants[id], Committed(t, id, action);
                  && (result == Ok(id) <==>
                        repeated || (g.status == Active && kind in g.terms.kinds && 0.0 <= amount <= g.maxSpend as real))
                  && (result == Err(NoneLeft) <==> !repeated && g.status != Active)
                  && (result == Err(ScopeDenied) <==> !repeated && g.status == Active && kind !in g.terms.kinds)
                  && (result == Err(BudgetInvalid) <==>
                        !repeated && g.status == Active && kind in g.terms.kinds && !(0.0 <= amount <= g.maxSpend as real)))
  {
    AlwaysWellKept(calls);
    var t := After(calls);
    if id < |t.grants| {
      assert Metered(t.grants[id], t.log, id);
      CommittedIsSpent(t, id, action);
    }
  }

  lemma CommittedIsSpent(t: Tables, id: GrantId, action: ActionId)
    ensures Spent(t.log, id, action) <==> Committed(t, id, action)
  {
    if Spent(t.log, id, action) {
      var e :| e in t.log && e.Consumed? && e.grant == id && e.action == action;
      assert e == Consumed(id, action, e.amount);
    }
  }

  /** It counts a new action once, closes the grant with its last one, and touches no other grant. */
  lemma ConsumptionCounts(calls: seq<Call>, id: GrantId, action: ActionId, kind: Kind, amount: real)
    ensures var t, (t', result) := After(calls), ConsumeIn(After(calls), id, action, kind, amount);
            if result.Err? || Committed(t, id, action) then t' == t
            else
              && id < |t.grants| && |t'.grants| == |t.grants| && (forall i | 0 <= i < |t.grants| && i != id :: t'.grants[i] == t.grants[i])
              && t'.log == t.log + [Consumed(id, action, amount)]
              && var g, g' := t.grants[id], t'.grants[id];
              && g'.consumed == g.consumed + 1 && g' == g.(consumed := g'.consumed, status := g'.status)
              && g'.status == if g'.consumed == g.terms.maxActions then Exhausted else Active
  {
    AlwaysWellKept(calls);
    var t := After(calls);
    if id < |t.grants| {
      assert Metered(t.grants[id], t.log, id);
      CommittedIsSpent(t, id, action);
    }
  }

  /** Revoking closes exactly an active grant. */
  lemma RevocationExactly(t: Tables, id: GrantId)
    ensures var (t', result) := RevokeIn(t, id);
            && (result == Err(Missing) <==> id >= |t.grants|) && (id < |t.grants| ==> result == Ok(id))
            && (t' != t ==> id < |t.grants|)
            && (id < |t.grants| ==>
                  && |t'.grants| == |t.grants| && (forall i | 0 <= i < |t.grants| && i != id :: t'.grants[i] == t.grants[i])
                  && t'.grants[id] == (if t.grants[id].status == Active then t.grants[id].(status := Revoked, enabled := false) else t.grants[id])
                  && t'.log == t.log + (if t.grants[id].status == Active then [RevokedEvent(id)] else []))
  {
  }

  /**
   Resolving a grant is never ambiguous. It finds the usable grant if there is one, and fails exactly if the hash of that
   grant does not verify.
   */
  lemma ResolutionExactly(calls: seq<Call>, agent: AgentId, policy: PolicyId, at: Time)
    ensures var grants, r := After(calls).grants, GetBootstrapAuthority(After(calls), agent, policy, at);
            match r
            case Ok(Some(id)) => id < |grants| && Serves(grants[id], agent, policy, at) && grants[id].Verified()
            case Ok(None) => forall g | g in grants :: !Serves(g, agent, policy, at)
            case Err(e) => e == HashUnverified && exists g :: g in grants && Serves(g, agent, policy, at) && !g.Verified()
  {
    AlwaysWellKept(calls);
    var t := After(calls);
    var ids := UsableIds(t.grants, agent, policy, at);
    AtMostOneUsable(t.grants, agent, policy, at);
    NoneUsable(t.grants, agent, policy, at);
    forall g | g in t.grants ensures Usable(g, agent, policy, at) <==> Serves(g, agent, policy, at) {
      UsableIsServing(calls, g, agent, policy, at);
    }
    if |ids| == 1 {
      assert ids[0] in ids && t.grants[ids[0]] in t.grants;
    }
  }

  /** The row goes back to a request for some amount. */
  ghost predicate CreatedFrom(g: Grant, maxSpend: CanonicalDecimals.Decimal) {
    && StoredAmounts.Affordable(maxSpend)
    && g.maxSpend == StoredAmounts.Stored(maxSpend) && g.hash == HashOf(g.terms, StoredAmounts.TextOf(maxSpend))
  }

  ghost predicate WasRequested(g: Grant) {
    exists maxSpend :: CreatedFrom(g, maxSpend)
  }

  ghost predicate AllRequested(grants: seq<Grant>) {
    forall i | 0 <= i < |grants| :: WasRequested(grants[i])
  }

  lemma TermsAreKept(t: Tables, call: Call, id: GrantId)
    requires id < |t.grants|
    ensures id < |Apply(t, call).grants|
    ensures var g, g' := t.grants[id], Apply(t, call).grants[id];
            g'.terms == g.terms && g'.maxSpend == g.maxSpend && g'.hash == g.hash
  {
  }

  lemma NewGrantIsRequested(t: Tables, call: Call)
    requires |Apply(t, call).grants| > |t.grants|
    ensures |Apply(t, call).grants| == |t.grants| + 1 && WasRequested(Apply(t, call).grants[|t.grants|])
  {
    assert CreatedFrom(Apply(t, call).grants[|t.grants|], call.maxSpend);
  }

  lemma StepKeepsOrigin(t: Tables, call: Call)
    requires AllRequested(t.grants)
    ensures AllRequested(Apply(t, call).grants)
  {
    forall i | 0 <= i < |Apply(t, call).grants| ensures WasRequested(Apply(t, call).grants[i]) {
      if i < |t.grants| {
        OldGrantIsRequested(t, call, i);
      } else {
        NewGrantIsRequested(t, call);
      }
    }
  }

  lemma OldGrantIsRequested(t: Tables, call: Call, id: GrantId)
    requires id < |t.grants| && WasRequested(t.grants[id])
    ensures id < |Apply(t, call).grants| && WasRequested(Apply(t, call).grants[id])
  {
    TermsAreKept(t, call, id);
    var maxSpend :| CreatedFrom(t.grants[id], maxSpend);
    assert CreatedFrom(Apply(t, call).grants[id], maxSpend);
  }

  lemma {:induction false} EveryGrantWasRequested(calls: seq<Call>)
    ensures AllRequested(After(calls).grants)
  {
    if calls != [] {
      EveryGrantWasRequested(calls[..|calls| - 1]);
      StepKeepsOrigin(After(calls[..|calls| - 1]), calls[|calls| - 1]);
    }
  }

  /**
   Whatever happened since, the hash of a grant verifies exactly if the canonical text of the requested amount has no more
   than six decimals; for an amount of at most 28 significant digits, exactly if it is a whole number of millionths.
   */
  lemma HashVerifiesExactly(calls: seq<Call>, id: GrantId) returns (maxSpend: CanonicalDecimals.Decimal)
    requires id < |After(calls).grants|
    ensures CreatedFrom(After(calls).grants[id], maxSpend)
    ensures After(calls).grants[id].Verified() <==> CanonicalDecimals.Normalize(maxSpend).exponent >= -StoredAmounts.PLACES
    ensures CanonicalDecimals.WithinPrecision(maxSpend) ==> (After(calls).grants[id].Verified() <==> StoredAmounts.IsWhole(maxSpend))
  {
    EveryGrantWasRequested(calls);
    assert WasRequested(After(calls).grants[id]);
    maxSpend :| CreatedFrom(After(calls).grants[id], maxSpend);
    StoredAmounts.StoredKeepsTextExactly(maxSpend);
    if CanonicalDecimals.WithinPrecision(maxSpend) {
      StoredAmounts.StoredKeepsTextOfWhole(maxSpend);
    }
  }

  /** A grant of one and a half millionths is accepted, and resolves to an unverified hash as long as it is usable. */
  lemma FractionIsUnverified(terms: Terms, at: Time)
    requires terms.maxActions >= 1 && BlankKind !in terms.kinds && (terms.validUntil.Some? ==> terms.validFrom < terms.validUntil.value)
    requires terms.validFrom <= at && (terms.validUntil.Some? ==> at < terms.validUntil.value)
    ensures var t := After([Create(terms, CanonicalDecimals.Finite(false, 15, -7), true)]);
            |t.grants| == 1 && GetBootstrapAuthority(t, terms.agent, terms.policy, at) == Err(HashUnverified)
  {
    var amount := CanonicalDecimals.Finite(false, 15, -7);
    Fraction();
    var call := Create(terms, amount, true);
    var g := NewGrant(Scoped(terms), amount);
    assert [call][..0] == [] && After([call]) == Apply(After([]), call);
    FirstGrant(terms, amount);
    OnlyGrantUsable(g, terms.agent, terms.policy, at);
  }

  lemma FirstGrant(terms: Terms, amount: CanonicalDecimals.Decimal)
    requires StoredAmounts.Affordable(amount) && terms.maxActions >= 1 && BlankKind !in terms.kinds
    requires terms.validUntil.Some? ==> terms.validFrom < terms.validUntil.value
    ensures CreateIn(Tables([], []), terms, amount, true).0.grants == [NewGrant(Scoped(terms), amount)]
  {
  }

  lemma OnlyGrantUsable(g: Grant, agent: AgentId, policy: PolicyId, at: Time)
    requires Usable(g, agent, policy, at)
    ensures UsableIds([g], agent, policy, at) == [0]
  {
    assert [g][..0] == [] && UsableIds([], agent, policy, at) == [];
    assert [] + [0] == [0];
  }

  lemma Fraction()
    ensures var d := CanonicalDecimals.Finite(false, 15, -7);
            StoredAmounts.Affordable(d) && StoredAmounts.TextOf(StoredAmounts.Loaded(StoredAmounts.Stored(d))) != StoredAmounts.TextOf(d)
  {
    var d := CanonicalDecimals.Finite(false, 15, -7);
    assert Numerals.Pow10(5) == 100_000 && Numerals.Pow10(1) == 10;
    assert StoredAmounts.Affordable(d);
    assert |Numerals.Digits(15)| == 2;
    StoredAmounts.StoredKeepsTextOfWhole(d);
  }

  /** Retrying an action is free: it is accepted again and changes nothing, even after the grant is spent or revoked. */
  lemma RetryIsIdempotent(calls: seq<Call>, id: GrantId, action: ActionId, kind: Kind, amount: real, kind': Kind, amount': real)
    requires ConsumeIn(After(calls), id, action, kind, amount).1.Ok?
    ensures var t := ConsumeIn(After(calls), id, action, kind, amount).0; ConsumeIn(t, id, action, kind', amount') == (t, Ok(id))
  {
    AlwaysWellKept(calls);
    ConsumeKeeps(After(calls), id, action, kind, amount);
    var t := ConsumeIn(After(calls), id, action, kind, amount).0;
    assert Metered(t.grants[id], t.log, id);
    if t != After(calls) {
      assert Consumed(id, action, amount) in t.log;
    }
  }

  lemma ClosedGrantIsLeftAlone(t: Tables, call: Call, id: GrantId)
    requires id < |t.grants| && t.grants[id].status != Active
    ensures id < |Apply(t, call).grants| && Apply(t, call).grants[id] == t.grants[id]
    ensures ActionsOf(Apply(t, call).log, id) == ActionsOf(t.log, id)
  {
    var t' := Apply(t, call);
    if t' != t {
      var e := t'.log[|t.log|];
      assert t'.log == t.log + [e];
      LogStep(t.log, e, id);
    }
  }

  /** A grant that stops being ACTIVE is never ACTIVE again and admits no further action. */
  lemma {:induction false} ClosedForever(calls: seq<Call>, later: seq<Call>, id: GrantId)
    requires id < |After(calls).grants| && After(calls).grants[id].status != Active
    ensures id < |After(calls + later).grants| && After(calls + later).grants[id] == After(calls).grants[id]
    ensures ActionsOf(After(calls + later).log, id) == ActionsOf(After(calls).log, id)
  {
    if later == [] {
      assert calls + later == calls;
    } else {
      var n := |later| - 1;
      assert (calls + later)[..|calls + later| - 1] == calls + later[..n];
      ClosedForever(calls, later[..n], id);
      ClosedGrantIsLeftAlone(After(calls + later[..n]), later[n], id);
    }
  }
}
