/**
 Versioned authority profiles and their append-only lifecycle (backend/app/authority/profiles.py).

 A profile is identified by its row in the table. Instants are integers. The clock reading of each call is a
 parameter. The content hash is modelled by a constructor, so two hashes agree exactly when the hashed content does.
 */
module AuthorityProfiles {
  import opened Wrappers

  type Time = int
  type AgentId = nat
  type ProfileId = nat

  datatype Status = Active | Suspended | Revoked | Expired

  /** The grant itself; terms stands for its budgets, scopes and limits. */
  datatype Spec = Spec(status: Status, validFrom: Time, validUntil: Option<Time>, terms: nat) {
    predicate Valid() {
      validUntil.Some? ==> validFrom < validUntil.value
    }

    /** The half-open validity interval, before any lifecycle event. */
    predicate InForce(at: Time) {
      validFrom <= at && (validUntil.Some? ==> at < validUntil.value)
    }
  }

  datatype Grant = Grant(agent: AgentId, principal: Option<nat>, version: nat, spec: Spec)
  datatype Hash = HashOf(grant: Grant)

  datatype Profile = Profile(grant: Grant, hash: Hash) {
    predicate Verified() {
      hash == HashOf(grant)
    }
  }

  datatype StatusEvent = StatusEvent(profile: ProfileId, sequence: nat, status: Status, effectiveAt: Time)

  datatype Tables = Tables(agents: set<AgentId>, profiles: seq<Profile>, events: seq<StatusEvent>)

  datatype Error =
    | AgentIdentityMissing
    | NoAuthorityProfile
    | AmbiguousAuthorityProfile
    | AuthorityHashUnverified
    | StatusTransitionInvalid
    | RetroactiveChangeForbidden
    | ValidityInvalid

  // ---------------------------------------------------------------------------------------------------
  // Reading the lifecycle
  // ---------------------------------------------------------------------------------------------------

  predicate Later(a: StatusEvent, b: StatusEvent) {
    a.effectiveAt > b.effectiveAt || (a.effectiveAt == b.effectiveAt && a.sequence > b.sequence)
  }

  /** The event of the profile that took effect last, at the given instant. */
  function EffectiveEvent(events: seq<StatusEvent>, id: ProfileId, at: Time): Option<StatusEvent> {
    if events == [] then None
    else
      var e := events[|events| - 1];
      var best := EffectiveEvent(events[..|events| - 1], id, at);
      if e.profile == id && e.effectiveAt <= at && (best.None? || !Later(best.value, e)) then Some(e) else best
  }

  /** The event of the profile with the highest sequence number. */
  function LastEvent(events: seq<StatusEvent>, id: ProfileId): Option<StatusEvent> {
    if events == [] then None
    else
      var e := events[|events| - 1];
      var best := LastEvent(events[..|events| - 1], id);
      if e.profile == id && (best.None? || best.value.sequence <= e.sequence) then Some(e) else best
  }

  function EffectiveStatus(t: Tables, id: ProfileId, at: Time): Status
    requires id < |t.profiles|
  {
    match EffectiveEvent(t.events, id, at)
    case Some(e) => e.status
    case None => t.profiles[id].grant.spec.status
  }

  /** The profile gives its agent authority at the instant. */
  predicate Effective(t: Tables, agent: AgentId, id: ProfileId, at: Time) {
    && id < |t.profiles|
    && t.profiles[id].grant.agent == agent
    && t.profiles[id].grant.spec.InForce(at)
    && EffectiveStatus(t, id, at) == Active
  }

  function EffectiveIds(t: Tables, agent: AgentId, at: Time, below: nat): seq<ProfileId> {
    if below == 0 then []
    else EffectiveIds(t, agent, at, below - 1) + (if Effective(t, agent, below - 1, at) then [below - 1] else [])
  }

  function GetEffectiveAuthorityProfile(t: Tables, agent: AgentId, at: Time): Result<ProfileId, Error> {
    var active := EffectiveIds(t, agent, at, |t.profiles|);
    if |active| == 0 then Err(NoAuthorityProfile)
    else if |active| > 1 then Err(AmbiguousAuthorityProfile)
    else if active[0] < |t.profiles| && !t.profiles[active[0]].Verified() then Err(AuthorityHashUnverified)
    else Ok(active[0])
  }

  // ---------------------------------------------------------------------------------------------------
  // Changing the tables
  // ---------------------------------------------------------------------------------------------------

  function MaxVersion(profiles: seq<Profile>, agent: AgentId): nat {
    if profiles == [] then 0
    else
      var p := profiles[|profiles| - 1];
      var best := MaxVersion(profiles[..|profiles| - 1], agent);
      if p.grant.agent == agent && p.grant.version > best then p.grant.version else best
  }

  function CreateIn(t: Tables, agent: AgentId, spec: Spec, principal: Option<nat>): Result<Tables, Error> {
    if !spec.Valid() then Err(ValidityInvalid)
    else if agent !in t.agents then Err(AgentIdentityMissing)
    else
      var grant := Grant(agent, principal, 1 + MaxVersion(t.profiles, agent), spec);
      Ok(t.(profiles := t.profiles + [Profile(grant, HashOf(grant))]))
  }

  function SetStatusIn(t: Tables, agent: AgentId, id: ProfileId, status: Status, effectiveAt: Option<Time>, now: Time)
    : Result<Tables, Error>
  {
    var at := effectiveAt.GetOr(now);
    if status == Active then Err(StatusTransitionInvalid)
    else if at < now then Err(RetroactiveChangeForbidden)
    else if id >= |t.profiles| || t.profiles[id].grant.agent != agent then Err(NoAuthorityProfile)
    else if !t.profiles[id].Verified() then Err(AuthorityHashUnverified)
    else
      var last := LastEvent(t.events, id);
      var previous := if last.Some? then last.value.status else t.profiles[id].grant.spec.status;
      if previous == Revoked || previous == Expired || (last.Some? && at < last.value.effectiveAt)
      then Err(StatusTransitionInvalid)
      else
        var sequence := if last.Some? then last.value.sequence + 1 else 1;
        Ok(t.(events := t.events + [StatusEvent(id, sequence, status, at)]))
  }

  /** The clock is read here and again when the predecessor is revoked. */
  function VersionIn(t: Tables, agent: AgentId, previous: ProfileId, spec: Spec, now: Time, moment: Time): Result<Tables, Error> {
    if agent !in t.agents then Err(AgentIdentityMissing)
    else if previous >= |t.profiles| || t.profiles[previous].grant.agent != agent then Err(NoAuthorityProfile)
    else if !spec.Valid() then Err(ValidityInvalid)
    else if spec.validFrom < now then Err(RetroactiveChangeForbidden)
    else
      var revoked :- SetStatusIn(t, agent, previous, Revoked, Some(spec.validFrom), moment);
      CreateIn(revoked, agent, spec, t.profiles[previous].grant.principal)
  }

  class AuthorityStore {
    const agents: set<AgentId>
    var profiles: seq<Profile>
    var events: seq<StatusEvent>

    ghost function Contents(): Tables
      reads this
    {
      Tables(agents, profiles, events)
    }

    constructor (agents: set<AgentId>)
      ensures Contents() == Tables(agents, [], [])
    {
      this.agents, profiles, events := agents, [], [];
    }

    method CreateAuthorityProfile(agent: AgentId, spec: Spec, principal: Option<nat>) returns (r: Result<ProfileId, Error>)
      modifies this
      ensures match CreateIn(old(Contents()), agent, spec, principal)
              case Ok(t) => Contents() == t && r == Ok(|old(profiles)|)
              case Err(e) => Contents() == old(Contents()) && r == Err(e)
    {
      if !spec.Valid() {
        return Err(ValidityInvalid);
      }
      if agent !in agents {
        return Err(AgentIdentityMissing);
      }
      var version := 0;
      for i := 0 to |profiles|
        invariant profiles == old(profiles) && events == old(events)
        invariant version == MaxVersion(profiles[..i], agent)
      {
        assert profiles[..i + 1][..i] == profiles[..i];
        if profiles[i].grant.agent == agent && profiles[i].grant.version > version {
          version := profiles[i].grant.version;
        }
      }
      assert profiles[..|profiles|] == profiles;
      var grant := Grant(agent, principal, 1 + version, spec);
      r := Ok(|profiles|);
      profiles := profiles + [Profile(grant, HashOf(grant))];
    }

    method SetAuthorityProfileStatus(agent: AgentId, id: ProfileId, status: Status, effectiveAt: Option<Time>, now: Time)
      returns (r: Result<StatusEvent, Error>)
      modifies this
      ensures match SetStatusIn(old(Contents()), agent, id, status, effectiveAt, now)
              case Ok(t) => Contents() == t && r == Ok(events[|events| - 1])
              case Err(e) => Contents() == old(Contents()) && r == Err(e)
    {
      if status == Active {
        return Err(StatusTransitionInvalid);
      }
      var at := effectiveAt.GetOr(now);
      if at < now {
        return Err(RetroactiveChangeForbidden);
      }
      if id >= |profiles| || profiles[id].grant.agent != agent {
        return Err(NoAuthorityProfile);
      }
      if !profiles[id].Verified() {
        return Err(AuthorityHashUnverified);
      }
      var last := LastEvent(events, id);
      var previous := if last.Some? then last.value.status else profiles[id].grant.spec.status;
      if previous in {Revoked, Expired} || (last.Some? && at < last.value.effectiveAt) {
        return Err(StatusTransitionInvalid);
      }
      var event := StatusEvent(id, if last.Some? then last.value.sequence + 1 else 1, status, at);
      events := events + [event];
      return Ok(event);
    }

    method VersionAuthorityProfile(agent: AgentId, previous: ProfileId, spec: Spec, now: Time, moment: Time)
      returns (r: Result<ProfileId, Error>)
      modifies this
      ensures match VersionIn(old(Contents()), agent, previous, spec, now, moment)
              case Ok(t) => Contents() == t && r == Ok(|old(profiles)|)
              case Err(e) => Contents() == old(Contents()) && r == Err(e)
    {
      if agent !in agents {
        return Err(AgentIdentityMissing);
      }
      if previous >= |profiles| || profiles[previous].grant.agent != agent {
        return Err(NoAuthorityProfile);
      }
      if !spec.Valid() {
        return Err(ValidityInvalid);
      }
      if spec.validFrom < now {
        return Err(RetroactiveChangeForbidden);
      }
      var principal := profiles[previous].grant.principal;
      var revoked := SetAuthorityProfileStatus(agent, previous, Revoked, Some(spec.validFrom), moment);
      if revoked.Err? {
        return Err(revoked.error);
      }
      // The specification is valid and the agent exists, so the savepoint is never rolled back from here.
      r := CreateAuthorityProfile(agent, spec, principal);
    }
  }

  // ---------------------------------------------------------------------------------------------------
  // Runs: any sequence of calls, each with its clock reading; a refused call changes nothing
  // ---------------------------------------------------------------------------------------------------

  datatype Call =
    | Create(agent: AgentId, now: Time, spec: Spec, principal: Option<nat>)
    | SetStatus(agent: AgentId, now: Time, id: ProfileId, status: Status, effectiveAt: Option<Time>)
    | Version(agent: AgentId, now: Time, previous: ProfileId, spec: Spec, moment: Time)

  function Attempt(t: Tables, call: Call): Result<Tables, Error> {
    match call
    case Create(agent, _, spec, principal) => CreateIn(t, agent, spec, principal)
    case SetStatus(agent, now, id, status, effectiveAt) => SetStatusIn(t, agent, id, status, effectiveAt, now)
    case Version(agent, now, previous, spec, moment) => VersionIn(t, agent, previous, spec, now, moment)
  }

  function Apply(t: Tables, call: Call): Tables {
    match Attempt(t, call)
    case Ok(t') => t'
    case Err(_) => t
  }

  function After(t: Tables, calls: seq<Call>): Tables {
    if calls == [] then t
    else Apply(After(t, calls[..|calls| - 1]), calls[|calls| - 1])
  }

  /** What every reachable table satisfies. */
  ghost predicate WellKept(t: Tables) {
    && (forall e | e in t.events :: e.profile < |t.profiles| && e.status != Active)
    && (forall p | p in t.profiles :: p.Verified())
  }

  /** One call only appends: profiles and events that are there stay, and new events lie at or after the clock. */
  ghost predicate Extends(t: Tables, t': Tables, now: Time) {
    && t.agents == t'.agents
    && t.profiles <= t'.profiles
    && t.events <= t'.events
    && forall i | |t.events| <= i < |t'.events| :: t'.events[i].effectiveAt >= now
  }

  lemma CallsOnlyAppend(t: Tables, call: Call)
    ensures Extends(t, Apply(t, call), call.now)
    ensures WellKept(t) ==> WellKept(Apply(t, call))
  {
  }

  /** No hash check can ever fail: the rows are never rewritten. */
  lemma {:induction false} HashesAlwaysVerify(t: Tables, calls: seq<Call>)
    requires WellKept(t)
    ensures WellKept(After(t, calls))
    ensures forall agent, at :: GetEffectiveAuthorityProfile(After(t, calls), agent, at) != Err(AuthorityHashUnverified)
  {
    if calls != [] {
      HashesAlwaysVerify(t, calls[..|calls| - 1]);
      CallsOnlyAppend(After(t, calls[..|calls| - 1]), calls[|calls| - 1]);
    }
  }

  lemma {:induction false} EventsStay(t: Tables, calls: seq<Call>, now: Time)
    requires forall c | c in calls :: c.now >= now
    ensures Extends(t, After(t, calls), now)
  {
    if calls != [] {
      var before := calls[..|calls| - 1];
      assert calls[|calls| - 1] in calls && forall c | c in before :: c in calls;
      EventsStay(t, before, now);
      CallsOnlyAppend(After(t, before), calls[|calls| - 1]);
    }
  }

  lemma {:induction false} LaterEventsDoNotCount(events: seq<StatusEvent>, more: seq<StatusEvent>, id: ProfileId, at: Time)
    requires forall e | e in more :: e.effectiveAt > at
    ensures EffectiveEvent(events + more, id, at) == EffectiveEvent(events, id, at)
  {
    if more == [] {
      assert events + more == events;
    } else {
      var n := |more| - 1;
      assert (events + more)[..|events + more| - 1] == events + more[..n];
      LaterEventsDoNotCount(events, more[..n], id, at);
    }
  }

  /** History is immutable: calls made after an instant never change a profile's status at that instant. */
  lemma {:induction false} PastStatusIsImmutable(t: Tables, calls: seq<Call>, id: ProfileId, at: Time)
    requires id < |t.profiles| && forall c | c in calls :: c.now > at
    ensures id < |After(t, calls).profiles|
    ensures EffectiveStatus(After(t, calls), id, at) == EffectiveStatus(t, id, at)
  {
    EventsStay(t, calls, at + 1);
    var t' := After(t, calls);
    var more := t'.events[|t.events|..];
    assert t'.events == t.events + more;
    LaterEventsDoNotCount(t.events, more, id, at);
  }

  lemma {:induction false} EffectiveEventExists(events: seq<StatusEvent>, id: ProfileId, at: Time)
    ensures EffectiveEvent(events, id, at).Some? <==> exists e :: e in events && e.profile == id && e.effectiveAt <= at
    ensures EffectiveEvent(events, id, at).Some? ==> EffectiveEvent(events, id, at).value in events
  {
    if events != [] {
      var n := |events| - 1;
      EffectiveEventExists(events[..n], id, at);
      assert events == events[..n] + [events[n]];
    }
  }

  /** The effective event really is the latest one in force: no other event in force is later. */
  lemma {:induction false} EffectiveEventIsLatest(events: seq<StatusEvent>, id: ProfileId, at: Time, e: StatusEvent)
    requires e in events && e.profile == id && e.effectiveAt <= at
    ensures EffectiveEvent(events, id, at).Some?
    ensures var best := EffectiveEvent(events, id, at).value;
            e.effectiveAt < best.effectiveAt || (e.effectiveAt == best.effectiveAt && e.sequence <= best.sequence)
  {
    var n := |events| - 1;
    if e in events[..n] {
      EffectiveEventIsLatest(events[..n], id, at, e);
    } else {
      assert e == events[n];
    }
  }

  /** A profile is ACTIVE exactly if it was granted so and no event of its own has taken effect. */
  lemma ActiveIffUntouched(t: Tables, id: ProfileId, at: Time)
    requires WellKept(t) && id < |t.profiles|
    ensures EffectiveStatus(t, id, at) == Active <==>
            && t.profiles[id].grant.spec.status == Active
            && forall e | e in t.events && e.profile == id :: at < e.effectiveAt
  {
    EffectiveEventExists(t.events, id, at);
  }

  /** A profile that is not ACTIVE at some instant is never ACTIVE at a later one, whatever calls follow. */
  lemma NeverActiveAgain(t: Tables, calls: seq<Call>, id: ProfileId, at: Time, later: Time)
    requires WellKept(t) && id < |t.profiles| && at <= later
    requires EffectiveStatus(t, id, at) != Active
    ensures id < |After(t, calls).profiles| && EffectiveStatus(After(t, calls), id, later) != Active
  {
    HashesAlwaysVerify(t, calls);
    OnlyAppended(t, calls);
    ActiveIffUntouched(t, id, at);
    ActiveIffUntouched(After(t, calls), id, later);
    assert forall e | e in t.events :: e in After(t, calls).events;
  }

  lemma {:induction false} OnlyAppended(t: Tables, calls: seq<Call>)
    ensures t.profiles <= After(t, calls).profiles && t.events <= After(t, calls).events
  {
    if calls != [] {
      OnlyAppended(t, calls[..|calls| - 1]);
      CallsOnlyAppend(After(t, calls[..|calls| - 1]), calls[|calls| - 1]);
    }
  }

  // ---------------------------------------------------------------------------------------------------
  // Hand-over along a chain of versions
  // ---------------------------------------------------------------------------------------------------

  /** The agent's profiles, oldest first. */
  function ProfilesOf(profiles: seq<Profile>, agent: AgentId): seq<ProfileId> {
    if profiles == [] then []
    else
      var n := |profiles| - 1;
      if profiles[n].grant.agent == agent then ProfilesOf(profiles[..n], agent) + [n]
      else ProfilesOf(profiles[..n], agent)
  }

  ghost predicate Ascending(ids: seq<ProfileId>) {
    forall i, j | 0 <= i < j < |ids| :: ids[i] < ids[j]
  }

  lemma {:induction false} ProfilesOfExact(profiles: seq<Profile>, agent: AgentId)
    ensures forall id: ProfileId :: id in ProfilesOf(profiles, agent) <==> id < |profiles| && profiles[id].grant.agent == agent
    ensures Ascending(ProfilesOf(profiles, agent))
  {
    if profiles != [] {
      ProfilesOfExact(profiles[..|profiles| - 1], agent);
      var ids := ProfilesOf(profiles[..|profiles| - 1], agent);
      forall i | 0 <= i < |ids| ensures ids[i] < |profiles| - 1 {
        assert ids[i] in ids;
      }
    }
  }

  lemma ProfilesOfAppend(profiles: seq<Profile>, p: Profile, agent: AgentId)
    ensures ProfilesOf(profiles + [p], agent) ==
            if p.grant.agent == agent then ProfilesOf(profiles, agent) + [|profiles|] else ProfilesOf(profiles, agent)
  {
    assert (profiles + [p])[..|profiles|] == profiles;
  }

  /** Where the i-th of these profiles starts. */
  function Start(t: Tables, ids: seq<ProfileId>, i: nat): Time
    requires i < |ids| && ids[i] < |t.profiles|
  {
    t.profiles[ids[i]].grant.spec.validFrom
  }

  ghost predicate Rows(t: Tables, ids: seq<ProfileId>) {
    forall i | 0 <= i < |ids| :: ids[i] < |t.profiles|
  }

  /** The event that hands over from the i-th profile to its successor. */
  ghost predicate HandsOver(t: Tables, ids: seq<ProfileId>, i: nat, e: StatusEvent)
    requires Rows(t, ids) && i + 1 < |ids|
  {
    e.profile == ids[i] && e.status == Revoked && e.effectiveAt == Start(t, ids, i + 1)
  }

  ghost predicate HandedOver(t: Tables, ids: seq<ProfileId>, i: nat)
    requires Rows(t, ids) && i + 1 < |ids|
  {
    exists e :: e in t.events && HandsOver(t, ids, i, e)
  }

  /** Every profile of the agent but the newest is revoked at the start of its successor, and nothing else happened to them. */
  ghost predicate IsChain(t: Tables, agent: AgentId) {
    var ids := ProfilesOf(t.profiles, agent);
    && WellKept(t)
    && Rows(t, ids)
    && (forall i: nat | i + 1 < |ids| :: HandedOver(t, ids, i))
    && (forall e | e in t.events && e.profile in ids ::
          exists i: nat :: i + 1 < |ids| && HandsOver(t, ids, i, e))
  }

  /** The agent's own calls only ever create a first profile or replace the newest one. */
  ghost predicate HandsOverOnly(t: Tables, calls: seq<Call>, agent: AgentId) {
    calls != [] ==>
      var before, call := calls[..|calls| - 1], calls[|calls| - 1];
      var ids := ProfilesOf(After(t, before).profiles, agent);
      && HandsOverOnly(t, before, agent)
      && (call.agent == agent ==>
            || (call.Create? && ids == [])
            || (call.Version? && ids != [] && call.previous == ids[|ids| - 1]))
  }

  lemma NothingHappenedToNewest(t: Tables, agent: AgentId)
    requires IsChain(t, agent) && ProfilesOf(t.profiles, agent) != []
    ensures var ids := ProfilesOf(t.profiles, agent); forall e | e in t.events :: e.profile != ids[|ids| - 1]
  {
    var ids := ProfilesOf(t.profiles, agent);
    ProfilesOfExact(t.profiles, agent);
    forall e | e in t.events ensures e.profile != ids[|ids| - 1] {
      if e.profile in ids {
        var i: nat :| i + 1 < |ids| && HandsOver(t, ids, i, e);
        assert ids[i] < ids[|ids| - 1];
      }
    }
  }

  lemma CreateStartsChain(t: Tables, call: Call)
    requires call.Create? && IsChain(t, call.agent) && ProfilesOf(t.profiles, call.agent) == []
    ensures IsChain(Apply(t, call), call.agent)
  {
    var t' := Apply(t, call);
    if t' != t {
      var p := t'.profiles[|t.profiles|];
      assert t'.profiles == t.profiles + [p];
      ProfilesOfAppend(t.profiles, p, call.agent);
      assert ProfilesOf(t'.profiles, call.agent) == [|t.profiles|];
    }
  }

  /** A version call that succeeds appends the successor and the event that hands over to it. */
  lemma VersionAppends(t: Tables, call: Call) returns (p: Profile, e: StatusEvent)
    requires call.Version? && IsChain(t, call.agent) && Apply(t, call) != t
    requires var ids := ProfilesOf(t.profiles, call.agent); ids != [] && call.previous == ids[|ids| - 1]
    ensures var t', ids := Apply(t, call), ProfilesOf(t.profiles, call.agent);
            && t'.profiles == t.profiles + [p] && t'.events == t.events + [e]
            && ProfilesOf(t'.profiles, call.agent) == ids + [|t.profiles|]
            && e.profile == ids[|ids| - 1] && e.status == Revoked && e.effectiveAt == p.grant.spec.validFrom
            && WellKept(t')
  {
    var t' := Apply(t, call);
    CallsOnlyAppend(t, call);
    p, e := t'.profiles[|t.profiles|], t'.events[|t.events|];
    ProfilesOfAppend(t.profiles, p, call.agent);
  }

  lemma VersionExtendsChain(t: Tables, call: Call)
    requires call.Version? && IsChain(t, call.agent)
    requires var ids := ProfilesOf(t.profiles, call.agent); ids != [] && call.previous == ids[|ids| - 1]
    ensures IsChain(Apply(t, call), call.agent)
  {
    var t' := Apply(t, call);
    if t' != t {
      var p, e := VersionAppends(t, call);
      NothingHappenedToNewest(t, call.agent);
      ExtendedHandsOver(t, t', call.agent, p, e);
      ExtendedExplainsEvents(t, t', call.agent, p, e);
    }
  }

  ghost predicate HasSuccessor(t: Tables, t': Tables, ids: seq<ProfileId>, p: Profile, e: StatusEvent) {
    && Rows(t, ids) && ids != []
    && t'.profiles == t.profiles + [p] && t'.events == t.events + [e]
    && e.profile == ids[|ids| - 1] && e.status == Revoked && e.effectiveAt == p.grant.spec.validFrom
  }

  lemma ExtendedHandsOver(t: Tables, t': Tables, agent: AgentId, p: Profile, e: StatusEvent)
    requires IsChain(t, agent) && HasSuccessor(t, t', ProfilesOf(t.profiles, agent), p, e)
    ensures var ids' := ProfilesOf(t.profiles, agent) + [|t.profiles|];
            Rows(t', ids') && forall i: nat | i + 1 < |ids'| :: HandedOver(t', ids', i)
  {
    var ids := ProfilesOf(t.profiles, agent);
    var ids' := ids + [|t.profiles|];
    assert HandsOver(t', ids', |ids| - 1, e) && e in t'.events;
    forall i: nat | i + 1 < |ids'| ensures HandedOver(t', ids', i) {
      if i < |ids| - 1 {
        assert HandedOver(t, ids, i);
        var x :| x in t.events && HandsOver(t, ids, i, x);
        assert x in t'.events && HandsOver(t', ids', i, x);
      }
    }
  }

  lemma ExtendedExplainsEvents(t: Tables, t': Tables, agent: AgentId, p: Profile, e: StatusEvent)
    requires IsChain(t, agent) && HasSuccessor(t, t', ProfilesOf(t.profiles, agent), p, e)
    ensures var ids' := ProfilesOf(t.profiles, agent) + [|t.profiles|];
            Rows(t', ids') && forall x | x in t'.events && x.profile in ids' ::
                                exists i: nat :: i + 1 < |ids'| && HandsOver(t', ids', i, x)
  {
    var ids := ProfilesOf(t.profiles, agent);
    var ids' := ids + [|t.profiles|];
    forall x | x in t'.events && x.profile in ids' ensures exists i: nat :: i + 1 < |ids'| && HandsOver(t', ids', i, x) {
      if x in t.events {
        assert x.profile < |t.profiles|;
        var i: nat :| i + 1 < |ids| && HandsOver(t, ids, i, x);
        assert HandsOver(t', ids', i, x);
      } else {
        assert HandsOver(t', ids', |ids| - 1, x);
      }
    }
  }

  /** What a call appends belongs to the agent it was made for. */
  lemma AppendedRowsBelongToCaller(t: Tables, call: Call)
    ensures var t' := Apply(t, call);
            && t.profiles <= t'.profiles && |t'.profiles| <= |t.profiles| + 1
            && (forall i | |t.profiles| <= i < |t'.profiles| :: t'.profiles[i].grant.agent == call.agent)
            && t.events <= t'.events
            && (forall i | |t.events| <= i < |t'.events| ::
                  t'.events[i].profile < |t.profiles| && t.profiles[t'.events[i].profile].grant.agent == call.agent)
  {
  }

  lemma OtherAgentsKeepProfiles(t: Tables, call: Call, agent: AgentId)
    requires call.agent != agent
    ensures ProfilesOf(Apply(t, call).profiles, agent) == ProfilesOf(t.profiles, agent)
    ensures forall e | e in Apply(t, call).events && e.profile in ProfilesOf(t.profiles, agent) :: e in t.events
  {
    var t' := Apply(t, call);
    AppendedRowsBelongToCaller(t, call);
    ProfilesOfExact(t.profiles, agent);
    if |t'.profiles| > |t.profiles| {
      assert t'.profiles == t.profiles + [t'.profiles[|t.profiles|]];
      ProfilesOfAppend(t.profiles, t'.profiles[|t.profiles|], agent);
    } else {
      assert t'.profiles == t.profiles;
    }
  }

  lemma OtherAgentsLeaveChain(t: Tables, call: Call, agent: AgentId)
    requires call.agent != agent && IsChain(t, agent)
    ensures IsChain(Apply(t, call), agent)
  {
    CallsOnlyAppend(t, call);
    OtherAgentsKeepProfiles(t, call, agent);
    ProfilesOfExact(t.profiles, agent);
    ChainSurvives(t, Apply(t, call), agent);
  }

  lemma ChainSurvives(t: Tables, t': Tables, agent: AgentId)
    requires IsChain(t, agent) && WellKept(t') && t.profiles <= t'.profiles && t.events <= t'.events
    requires ProfilesOf(t'.profiles, agent) == ProfilesOf(t.profiles, agent)
    requires forall e | e in t'.events && e.profile in ProfilesOf(t.profiles, agent) :: e in t.events
    ensures IsChain(t', agent)
  {
    var ids := ProfilesOf(t.profiles, agent);
    forall i: nat | i + 1 < |ids| ensures HandedOver(t', ids, i) {
      assert HandedOver(t, ids, i);
      var x :| x in t.events && HandsOver(t, ids, i, x);
      assert x in t'.events && HandsOver(t', ids, i, x);
    }
    forall x | x in t'.events && x.profile in ids ensures exists i: nat :: i + 1 < |ids| && HandsOver(t', ids, i, x) {
      var i: nat :| i + 1 < |ids| && HandsOver(t, ids, i, x);
      assert HandsOver(t', ids, i, x);
    }
  }

  /** Whatever other agents do meanwhile, versioning from empty tables produces a chain. */
  lemma {:induction false} VersioningBuildsChain(agents: set<AgentId>, calls: seq<Call>, agent: AgentId)
    requires HandsOverOnly(Tables(agents, [], []), calls, agent)
    ensures IsChain(After(Tables(agents, [], []), calls), agent)
  {
    if calls != [] {
      var before, call := calls[..|calls| - 1], calls[|calls| - 1];
      VersioningBuildsChain(agents, before, agent);
      var t := After(Tables(agents, [], []), before);
      if call.agent != agent {
        OtherAgentsLeaveChain(t, call, agent);
      } else if call.Create? {
        CreateStartsChain(t, call);
      } else {
        VersionExtendsChain(t, call);
      }
    }
  }

  /** In a chain a profile is effective exactly from its own start to its successor's, while granted ACTIVE and valid. */
  lemma EffectiveInChain(t: Tables, agent: AgentId, i: nat, at: Time)
    requires IsChain(t, agent) && i < |ProfilesOf(t.profiles, agent)|
    ensures var ids := ProfilesOf(t.profiles, agent);
            var spec := t.profiles[ids[i]].grant.spec;
            Effective(t, agent, ids[i], at) <==>
            spec.status == Active && spec.InForce(at) && (i + 1 < |ids| ==> at < Start(t, ids, i + 1))
  {
    var ids := ProfilesOf(t.profiles, agent);
    ProfilesOfExact(t.profiles, agent);
    assert ids[i] in ids;
    ActiveIffUntouched(t, ids[i], at);
    if i + 1 < |ids| {
      HandOverTimes(t, agent, i);
    } else {
      NothingHappenedToNewest(t, agent);
    }
  }

  /** A profile with a successor has events, and all of them take effect at the successor's start. */
  lemma HandOverTimes(t: Tables, agent: AgentId, i: nat)
    requires IsChain(t, agent) && i + 1 < |ProfilesOf(t.profiles, agent)|
    ensures var ids := ProfilesOf(t.profiles, agent);
            && (exists e :: e in t.events && e.profile == ids[i])
            && forall e | e in t.events && e.profile == ids[i] :: e.effectiveAt == Start(t, ids, i + 1)
  {
    var ids := ProfilesOf(t.profiles, agent);
    ProfilesOfExact(t.profiles, agent);
    assert HandedOver(t, ids, i);
    forall x | x in t.events && x.profile == ids[i] ensures x.effectiveAt == Start(t, ids, i + 1) {
      var k: nat :| k + 1 < |ids| && HandsOver(t, ids, k, x);
      assert k == i;
    }
  }

  lemma {:induction false} EffectiveIdsExact(t: Tables, agent: AgentId, at: Time, below: nat)
    ensures forall id: ProfileId :: id in EffectiveIds(t, agent, at, below) <==> id < below && Effective(t, agent, id, at)
    ensures Ascending(EffectiveIds(t, agent, at, below))
  {
    if below > 0 {
      EffectiveIdsExact(t, agent, at, below - 1);
      var ids := EffectiveIds(t, agent, at, below - 1);
      forall i | 0 <= i < |ids| ensures ids[i] < below - 1 {
        assert ids[i] in ids;
      }
    }
  }

  /** Resolution is ambiguous exactly if two profiles of the agent are effective at once. */
  lemma AmbiguousIffTwoEffective(t: Tables, agent: AgentId, at: Time)
    ensures GetEffectiveAuthorityProfile(t, agent, at) == Err(AmbiguousAuthorityProfile) <==>
            exists a, b :: a != b && Effective(t, agent, a, at) && Effective(t, agent, b, at)
  {
    var ids := EffectiveIds(t, agent, at, |t.profiles|);
    EffectiveIdsExact(t, agent, at, |t.profiles|);
    if |ids| > 1 {
      assert ids[0] in ids && ids[1] in ids;
      assert ids[0] != ids[1] && Effective(t, agent, ids[0], at) && Effective(t, agent, ids[1], at);
    } else {
      forall a, b | Effective(t, agent, a, at) && Effective(t, agent, b, at) ensures a == b {
        assert a in ids && b in ids;
      }
    }
  }

  ghost predicate NonDecreasing(starts: seq<Time>) {
    forall i, j | 0 <= i < j < |starts| :: starts[i] <= starts[j]
  }

  ghost predicate Rises(starts: seq<Time>, i: nat) {
    i + 1 < |starts| && starts[i] < starts[i + 1]
  }

  ghost predicate Falls(starts: seq<Time>, i: nat) {
    i + 1 < |starts| && starts[i] > starts[i + 1]
  }

  /** Once the starts have gone up they never go down again. */
  ghost predicate NoDescentAfterAscent(starts: seq<Time>) {
    forall i: nat, j: nat | Rises(starts, i) && Falls(starts, j) :: j < i
  }

  ghost function Starts(t: Tables, agent: AgentId): (starts: seq<Time>)
    requires Rows(t, ProfilesOf(t.profiles, agent))
    ensures |starts| == |ProfilesOf(t.profiles, agent)|
    ensures forall i | 0 <= i < |starts| :: starts[i] == Start(t, ProfilesOf(t.profiles, agent), i)
  {
    var ids := ProfilesOf(t.profiles, agent);
    seq(|ids|, i requires 0 <= i < |ids| => Start(t, ids, i))
  }

  /** The i-th of the half-open intervals between consecutive starts; the last one is unbounded. */
  ghost predicate Covers(starts: seq<Time>, i: nat, at: Time)
    requires i < |starts|
  {
    starts[i] <= at && (i + 1 < |starts| ==> at < starts[i + 1])
  }

  lemma {:induction false} RisesStay(starts: seq<Time>, i: nat, j: nat)
    requires NoDescentAfterAscent(starts) && i < j < |starts| && Rises(starts, i)
    ensures starts[i + 1] <= starts[j]
    decreases j
  {
    if j > i + 1 {
      RisesStay(starts, i, j - 1);
      assert !Falls(starts, j - 1);
    }
  }

  lemma {:induction false} SomeIntervalCovers(starts: seq<Time>, from: nat, at: Time) returns (k: nat)
    requires from < |starts| && starts[from] <= at
    ensures from <= k < |starts| && Covers(starts, k, at)
    decreases |starts| - from
  {
    if from + 1 < |starts| && starts[from + 1] <= at {
      k := SomeIntervalCovers(starts, from + 1, at);
    } else {
      k := from;
    }
  }

  lemma {:induction false} LatestAscent(starts: seq<Time>, from: nat, last: nat) returns (m: nat)
    requires from < last < |starts| && starts[from] < starts[last]
    ensures from <= m < last && starts[m] < starts[m + 1] && starts[last] <= starts[m + 1]
    decreases last
  {
    if starts[last - 1] < starts[last] {
      m := last - 1;
    } else {
      m := LatestAscent(starts, from, last - 1);
    }
  }

  /** A descent somewhere after an ascent makes two intervals overlap. */
  lemma DescentOverlaps(starts: seq<Time>, i: nat, j: nat) returns (a: nat, b: nat, at: Time)
    requires i < j && Rises(starts, i) && Falls(starts, j)
    ensures a < b < |starts| && Covers(starts, a, at) && Covers(starts, b, at)
  {
    a := i;
    if starts[i + 1] <= starts[j + 1] {
      // the starts rise further between i + 1 and j
      a := LatestAscent(starts, i + 1, j);
    }
    // this interval still reaches above the point to which the starts fall back
    at := if starts[a] < starts[j + 1] then starts[j + 1] else starts[a];
    b := SomeIntervalCovers(starts, j + 1, at);
  }

  lemma FallOverlaps(starts: seq<Time>) returns (a: nat, b: nat, at: Time)
    requires !NoDescentAfterAscent(starts)
    ensures a < b < |starts| && Covers(starts, a, at) && Covers(starts, b, at)
  {
    var i: nat, j: nat :| i < j && Rises(starts, i) && Falls(starts, j);
    a, b, at := DescentOverlaps(starts, i, j);
  }

  /** Unless the starts fall after a rise, no two profiles of a chain are ever effective at once. */
  lemma HandOverIsUnambiguous(t: Tables, agent: AgentId, at: Time)
    requires IsChain(t, agent) && NoDescentAfterAscent(Starts(t, agent))
    ensures GetEffectiveAuthorityProfile(t, agent, at) != Err(AmbiguousAuthorityProfile)
  {
    var ids, starts := ProfilesOf(t.profiles, agent), Starts(t, agent);
    ProfilesOfExact(t.profiles, agent);
    AmbiguousIffTwoEffective(t, agent, at);
    forall a, b | a < b && Effective(t, agent, a, at) && Effective(t, agent, b, at) ensures false {
      assert a in ids && b in ids;
      var i :| 0 <= i < |ids| && ids[i] == a;
      var j :| 0 <= j < |ids| && ids[j] == b;
      EffectiveInChain(t, agent, i, at);
      EffectiveInChain(t, agent, j, at);
      assert i < j && Rises(starts, i);
      RisesStay(starts, i, j);
    }
  }

  ghost predicate AlwaysGranted(t: Tables, agent: AgentId) {
    forall id | id in ProfilesOf(t.profiles, agent) ::
      id < |t.profiles| && t.profiles[id].grant.spec.status == Active && t.profiles[id].grant.spec.validUntil.None?
  }

  lemma TwoEffectiveAreAmbiguous(t: Tables, agent: AgentId, a: ProfileId, b: ProfileId, at: Time)
    requires a != b && Effective(t, agent, a, at) && Effective(t, agent, b, at)
    ensures GetEffectiveAuthorityProfile(t, agent, at) == Err(AmbiguousAuthorityProfile)
  {
    AmbiguousIffTwoEffective(t, agent, at);
  }

  lemma CoveredIsEffective(t: Tables, agent: AgentId, i: nat, at: Time)
    requires IsChain(t, agent) && AlwaysGranted(t, agent)
    requires i < |Starts(t, agent)| && Covers(Starts(t, agent), i, at)
    ensures Effective(t, agent, ProfilesOf(t.profiles, agent)[i], at)
  {
    EffectiveInChain(t, agent, i, at);
    assert ProfilesOf(t.profiles, agent)[i] in ProfilesOf(t.profiles, agent);
  }

  lemma DescentIsAmbiguous(t: Tables, agent: AgentId) returns (at: Time)
    requires IsChain(t, agent) && AlwaysGranted(t, agent) && !NoDescentAfterAscent(Starts(t, agent))
    ensures GetEffectiveAuthorityProfile(t, agent, at) == Err(AmbiguousAuthorityProfile)
  {
    var ids, starts := ProfilesOf(t.profiles, agent), Starts(t, agent);
    var a, b;
    a, b, at := FallOverlaps(starts);
    CoveredIsEffective(t, agent, a, at);
    CoveredIsEffective(t, agent, b, at);
    assert ids[a] < ids[b] by {
      ProfilesOfExact(t.profiles, agent);
    }
    TwoEffectiveAreAmbiguous(t, agent, ids[a], ids[b], at);
  }

  /** For grants without expiry that is exact: resolution is never ambiguous if and only if the starts never fall after a rise. */
  lemma HandOverIsUnambiguousExactlyWhen(t: Tables, agent: AgentId)
    requires IsChain(t, agent) && AlwaysGranted(t, agent)
    ensures (forall at :: GetEffectiveAuthorityProfile(t, agent, at) != Err(AmbiguousAuthorityProfile))
            <==> NoDescentAfterAscent(Starts(t, agent))
  {
    if NoDescentAfterAscent(Starts(t, agent)) {
      forall at ensures GetEffectiveAuthorityProfile(t, agent, at) != Err(AmbiguousAuthorityProfile) {
        HandOverIsUnambiguous(t, agent, at);
      }
    } else {
      var at := DescentIsAmbiguous(t, agent);
    }
  }

  /** Where the i-th profile of a chain stops: at its expiry or at its successor's start, whichever comes first. */
  ghost function End(t: Tables, ids: seq<ProfileId>, i: nat): Option<Time>
    requires Rows(t, ids) && i < |ids|
  {
    var expiry := t.profiles[ids[i]].grant.spec.validUntil;
    if i + 1 == |ids| then expiry
    else if expiry.Some? && expiry.value < Start(t, ids, i + 1) then expiry
    else Some(Start(t, ids, i + 1))
  }

  ghost predicate Runs(t: Tables, ids: seq<ProfileId>, i: nat, at: Time)
    requires Rows(t, ids) && i < |ids|
  {
    && t.profiles[ids[i]].grant.spec.status == Active
    && Start(t, ids, i) <= at && (End(t, ids, i).Some? ==> at < End(t, ids, i).value)
  }

  /** Both profiles run at the later one of their starts. */
  ghost predicate Overlap(t: Tables, ids: seq<ProfileId>, i: nat, j: nat)
    requires Rows(t, ids) && i < |ids| && j < |ids|
  {
    var start := if Start(t, ids, i) < Start(t, ids, j) then Start(t, ids, j) else Start(t, ids, i);
    Runs(t, ids, i, start) && Runs(t, ids, j, start)
  }

  lemma OverlapExactly(t: Tables, ids: seq<ProfileId>, i: nat, j: nat)
    requires Rows(t, ids) && i < |ids| && j < |ids|
    ensures Overlap(t, ids, i, j) <==> exists at :: Runs(t, ids, i, at) && Runs(t, ids, j, at)
  {
  }

  /** For every chain, with expiries and withheld grants: resolution is never ambiguous exactly if no two profiles overlap. */
  lemma ChainIsUnambiguousExactlyWhen(t: Tables, agent: AgentId)
    requires IsChain(t, agent)
    ensures (forall at :: GetEffectiveAuthorityProfile(t, agent, at) != Err(AmbiguousAuthorityProfile))
            <==> var ids := ProfilesOf(t.profiles, agent); forall i, j | 0 <= i < j < |ids| :: !Overlap(t, ids, i, j)
  {
    var ids := ProfilesOf(t.profiles, agent);
    if i, j :| 0 <= i < j < |ids| && Overlap(t, ids, i, j) {
      var at := OverlapIsAmbiguous(t, agent, i, j);
    } else {
      forall at ensures GetEffectiveAuthorityProfile(t, agent, at) != Err(AmbiguousAuthorityProfile) {
        NoOverlapIsUnambiguous(t, agent, at);
      }
    }
  }

  lemma RunsIsEffective(t: Tables, agent: AgentId, i: nat, at: Time)
    requires IsChain(t, agent) && i < |ProfilesOf(t.profiles, agent)|
    ensures var ids := ProfilesOf(t.profiles, agent); Effective(t, agent, ids[i], at) <==> Runs(t, ids, i, at)
  {
    EffectiveInChain(t, agent, i, at);
  }

  lemma OverlapIsAmbiguous(t: Tables, agent: AgentId, i: nat, j: nat) returns (at: Time)
    requires IsChain(t, agent) && i < j < |ProfilesOf(t.profiles, agent)|
    requires Overlap(t, ProfilesOf(t.profiles, agent), i, j)
    ensures GetEffectiveAuthorityProfile(t, agent, at) == Err(AmbiguousAuthorityProfile)
  {
    var ids := ProfilesOf(t.profiles, agent);
    OverlapExactly(t, ids, i, j);
    at :| Runs(t, ids, i, at) && Runs(t, ids, j, at);
    RunsIsEffective(t, agent, i, at);
    RunsIsEffective(t, agent, j, at);
    ProfilesOfExact(t.profiles, agent);
    TwoEffectiveAreAmbiguous(t, agent, ids[i], ids[j], at);
  }

  lemma NoOverlapIsUnambiguous(t: Tables, agent: AgentId, at: Time)
    requires IsChain(t, agent)
    requires var ids := ProfilesOf(t.profiles, agent); forall i, j | 0 <= i < j < |ids| :: !Overlap(t, ids, i, j)
    ensures GetEffectiveAuthorityProfile(t, agent, at) != Err(AmbiguousAuthorityProfile)
  {
    var ids := ProfilesOf(t.profiles, agent);
    ProfilesOfExact(t.profiles, agent);
    AmbiguousIffTwoEffective(t, agent, at);
    forall a, b | a < b && Effective(t, agent, a, at) ensures !Effective(t, agent, b, at) {
      if Effective(t, agent, b, at) {
        assert a in ids && b in ids;
        var i :| 0 <= i < |ids| && ids[i] == a;
        var j :| 0 <= j < |ids| && ids[j] == b;
        RunsIsEffective(t, agent, i, at);
        RunsIsEffective(t, agent, j, at);
        OverlapExactly(t, ids, i, j);
      }
    }
  }

  /**
   No gap: while each predecessor is still valid at its hand-over, exactly one profile resolves at every instant
   from the first start until the newest profile expires.
   */
  lemma HandOverLeavesNoGap(t: Tables, agent: AgentId, at: Time) returns (i: nat)
    requires IsChain(t, agent) && ProfilesOf(t.profiles, agent) != [] && NonDecreasing(Starts(t, agent))
    requires var ids := ProfilesOf(t.profiles, agent);
             && (forall k | 0 <= k < |ids| :: t.profiles[ids[k]].grant.spec.status == Active)
             && (forall k | 0 <= k < |ids| - 1 :: var spec := t.profiles[ids[k]].grant.spec;
                   spec.validUntil.Some? ==> Start(t, ids, k + 1) <= spec.validUntil.value)
             && Start(t, ids, 0) <= at
             && (var last := t.profiles[ids[|ids| - 1]].grant.spec; last.validUntil.Some? ==> at < last.validUntil.value)
    ensures i < |ProfilesOf(t.profiles, agent)|
    ensures GetEffectiveAuthorityProfile(t, agent, at) == Ok(ProfilesOf(t.profiles, agent)[i])
  {
    var ids, starts := ProfilesOf(t.profiles, agent), Starts(t, agent);
    ProfilesOfExact(t.profiles, agent);
    i := SomeIntervalCovers(starts, 0, at);
    assert ids[i] in ids;
    EffectiveInChain(t, agent, i, at);
    HandOverIsUnambiguous(t, agent, at);
    EffectiveIdsExact(t, agent, at, |t.profiles|);
    assert ids[i] in EffectiveIds(t, agent, at, |t.profiles|);
  }

  lemma {:induction false} LastEventIsHighest(events: seq<StatusEvent>, e: StatusEvent)
    requires LastEvent(events, e.profile).Some? ==> LastEvent(events, e.profile).value.sequence < e.sequence
    ensures LastEvent(events + [e], e.profile) == Some(e)
  {
    assert (events + [e])[..|events|] == events;
  }

  /** Scheduling a hand-over freezes the predecessor: until then it can no longer be suspended or revoked earlier. */
  lemma HandOverFreezesPredecessor(t: Tables, agent: AgentId, previous: ProfileId, spec: Spec, now: Time, moment: Time,
                                   status: Status, effectiveAt: Option<Time>, later: Time)
    requires VersionIn(t, agent, previous, spec, now, moment).Ok?
    ensures SetStatusIn(VersionIn(t, agent, previous, spec, now, moment).value, agent, previous, status, effectiveAt, later).Err?
  {
    var revoked := SetStatusIn(t, agent, previous, Revoked, Some(spec.validFrom), moment).value;
    var e := revoked.events[|t.events|];
    assert revoked.events == t.events + [e];
    LastEventIsHighest(t.events, e);
  }

  // ---------------------------------------------------------------------------------------------------
  // What later calls can change about the past
  // ---------------------------------------------------------------------------------------------------

  /** Creation has no guard against the past: the call gives its agent one more profile in force at the instant. */
  predicate ReachesPast(agents: set<AgentId>, call: Call, agent: AgentId, at: Time) {
    && call.Create? && call.agent == agent && agent in agents
    && call.spec.Valid() && call.spec.status == Active && call.spec.InForce(at)
  }

  lemma OldProfilesInThePast(t: Tables, call: Call, agent: AgentId, at: Time, id: ProfileId)
    requires call.now > at && id < |t.profiles|
    ensures Effective(Apply(t, call), agent, id, at) <==> Effective(t, agent, id, at)
  {
    PastStatusIsImmutable(t, [call], id, at);
    assert [call][..0] == [] && After(t, [call]) == Apply(After(t, []), call);
    CallsOnlyAppend(t, call);
  }

  lemma NewProfileInThePast(t: Tables, call: Call, agent: AgentId, at: Time)
    requires WellKept(t) && call.now > at && |Apply(t, call).profiles| > |t.profiles|
    ensures |Apply(t, call).profiles| == |t.profiles| + 1
    ensures Effective(Apply(t, call), agent, |t.profiles|, at) <==> ReachesPast(t.agents, call, agent, at)
  {
    CallsOnlyAppend(t, call);
    if call.Create? {
      ActiveIffUntouched(Apply(t, call), |t.profiles|, at);
    }
  }

  lemma NothingCreated(t: Tables, call: Call, agent: AgentId, at: Time)
    requires |Apply(t, call).profiles| <= |t.profiles|
    ensures |Apply(t, call).profiles| == |t.profiles| && !ReachesPast(t.agents, call, agent, at)
  {
    CallsOnlyAppend(t, call);
  }

  lemma {:induction false} SameEffectiveIds(t: Tables, t': Tables, agent: AgentId, at: Time, below: nat)
    requires forall id: ProfileId | id < below :: Effective(t', agent, id, at) <==> Effective(t, agent, id, at)
    ensures EffectiveIds(t', agent, at, below) == EffectiveIds(t, agent, at, below)
  {
    if below > 0 {
      SameEffectiveIds(t, t', agent, at, below - 1);
    }
  }

  lemma OneCallInThePast(t: Tables, call: Call, agent: AgentId, at: Time)
    requires WellKept(t) && call.now > at
    ensures EffectiveIds(Apply(t, call), agent, at, |Apply(t, call).profiles|)
            == EffectiveIds(t, agent, at, |t.profiles|) + if ReachesPast(t.agents, call, agent, at) then [|t.profiles|] else []
  {
    var t' := Apply(t, call);
    forall id: ProfileId | id < |t.profiles| ensures Effective(t', agent, id, at) <==> Effective(t, agent, id, at) {
      OldProfilesInThePast(t, call, agent, at, id);
    }
    SameEffectiveIds(t, t', agent, at, |t.profiles|);
    if |t'.profiles| > |t.profiles| {
      NewProfileInThePast(t, call, agent, at);
    } else {
      NothingCreated(t, call, agent, at);
    }
  }

  /** The profiles effective at a past instant are never lost, and become more exactly when some call reaches back to it. */
  lemma {:induction false} EffectiveIdsInThePast(t: Tables, calls: seq<Call>, agent: AgentId, at: Time)
    requires WellKept(t) && forall c | c in calls :: c.now > at
    ensures After(t, calls).agents == t.agents
    ensures var ids, ids' := EffectiveIds(t, agent, at, |t.profiles|), EffectiveIds(After(t, calls), agent, at, |After(t, calls).profiles|);
            ids <= ids' && (ids' != ids <==> exists c :: c in calls && ReachesPast(t.agents, c, agent, at))
  {
    if calls != [] {
      var before, call := calls[..|calls| - 1], calls[|calls| - 1];
      assert call in calls && calls == before + [call];
      assert forall c | c in before :: c in calls;
      EffectiveIdsInThePast(t, before, agent, at);
      HashesAlwaysVerify(t, before);
      CallsOnlyAppend(After(t, before), call);
      OneCallInThePast(After(t, before), call, agent, at);
    }
  }

  /**
   Calls made after an instant leave the answer for that instant as it was, exactly unless one of them creates an ACTIVE
   profile of the agent that is in force there; an ambiguous answer stays ambiguous in any case.
   */
  lemma PastAnswerIsKeptExactly(t: Tables, calls: seq<Call>, agent: AgentId, at: Time)
    requires WellKept(t) && forall c | c in calls :: c.now > at
    ensures GetEffectiveAuthorityProfile(After(t, calls), agent, at) == GetEffectiveAuthorityProfile(t, agent, at)
            <==> || GetEffectiveAuthorityProfile(t, agent, at) == Err(AmbiguousAuthorityProfile)
                 || !exists c :: c in calls && ReachesPast(t.agents, c, agent, at)
  {
    EffectiveIdsInThePast(t, calls, agent, at);
    HashesAlwaysVerify(t, calls);
    AnswerByCount(t, agent, at);
    AnswerByCount(After(t, calls), agent, at);
  }

  lemma AnswerByCount(t: Tables, agent: AgentId, at: Time)
    requires WellKept(t)
    ensures var ids, answer := EffectiveIds(t, agent, at, |t.profiles|), GetEffectiveAuthorityProfile(t, agent, at);
            answer == if |ids| == 0 then Err(NoAuthorityProfile) else if |ids| > 1 then Err(AmbiguousAuthorityProfile) else Ok(ids[0])
  {
    var ids := EffectiveIds(t, agent, at, |t.profiles|);
    EffectiveIdsExact(t, agent, at, |t.profiles|);
    if |ids| == 1 {
      assert ids[0] in ids;
    }
  }

  // ---------------------------------------------------------------------------------------------------
  // Each operation told by the stored rows
  // ---------------------------------------------------------------------------------------------------

  /** The agent's grant, as it was made and as nothing has changed it, holds at the instant. */
  ghost predicate Holds(t: Tables, agent: AgentId, id: ProfileId, at: Time) {
    && id < |t.profiles|
    && var spec := t.profiles[id].grant.spec;
    && t.profiles[id].grant.agent == agent && spec.status == Active
    && spec.validFrom <= at && (forall end | spec.validUntil == Some(end) :: at < end)
    && forall e | e in t.events && e.profile == id :: at < e.effectiveAt
  }

  lemma EffectiveIsHolding(t: Tables, agent: AgentId, id: ProfileId, at: Time)
    requires WellKept(t)
    ensures Effective(t, agent, id, at) <==> Holds(t, agent, id, at)
  {
    if id < |t.profiles| {
      ActiveIffUntouched(t, id, at);
    }
  }

  /** Resolution gives the one profile that holds, and says whether there is none or more than one. */
  lemma ResolvedExactly(t: Tables, agent: AgentId, at: Time, id: ProfileId)
    requires WellKept(t)
    ensures var result := GetEffectiveAuthorityProfile(t, agent, at);
            && (result == Ok(id) <==> Holds(t, agent, id, at) && forall other | Holds(t, agent, other, at) :: other == id)
            && (result == Err(NoAuthorityProfile) <==> forall other :: !Holds(t, agent, other, at))
  {
    var ids := EffectiveIds(t, agent, at, |t.profiles|);
    AnswerByCount(t, agent, at);
    HoldersListed(t, agent, at, ids);
    if |ids| > 1 {
      assert ids[0] in ids && ids[1] in ids;
    } else if |ids| == 1 {
      assert ids[0] in ids;
    }
  }

  lemma HoldersListed(t: Tables, agent: AgentId, at: Time, ids: seq<ProfileId>)
    requires WellKept(t) && ids == EffectiveIds(t, agent, at, |t.profiles|)
    ensures forall id :: id in ids <==> Holds(t, agent, id, at)
    ensures |ids| > 1 ==> ids[0] != ids[1]
  {
    EffectiveIdsExact(t, agent, at, |t.profiles|);
    forall id ensures id in ids <==> Holds(t, agent, id, at) {
      EffectiveIsHolding(t, agent, id, at);
    }
  }

  /** The events of a profile come in order, and only suspensions are followed by another one. */
  ghost predicate InOrder(t: Tables) {
    && (forall i, j | 0 <= i < j < |t.events| && t.events[i].profile == t.events[j].profile :: Follows(t.events[i], t.events[j]))
    && (forall e | e in t.events && e.profile < |t.profiles| :: t.profiles[e.profile].grant.spec.status in {Active, Suspended})
  }

  ghost predicate Follows(a: StatusEvent, b: StatusEvent) {
    a.status == Suspended && a.sequence < b.sequence && a.effectiveAt <= b.effectiveAt
  }

  lemma {:induction false} LastEventIsNewest(events: seq<StatusEvent>, id: ProfileId)
    requires forall i, j | 0 <= i < j < |events| && events[i].profile == events[j].profile :: Follows(events[i], events[j])
    ensures LastEvent(events, id).None? <==> forall e | e in events :: e.profile != id
    ensures LastEvent(events, id).Some? ==>
              exists k :: 0 <= k < |events| && events[k] == LastEvent(events, id).value && events[k].profile == id
                && forall j | k < j < |events| :: events[j].profile != id
  {
    if events != [] {
      var n := |events| - 1;
      assert forall i | 0 <= i < n :: events[..n][i] == events[i];
      LastEventIsNewest(events[..n], id);
      assert events == events[..n] + [events[n]];
      if events[n].profile == id && LastEvent(events[..n], id).Some? {
        var k :| 0 <= k < n && events[..n][k] == LastEvent(events[..n], id).value && events[..n][k].profile == id;
        assert Follows(events[k], events[n]);
      }
    }
  }

  /** The profile has not been closed, neither by its grant nor by an event. */
  ghost predicate Open(t: Tables, id: ProfileId)
    requires id < |t.profiles|
  {
    && t.profiles[id].grant.spec.status in {Active, Suspended}
    && forall e | e in t.events && e.profile == id :: e.status == Suspended
  }

  ghost predicate AfterAllEvents(t: Tables, id: ProfileId, at: Time) {
    forall e | e in t.events && e.profile == id :: e.effectiveAt <= at
  }

  lemma LastEventDominates(t: Tables, id: ProfileId)
    requires InOrder(t)
    ensures var last := LastEvent(t.events, id);
            && (last.None? ==> forall e | e in t.events :: e.profile != id)
            && (last.Some? ==> last.value in t.events && last.value.profile == id)
            && (last.Some? ==> forall e | e in t.events && e.profile == id :: e == last.value || Follows(e, last.value))
  {
    LastEventIsNewest(t.events, id);
    var last := LastEvent(t.events, id);
    if last.Some? {
      var k :| 0 <= k < |t.events| && t.events[k] == last.value && t.events[k].profile == id
                 && forall j | k < j < |t.events| :: t.events[j].profile != id;
      forall e | e in t.events && e.profile == id ensures e == last.value || Follows(e, last.value) {
        var i :| 0 <= i < |t.events| && t.events[i] == e;
        assert i < k ==> Follows(t.events[i], t.events[k]);
      }
    }
  }

  lemma LastEventDecides(t: Tables, id: ProfileId, at: Time)
    requires WellKept(t) && InOrder(t) && id < |t.profiles|
    ensures var last := LastEvent(t.events, id);
            var previous := if last.Some? then last.value.status else t.profiles[id].grant.spec.status;
            && (previous != Revoked && previous != Expired <==> Open(t, id))
            && (last.Some? ==> last.value in t.events && last.value.profile == id && (last.value.effectiveAt <= at <==> AfterAllEvents(t, id, at)))
            && (last.Some? ==> forall e | e in t.events && e.profile == id :: e.sequence <= last.value.sequence)
            && (last.None? ==> AfterAllEvents(t, id, at) && forall e | e in t.events :: e.profile != id)
  {
    LastEventDominates(t, id);
  }

  /** A status is appended exactly if it closes or suspends an open profile of the agent, not before the clock nor before an earlier event. */
  lemma StatusChangesExactly(t: Tables, agent: AgentId, id: ProfileId, status: Status, effectiveAt: Option<Time>, now: Time)
    requires WellKept(t) && InOrder(t)
    ensures var result := SetStatusIn(t, agent, id, status, effectiveAt, now);
            var at := if effectiveAt.Some? then effectiveAt.value else now;
            && (result.Ok? <==>
                  && status != Active && now <= at && id < |t.profiles| && t.profiles[id].grant.agent == agent
                  && Open(t, id) && AfterAllEvents(t, id, at))
            && (result == Err(RetroactiveChangeForbidden) <==> status != Active && at < now)
            && (result == Err(NoAuthorityProfile) <==>
                  status != Active && now <= at && !(id < |t.profiles| && t.profiles[id].grant.agent == agent))
            && (result.Ok? ==>
                  && result.value == t.(events := result.value.events) && |result.value.events| == |t.events| + 1
                  && result.value.events[..|t.events|] == t.events
                  && var e := result.value.events[|t.events|];
                  && e.profile == id && e.status == status && e.effectiveAt == at
                  && ((forall earlier | earlier in t.events :: earlier.profile != id) ==> e.sequence == 1)
                  && (e.sequence > 1 ==> exists earlier :: earlier in t.events && earlier.profile == id && earlier.sequence + 1 == e.sequence)
                  && forall earlier | earlier in t.events && earlier.profile == id :: earlier.sequence < e.sequence)
  {
    if id < |t.profiles| {
      LastEventDecides(t, id, effectiveAt.GetOr(now));
    }
  }

  lemma StatusKeepsOrder(t: Tables, agent: AgentId, id: ProfileId, status: Status, effectiveAt: Option<Time>, now: Time)
    requires WellKept(t) && InOrder(t) && SetStatusIn(t, agent, id, status, effectiveAt, now).Ok?
    ensures WellKept(SetStatusIn(t, agent, id, status, effectiveAt, now).value)
    ensures InOrder(SetStatusIn(t, agent, id, status, effectiveAt, now).value)
  {
    StatusChangesExactly(t, agent, id, status, effectiveAt, now);
    var t' := SetStatusIn(t, agent, id, status, effectiveAt, now).value;
    forall i, j | 0 <= i < j < |t'.events| && t'.events[i].profile == t'.events[j].profile
      ensures Follows(t'.events[i], t'.events[j])
    {
      assert t'.events[i] == t.events[i];
      if j < |t.events| {
        assert t'.events[j] == t.events[j];
      } else {
        assert t.events[i] in t.events;
      }
    }
  }

  /** Versions of an agent's profiles are numbered from one, in the order of creation. */
  ghost predicate Numbered(t: Tables) {
    forall agent :: NumberedFor(t.profiles, agent)
  }

  ghost predicate NumberedFor(profiles: seq<Profile>, agent: AgentId) {
    var ids := ProfilesOf(profiles, agent);
    forall k | 0 <= k < |ids| :: ids[k] < |profiles| && profiles[ids[k]].grant.version == k + 1
  }

  lemma {:induction false} MaxVersionIsCount(profiles: seq<Profile>, agent: AgentId)
    requires NumberedFor(profiles, agent)
    ensures MaxVersion(profiles, agent) == |ProfilesOf(profiles, agent)|
  {
    if profiles != [] {
      var n := |profiles| - 1;
      ProfilesOfExact(profiles[..n], agent);
      var ids := ProfilesOf(profiles[..n], agent);
      forall k | 0 <= k < |ids| ensures ids[k] < n && profiles[..n][ids[k]].grant.version == k + 1 {
        assert ids[k] in ids;
        assert ProfilesOf(profiles, agent)[k] == ids[k];
      }
      MaxVersionIsCount(profiles[..n], agent);
      if profiles[n].grant.agent == agent {
        assert ProfilesOf(profiles, agent)[|ids|] == n;
      }
    }
  }

  /** A profile is created exactly for a known agent and a sensible validity, under the next version and with its own hash. */
  lemma CreationExactly(t: Tables, agent: AgentId, spec: Spec, principal: Option<nat>)
    requires Numbered(t)
    ensures var result := CreateIn(t, agent, spec, principal);
            && (result.Ok? <==> agent in t.agents && forall end | spec.validUntil == Some(end) :: spec.validFrom < end)
            && (result == Err(ValidityInvalid) <==> exists end :: spec.validUntil == Some(end) && end <= spec.validFrom)
            && (result.Ok? ==>
                  && result.value == t.(profiles := result.value.profiles) && |result.value.profiles| == |t.profiles| + 1
                  && result.value.profiles[..|t.profiles|] == t.profiles
                  && var p := result.value.profiles[|t.profiles|];
                  && p.grant == Grant(agent, principal, |ProfilesOf(t.profiles, agent)| + 1, spec) && p.hash == HashOf(p.grant))
  {
    MaxVersionIsCount(t.profiles, agent);
  }

  lemma CreationKeepsNumbers(t: Tables, agent: AgentId, spec: Spec, principal: Option<nat>)
    requires WellKept(t) && Numbered(t) && InOrder(t) && CreateIn(t, agent, spec, principal).Ok?
    ensures Numbered(CreateIn(t, agent, spec, principal).value) && InOrder(CreateIn(t, agent, spec, principal).value)
  {
    CreationExactly(t, agent, spec, principal);
    var t' := CreateIn(t, agent, spec, principal).value;
    var p := t'.profiles[|t.profiles|];
    assert t'.profiles == t.profiles + [p];
    forall other ensures NumberedFor(t'.profiles, other) {
      ProfilesOfAppend(t.profiles, p, other);
      assert NumberedFor(t.profiles, other);
    }
  }

  /** A profile is replaced exactly if a successor may be created and its predecessor be revoked at the successor's start, at both clock readings. */
  lemma VersioningExactly(t: Tables, agent: AgentId, previous: ProfileId, spec: Spec, now: Time, moment: Time)
    requires WellKept(t) && InOrder(t) && Numbered(t)
    ensures var result := VersionIn(t, agent, previous, spec, now, moment);
            && (result.Ok? <==>
                  && agent in t.agents && previous < |t.profiles| && t.profiles[previous].grant.agent == agent
                  && (forall end | spec.validUntil == Some(end) :: spec.validFrom < end)
                  && now <= spec.validFrom && moment <= spec.validFrom
                  && Open(t, previous) && AfterAllEvents(t, previous, spec.validFrom))
            && (result == Err(AgentIdentityMissing) <==> agent !in t.agents)
            && (result == Err(NoAuthorityProfile) <==>
                  agent in t.agents && !(previous < |t.profiles| && t.profiles[previous].grant.agent == agent))
            && (result == Err(ValidityInvalid) <==>
                  && agent in t.agents && previous < |t.profiles| && t.profiles[previous].grant.agent == agent
                  && exists end :: spec.validUntil == Some(end) && end <= spec.validFrom)
            && (result == Err(RetroactiveChangeForbidden) ==> spec.validFrom < now || spec.validFrom < moment)
            && (result.Ok? ==>
                  && |result.value.profiles| == |t.profiles| + 1 && result.value.profiles[..|t.profiles|] == t.profiles
                  && |result.value.events| == |t.events| + 1 && result.value.events[..|t.events|] == t.events
                  && var p, e := result.value.profiles[|t.profiles|], result.value.events[|t.events|];
                  && p.grant == Grant(agent, t.profiles[previous].grant.principal, |ProfilesOf(t.profiles, agent)| + 1, spec)
                  && e.profile == previous && e.status == Revoked && e.effectiveAt == spec.validFrom)
  {
    StatusChangesExactly(t, agent, previous, Revoked, Some(spec.validFrom), moment);
    if SetStatusIn(t, agent, previous, Revoked, Some(spec.validFrom), moment).Ok? {
      var revoked := SetStatusIn(t, agent, previous, Revoked, Some(spec.validFrom), moment).value;
      assert revoked.profiles == t.profiles;
      forall other ensures NumberedFor(revoked.profiles, other) {
        assert NumberedFor(t.profiles, other);
      }
      CreationExactly(revoked, agent, spec, t.profiles[previous].grant.principal);
    }
  }

  lemma StepKeepsRecords(t: Tables, call: Call)
    requires WellKept(t) && InOrder(t) && Numbered(t)
    ensures WellKept(Apply(t, call)) && InOrder(Apply(t, call)) && Numbered(Apply(t, call))
  {
    CallsOnlyAppend(t, call);
    if Attempt(t, call).Ok? {
      match call
      case Create(agent, _, spec, principal) => CreationKeepsNumbers(t, agent, spec, principal);
      case SetStatus(agent, now, id, status, effectiveAt) =>
        StatusKeepsOrder(t, agent, id, status, effectiveAt, now);
        assert forall other :: NumberedFor(t.profiles, other) ==> NumberedFor(Apply(t, call).profiles, other);
      case Version(agent, now, previous, spec, moment) =>
        StatusKeepsOrder(t, agent, previous, Revoked, Some(spec.validFrom), moment);
        var revoked := SetStatusIn(t, agent, previous, Revoked, Some(spec.validFrom), moment).value;
        assert revoked.profiles == t.profiles;
        assert forall other :: NumberedFor(t.profiles, other) ==> NumberedFor(revoked.profiles, other);
        CreationKeepsNumbers(revoked, agent, spec, t.profiles[previous].grant.principal);
    }
  }

  /** In every history versions count the agent's profiles, and the events of a profile are in order. */
  lemma {:induction false} RecordsAreKept(agents: set<AgentId>, calls: seq<Call>)
    ensures var t := After(Tables(agents, [], []), calls); WellKept(t) && InOrder(t) && Numbered(t)
  {
    if calls != [] {
      RecordsAreKept(agents, calls[..|calls| - 1]);
      StepKeepsRecords(After(Tables(agents, [], []), calls[..|calls| - 1]), calls[|calls| - 1]);
    }
  }

  lemma FirstTwoDiffer(ids: seq<ProfileId>)
    requires Ascending(ids)
    ensures |ids| > 1 ==> ids[0] != ids[1]
  {
  }

  lemma SoleEffective(t: Tables, agent: AgentId, id: ProfileId, at: Time)
    requires forall other :: Effective(t, agent, other, at) <==> other == id
    ensures EffectiveIds(t, agent, at, |t.profiles|) == [id]
  {
    var ids := EffectiveIds(t, agent, at, |t.profiles|);
    EffectiveIdsExact(t, agent, at, |t.profiles|);
    assert Effective(t, agent, id, at) && id in ids;
    forall k | 0 <= k < |ids| ensures ids[k] == id {
      assert ids[k] in ids;
    }
    FirstTwoDiffer(ids);
  }

  lemma ForgedIsNotResolved(t: Tables, agent: AgentId, id: ProfileId, at: Time)
    requires id < |t.profiles| && !t.profiles[id].Verified()
    ensures GetEffectiveAuthorityProfile(t, agent, at) != Ok(id)
  {
  }

  /** Whatever the rows hold, a profile that no longer matches its hash is neither resolved nor changed. */
  lemma ForgedProfileIsRefused(t: Tables, agent: AgentId, id: ProfileId, at: Time, status: Status, effectiveAt: Option<Time>, now: Time)
    requires id < |t.profiles| && t.profiles[id].hash.grant != t.profiles[id].grant
    ensures GetEffectiveAuthorityProfile(t, agent, at) != Ok(id)
    ensures SetStatusIn(t, agent, id, status, effectiveAt, now).Err?
    ensures (forall other :: Effective(t, agent, other, at) <==> other == id) ==>
              GetEffectiveAuthorityProfile(t, agent, at) == Err(AuthorityHashUnverified)
  {
    ForgedIsNotResolved(t, agent, id, at);
    if forall other :: Effective(t, agent, other, at) <==> other == id {
      SoleEffective(t, agent, id, at);
    }
  }
}
