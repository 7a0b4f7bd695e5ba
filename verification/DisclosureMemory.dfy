/**
 The cumulative disclosure memory (backend/app/agents/disclosure_memory.py): a fixed log of titular-check
 events is replayed up to a cutoff, and every response hash gets a verdict.

 Instants are whole microseconds; response hashes, event ids and URLs are opaque values.
 */
module DisclosureMemory {
  import opened Wrappers
  import opened Ordering
  import opened FiniteSets

  type Time = int
  type Hash = nat
  type Url = nat

  const SECOND: Time := 1_000_000
  const MILLISECOND: Time := 1_000

  datatype Kind =
    | Issued
    | Delivered(url: Url, deadlineSeconds: int)
    | Presented(hashPreserved: bool, presentedUrl: Option<Url>)
    | Opened
    | Verified
    | Acknowledged
    | HashMismatch
    | UrlMismatch
    | OtherKind

  datatype Event = Event(id: nat, occurredAt: Time, responseHash: Option<Hash>, kind: Kind)

  predicate ByTime(a: Event, b: Event) {
    a.occurredAt < b.occurredAt || (a.occurredAt == b.occurredAt && a.id <= b.id)
  }

  // ---------------------------------------------------------------------------------------------------
  // The verdict on one response hash
  // ---------------------------------------------------------------------------------------------------

  datatype Verdict =
    | Undelivered
    | Awaiting
    | Missing
    | Shown(latency: Time, hashOk: bool, urlOk: bool, onTime: bool)
  {
    predicate Compliant() {
      Shown? && hashOk && urlOk && onTime
    }

    predicate Late() {
      Shown? && !onTime
    }
  }

  function UpTo(cutoff: Time): Event -> bool {
    (e: Event) => e.occurredAt <= cutoff
  }

  function About(h: Hash): Event -> bool {
    (e: Event) => e.responseHash == Some(h)
  }

  function IsDelivery(): Event -> bool {
    (e: Event) => e.kind.Delivered?
  }

  function IsPresentationFrom(start: Time): Event -> bool {
    (e: Event) => e.kind.Presented? && e.occurredAt >= start
  }

  /** The events of one response hash, oldest first, up to the cutoff. */
  function History(log: seq<Event>, cutoff: Time, h: Hash): seq<Event> {
    Filter(Filter(SortBy(log, ByTime), UpTo(cutoff)), About(h))
  }

  function FirstOf(history: seq<Event>, p: Event -> bool): (e: Event)
    requires Filter(history, p) != []
    ensures e == Filter(history, p)[0] && p(e) && e in history
  {
    FilterMembers(history, p);
    assert Filter(history, p)[0] in Filter(history, p);
    Filter(history, p)[0]
  }

  function VerdictOn(history: seq<Event>, cutoff: Time): Verdict {
    var deliveries := Filter(history, IsDelivery());
    if deliveries == [] then Undelivered
    else
      var first := FirstOf(history, IsDelivery());
      var start := first.occurredAt;
      var deadline := start + first.kind.deadlineSeconds * SECOND;
      var presentations := Filter(history, IsPresentationFrom(start));
      if presentations == [] then
        if cutoff < deadline then Awaiting else Missing
      else
        var p := FirstOf(history, IsPresentationFrom(start));
        Shown(p.occurredAt - start, p.kind.hashPreserved, p.kind.presentedUrl == Some(first.kind.url), p.occurredAt <= deadline)
  }

  function VerdictAt(log: seq<Event>, cutoff: Time, h: Hash): Verdict {
    VerdictOn(History(log, cutoff, h), cutoff)
  }

  /** The only ways a verdict may move as the cutoff grows. */
  predicate Advances(before: Verdict, after: Verdict) {
    match before
    case Undelivered => true
    case Awaiting => !after.Undelivered?
    case Missing => after.Missing? || after.Late()
    case Shown(_, _, _, _) => after == before
  }

  lemma ByTimeIsTotal()
    ensures Total(ByTime)
  {
  }

  lemma {:induction false} CutoffExtends(rows: seq<Event>, c1: Time, c2: Time) returns (tail: seq<Event>)
    requires Sorted(rows, ByTime) && c1 <= c2
    ensures Filter(rows, UpTo(c2)) == Filter(rows, UpTo(c1)) + tail
    ensures forall e | e in tail :: e in rows && e.occurredAt > c1
  {
    if rows == [] {
      tail := [];
    } else {
      var n := |rows| - 1;
      tail := CutoffExtends(rows[..n], c1, c2);
      assert tail != [] ==> tail[0] in tail;
      if c1 < rows[n].occurredAt <= c2 {
        tail := tail + [rows[n]];
      } else if rows[n].occurredAt <= c1 {
        forall e | e in rows[..n] ensures e.occurredAt <= c1 {
          assert ByTime(e, rows[n]);
        }
        assert tail == [];
      }
    }
  }

  lemma HistoryExtends(log: seq<Event>, c1: Time, c2: Time, h: Hash) returns (news: seq<Event>)
    requires c1 <= c2
    ensures History(log, c2, h) == History(log, c1, h) + news
    ensures forall e | e in news :: e.occurredAt > c1
  {
    ByTimeIsTotal();
    var rows := SortBy(log, ByTime);
    SortBySorted(log, ByTime);
    var tail := CutoffExtends(rows, c1, c2);
    FilterConcat(Filter(rows, UpTo(c1)), tail, About(h));
    news := Filter(tail, About(h));
    FilterMembers(tail, About(h));
  }

  lemma LaterEventsAdvance(before: seq<Event>, news: seq<Event>, c1: Time, c2: Time)
    requires c1 <= c2 && forall e | e in news :: e.occurredAt > c1
    ensures Advances(VerdictOn(before, c1), VerdictOn(before + news, c2))
  {
    FilterConcat(before, news, IsDelivery());
    if Filter(before, IsDelivery()) != [] {
      var first := Filter(before, IsDelivery())[0];
      assert Filter(before + news, IsDelivery())[0] == first;
      var kept, added := Filter(before, IsPresentationFrom(first.occurredAt)), Filter(news, IsPresentationFrom(first.occurredAt));
      FilterConcat(before, news, IsPresentationFrom(first.occurredAt));
      if kept != [] {
        assert (kept + added)[0] == kept[0];
      } else if added != [] {
        FilterMembers(news, IsPresentationFrom(first.occurredAt));
        assert (kept + added)[0] == added[0] && added[0] in added;
      }
    }
  }

  /** As the cutoff grows over a fixed log, a verdict only moves forward, and a verdict on a presentation is final. */
  lemma VerdictsOnlyAdvance(log: seq<Event>, c1: Time, c2: Time, h: Hash)
    requires c1 <= c2
    ensures Advances(VerdictAt(log, c1, h), VerdictAt(log, c2, h))
  {
    var news := HistoryExtends(log, c1, c2, h);
    LaterEventsAdvance(History(log, c1, h), news, c1, c2);
  }

  /** A hash found missing can later be late, but it is never compliant. */
  lemma MissingIsNeverCompliant(log: seq<Event>, c1: Time, c2: Time, h: Hash)
    requires c1 <= c2 && VerdictAt(log, c1, h).Missing?
    ensures !VerdictAt(log, c2, h).Compliant()
  {
    VerdictsOnlyAdvance(log, c1, c2, h);
  }

  /** The verdict on a hash does not depend on the order in which the log is read. */
  lemma VerdictForgetsInputOrder(log1: seq<Event>, log2: seq<Event>, cutoff: Time, h: Hash)
    requires multiset(log1) == multiset(log2) && Separates(log1, ByTime)
    ensures VerdictAt(log1, cutoff, h) == VerdictAt(log2, cutoff, h)
  {
    ByTimeIsTotal();
    SortForgetsInputOrder(log1, log2, ByTime);
  }

  // ---------------------------------------------------------------------------------------------------
  // Counting verdicts
  // ---------------------------------------------------------------------------------------------------

  datatype Counter =
    | CEligible | CEvaluated | CCompliant | CPresented | CHashPreserved | CUrlPreserved
    | CMissing | CLate | CAwaiting | CHashMismatch | CUrlMismatch

  datatype Stage = SIssued | SDelivered | SPresented | SOpened | SVerified | SAcknowledged

  predicate IsStage(k: Kind, s: Stage) {
    match s
    case SIssued => k.Issued?
    case SDelivered => k.Delivered?
    case SPresented => k.Presented?
    case SOpened => k.Opened?
    case SVerified => k.Verified?
    case SAcknowledged => k.Acknowledged?
  }

  predicate Reached(history: seq<Event>, s: Stage) {
    exists e | e in history :: IsStage(e.kind, s)
  }

  predicate HasHashMismatch(history: seq<Event>) {
    exists e | e in history :: e.kind.HashMismatch?
  }

  predicate HasUrlMismatch(history: seq<Event>) {
    exists e | e in history :: e.kind.UrlMismatch?
  }

  /** All that is judged about one hash. */
  datatype Judgement = Judgement(verdict: Verdict, hashMismatch: bool, urlMismatch: bool)

  function JudgementOn(history: seq<Event>, cutoff: Time): Judgement {
    Judgement(VerdictOn(history, cutoff), HasHashMismatch(history), HasUrlMismatch(history))
  }

  /** Which judgements a counter counts. */
  predicate Counted(c: Counter, j: Judgement) {
    var v := j.verdict;
    match c
    case CEligible => !v.Undelivered?
    case CEvaluated => v.Missing? || v.Shown?
    case CCompliant => v.Compliant()
    case CPresented => v.Shown?
    case CHashPreserved => v.Shown? && v.hashOk
    case CUrlPreserved => v.Shown? && v.urlOk
    case CMissing => v.Missing?
    case CLate => v.Late()
    case CAwaiting => v.Awaiting?
    case CHashMismatch => j.hashMismatch
    case CUrlMismatch => j.urlMismatch
  }

  function CountOf(js: seq<Judgement>, c: Counter): nat {
    if js == [] then 0
    else CountOf(js[..|js| - 1], c) + One(Counted(c, js[|js| - 1]))
  }

  function One(b: bool): nat {
    if b then 1 else 0
  }

  datatype Latency = Latency(responseHash: Hash, milliseconds: int)

  /** The response hashes that occur up to the cutoff. */
  ghost function HashesUpTo(log: seq<Event>, cutoff: Time): set<Hash> {
    set e | e in log && e.occurredAt <= cutoff && e.responseHash.Some? :: e.responseHash.value
  }

  /** The judgements on the hashes, in their order. */
  ghost function Judgements(log: seq<Event>, cutoff: Time, hs: seq<Hash>): (js: seq<Judgement>)
    ensures |js| == |hs|
    ensures forall i | 0 <= i < |hs| :: js[i] == JudgementOn(History(log, cutoff, hs[i]), cutoff)
  {
    seq(|hs|, i requires 0 <= i < |hs| => JudgementOn(History(log, cutoff, hs[i]), cutoff))
  }

  /** The presentation latency of each presented hash, in the order of the hashes. */
  function LatenciesOf(hs: seq<Hash>, js: seq<Judgement>): seq<Latency>
    requires |hs| == |js|
  {
    if hs == [] then []
    else
      var n := |hs| - 1;
      LatenciesOf(hs[..n], js[..n])
      + (if js[n].verdict.Shown? then [Latency(hs[n], js[n].verdict.latency / MILLISECOND)] else [])
  }

  datatype Counts = Counts(
    eligible: nat, evaluated: nat, compliant: nat, presented: nat, hashPreserved: nat, urlPreserved: nat,
    missing: nat, late: nat, awaiting: nat, hashMismatch: nat, urlMismatch: nat)
  {
    function At(c: Counter): nat {
      match c
      case CEligible => eligible
      case CEvaluated => evaluated
      case CCompliant => compliant
      case CPresented => presented
      case CHashPreserved => hashPreserved
      case CUrlPreserved => urlPreserved
      case CMissing => missing
      case CLate => late
      case CAwaiting => awaiting
      case CHashMismatch => hashMismatch
      case CUrlMismatch => urlMismatch
    }

    /** The counters with one more judgement counted. */
    function Plus(j: Judgement): Counts {
      Counts(
        eligible + One(Counted(CEligible, j)), evaluated + One(Counted(CEvaluated, j)), compliant + One(Counted(CCompliant, j)),
        presented + One(Counted(CPresented, j)), hashPreserved + One(Counted(CHashPreserved, j)),
        urlPreserved + One(Counted(CUrlPreserved, j)), missing + One(Counted(CMissing, j)), late + One(Counted(CLate, j)),
        awaiting + One(Counted(CAwaiting, j)), hashMismatch + One(Counted(CHashMismatch, j)), urlMismatch + One(Counted(CUrlMismatch, j)))
    }
  }

  datatype Unique = Unique(issuedFor: set<Hash>, deliveredFor: set<Hash>, presentedFor: set<Hash>,
                           openedFor: set<Hash>, verifiedFor: set<Hash>, acknowledgedFor: set<Hash>)
  {
    function At(s: Stage): set<Hash> {
      match s
      case SIssued => issuedFor
      case SDelivered => deliveredFor
      case SPresented => presentedFor
      case SOpened => openedFor
      case SVerified => verifiedFor
      case SAcknowledged => acknowledgedFor
    }

    /** The sets with one more hash noted under every stage its history reached. */
    function Note(h: Hash, history: seq<Event>): Unique {
      Unique(
        NoteHash(issuedFor, h, history, SIssued),
        NoteHash(deliveredFor, h, history, SDelivered),
        NoteHash(presentedFor, h, history, SPresented),
        NoteHash(openedFor, h, history, SOpened),
        NoteHash(verifiedFor, h, history, SVerified),
        NoteHash(acknowledgedFor, h, history, SAcknowledged))
    }
  }

  datatype Memory = Memory(counts: Counts, unique: Unique, latencies: seq<Latency>, hashes: seq<Hash>)

  predicate AtMost(a: Hash, b: Hash) {
    a <= b
  }

  function NoteHash(hs: set<Hash>, h: Hash, history: seq<Event>, s: Stage): set<Hash> {
    if Reached(history, s) then hs + {h} else hs
  }

  /** The verdict part of one round of the counting loop. */
  method JudgeDelivery(history: seq<Event>, cutoff: Time, before: Counts) returns (counts: Counts, latency: Option<Time>)
    ensures counts == before.Plus(Judgement(VerdictOn(history, cutoff), false, false))
    ensures latency == var v := VerdictOn(history, cutoff); if v.Shown? then Some(v.latency) else None
  {
    counts, latency := before, None;
    ghost var verdict := VerdictOn(history, cutoff);
    if Filter(history, IsDelivery()) == [] {
      assert verdict == Undelivered;
      return;
    }
    counts := counts.(eligible := counts.eligible + 1);
    var first := FirstOf(history, IsDelivery());
    var start := first.occurredAt;
    var deadline := start + first.kind.deadlineSeconds * SECOND;
    var presentations := Filter(history, IsPresentationFrom(start));
    if presentations == [] && cutoff < deadline {
      assert verdict == Awaiting;
      counts := counts.(awaiting := counts.awaiting + 1);
      return;
    }
    counts := counts.(evaluated := counts.evaluated + 1);
    if presentations == [] {
      assert verdict == Missing;
      counts := counts.(missing := counts.missing + 1);
      return;
    }
    counts := counts.(presented := counts.presented + 1);
    var presentation := FirstOf(history, IsPresentationFrom(start));
    latency := Some(presentation.occurredAt - start);
    var hashOk := presentation.kind.hashPreserved;
    var urlOk := presentation.kind.presentedUrl == Some(first.kind.url);
    var onTime := presentation.occurredAt <= deadline;
    assert verdict == Shown(latency.value, hashOk, urlOk, onTime);
    counts := CountPresentation(counts, hashOk, urlOk, onTime);
    ShownCounts(before, latency.value, hashOk, urlOk, onTime);
  }

  lemma ShownCounts(before: Counts, latency: Time, hashOk: bool, urlOk: bool, onTime: bool)
    ensures before.Plus(Judgement(Shown(latency, hashOk, urlOk, onTime), false, false)) ==
            before.(eligible := before.eligible + 1, evaluated := before.evaluated + 1, presented := before.presented + 1,
                    hashPreserved := before.hashPreserved + One(hashOk), urlPreserved := before.urlPreserved + One(urlOk),
                    late := before.late + One(!onTime), compliant := before.compliant + One(hashOk && urlOk && onTime))
  {
  }

  method CountPresentation(before: Counts, hashOk: bool, urlOk: bool, onTime: bool) returns (counts: Counts)
    ensures counts == before.(hashPreserved := before.hashPreserved + One(hashOk), urlPreserved := before.urlPreserved + One(urlOk),
                              late := before.late + One(!onTime), compliant := before.compliant + One(hashOk && urlOk && onTime))
  {
    counts := before.(hashPreserved := before.hashPreserved + One(hashOk));
    counts := counts.(urlPreserved := counts.urlPreserved + One(urlOk));
    counts := counts.(late := counts.late + One(!onTime));
    counts := counts.(compliant := counts.compliant + One(hashOk && urlOk && onTime));
  }

  /** One round of the counting loop. */
  method JudgeHash(history: seq<Event>, cutoff: Time, before: Counts) returns (counts: Counts, latency: Option<Time>)
    ensures counts == before.Plus(JudgementOn(history, cutoff))
    ensures latency == var v := VerdictOn(history, cutoff); if v.Shown? then Some(v.latency) else None
  {
    counts := before.(hashMismatch := before.hashMismatch + One(HasHashMismatch(history)),
                      urlMismatch := before.urlMismatch + One(HasUrlMismatch(history)));
    counts, latency := JudgeDelivery(history, cutoff, counts);
  }

  ghost predicate Groups(grouped: map<Hash, seq<Event>>, rows: seq<Event>) {
    && (forall h | h in grouped :: grouped[h] == Filter(rows, About(h)) && grouped[h] != [])
    && (forall h | h !in grouped :: Filter(rows, About(h)) == [])
  }

  lemma GroupStep(grouped: map<Hash, seq<Event>>, rows: seq<Event>, i: nat)
    requires i < |rows| && Groups(grouped, rows[..i])
    ensures match rows[i].responseHash
            case None => Groups(grouped, rows[..i + 1])
            case Some(h) => Groups(grouped[h := (if h in grouped then grouped[h] else []) + [rows[i]]], rows[..i + 1])
  {
    forall h: Hash ensures Filter(rows[..i + 1], About(h)) ==
                     if rows[i].responseHash == Some(h) then Filter(rows[..i], About(h)) + [rows[i]] else Filter(rows[..i], About(h))
    {
      FilterStep(rows, i, About(h));
    }
  }

  /** The grouping loop: the events of each response hash, in the order of the rows. */
  method GroupByHash(rows: seq<Event>) returns (grouped: map<Hash, seq<Event>>, keys: seq<Hash>)
    ensures Distinct(keys) && forall h :: h in keys <==> h in grouped
    ensures Groups(grouped, rows)
  {
    grouped, keys := map[], [];
    for i := 0 to |rows|
      invariant Distinct(keys) && forall h :: h in keys <==> h in grouped
      invariant Groups(grouped, rows[..i])
    {
      GroupStep(grouped, rows, i);
      if rows[i].responseHash.Some? {
        var h := rows[i].responseHash.value;
        if h !in grouped {
          grouped := grouped[h := []];
          keys := keys + [h];
        }
        grouped := grouped[h := grouped[h] + [rows[i]]];
      }
    }
    assert rows[..|rows|] == rows;
  }

  ghost function Reaching(hs: seq<Hash>, grouped: map<Hash, seq<Event>>, s: Stage): set<Hash> {
    set h | h in hs && h in grouped && Reached(grouped[h], s)
  }

  lemma CountStep(js: seq<Judgement>, i: nat, counts: Counts)
    requires i < |js| && forall c: Counter :: counts.At(c) == CountOf(js[..i], c)
    ensures forall c: Counter :: counts.Plus(js[i]).At(c) == CountOf(js[..i + 1], c)
  {
    forall c: Counter ensures counts.Plus(js[i]).At(c) == CountOf(js[..i + 1], c) {
      assert js[..i + 1][..i] == js[..i];
    }
  }

  lemma ReachingStep(hs: seq<Hash>, grouped: map<Hash, seq<Event>>, i: nat, unique: Unique)
    requires i < |hs| && hs[i] in grouped
    requires forall s: Stage :: unique.At(s) == Reaching(hs[..i], grouped, s)
    ensures forall s: Stage :: unique.Note(hs[i], grouped[hs[i]]).At(s) == Reaching(hs[..i + 1], grouped, s)
  {
    assert hs[..i + 1] == hs[..i] + [hs[i]];
    forall s: Stage ensures unique.Note(hs[i], grouped[hs[i]]).At(s) == Reaching(hs[..i + 1], grouped, s) {
      assert unique.Note(hs[i], grouped[hs[i]]).At(s) == NoteHash(unique.At(s), hs[i], grouped[hs[i]], s);
    }
  }

  lemma LatencyStep(hs: seq<Hash>, js: seq<Judgement>, i: nat)
    requires i < |hs| == |js|
    ensures LatenciesOf(hs[..i + 1], js[..i + 1]) ==
            LatenciesOf(hs[..i], js[..i])
            + (if js[i].verdict.Shown? then [Latency(hs[i], js[i].verdict.latency / MILLISECOND)] else [])
  {
    assert js[..i + 1][..i] == js[..i] && hs[..i + 1][..i] == hs[..i];
  }

  /** The counting loop over the hashes in order, given the events of each. */
  method CountVerdicts(hs: seq<Hash>, grouped: map<Hash, seq<Event>>, cutoff: Time, ghost js: seq<Judgement>)
    returns (counts: Counts, unique: Unique, latencies: seq<Latency>)
    requires |js| == |hs| && forall h | h in hs :: h in grouped
    requires forall i | 0 <= i < |hs| :: js[i] == JudgementOn(grouped[hs[i]], cutoff)
    ensures forall c: Counter :: counts.At(c) == CountOf(js, c)
    ensures forall s: Stage :: unique.At(s) == Reaching(hs, grouped, s)
    ensures latencies == LatenciesOf(hs, js)
  {
    counts := Counts(0, 0, 0, 0, 0, 0, 0, 0, 0, 0, 0);
    unique := Unique({}, {}, {}, {}, {}, {});
    latencies := [];
    for i := 0 to |hs|
      invariant forall c: Counter :: counts.At(c) == CountOf(js[..i], c)
      invariant forall s: Stage :: unique.At(s) == Reaching(hs[..i], grouped, s)
      invariant latencies == LatenciesOf(hs[..i], js[..i])
    {
      var h := hs[i];
      CountStep(js, i, counts);
      LatencyStep(hs, js, i);
      ReachingStep(hs, grouped, i, unique);
      unique := unique.Note(h, grouped[h]);
      var latency;
      counts, latency := JudgeHash(grouped[h], cutoff, counts);
      if latency.Some? {
        latencies := latencies + [Latency(h, latency.value / MILLISECOND)];
      }
    }
    assert hs[..|hs|] == hs && js[..|js|] == js;
  }

  /** The response hashes that occur up to the cutoff, ascending. */
  ghost predicate ListsHashes(log: seq<Event>, cutoff: Time, hs: seq<Hash>) {
    Distinct(hs) && Sorted(hs, AtMost) && forall h :: h in hs <==> h in HashesUpTo(log, cutoff)
  }

  ghost function StageHashes(log: seq<Event>, cutoff: Time, hs: seq<Hash>, s: Stage): set<Hash> {
    set h | h in hs && Reached(History(log, cutoff, h), s)
  }

  method ReplayDisclosure(log: seq<Event>, cutoff: Time) returns (memory: Memory)
    ensures ListsHashes(log, cutoff, memory.hashes)
    ensures forall c: Counter :: memory.counts.At(c) == CountOf(Judgements(log, cutoff, memory.hashes), c)
    ensures forall s: Stage :: memory.unique.At(s) == StageHashes(log, cutoff, memory.hashes, s)
    ensures memory.latencies == LatenciesOf(memory.hashes, Judgements(log, cutoff, memory.hashes))
  {
    var rows := Filter(SortBy(log, ByTime), UpTo(cutoff));
    var grouped, keys := GroupByHash(rows);
    var hs := SortBy(keys, AtMost);
    GroupsAreTheHashes(log, cutoff, grouped, keys);
    GroupsAreHistories(log, cutoff, grouped, hs);
    var counts, unique, latencies := CountVerdicts(hs, grouped, cutoff, Judgements(log, cutoff, hs));
    memory := Memory(counts, unique, latencies, hs);
  }

  lemma GroupsAreTheHashes(log: seq<Event>, cutoff: Time, grouped: map<Hash, seq<Event>>, keys: seq<Hash>)
    requires Distinct(keys) && forall h :: h in keys <==> h in grouped
    requires forall h :: h in grouped <==> History(log, cutoff, h) != []
    ensures ListsHashes(log, cutoff, SortBy(keys, AtMost))
    ensures forall h | h in SortBy(keys, AtMost) :: h in grouped
  {
    var hs := SortBy(keys, AtMost);
    SortBySorted(keys, AtMost);
    MultisetMembers(keys, hs);
    DistinctPermutation(keys, hs);
    forall h ensures h in hs <==> h in HashesUpTo(log, cutoff) {
      HistoryIsInhabited(log, cutoff, h);
    }
  }

  lemma GroupsAreHistories(log: seq<Event>, cutoff: Time, grouped: map<Hash, seq<Event>>, hs: seq<Hash>)
    requires forall h | h in hs :: h in grouped && grouped[h] == History(log, cutoff, h)
    ensures forall i | 0 <= i < |hs| :: Judgements(log, cutoff, hs)[i] == JudgementOn(grouped[hs[i]], cutoff)
    ensures forall s: Stage :: Reaching(hs, grouped, s) == StageHashes(log, cutoff, hs, s)
  {
    forall s: Stage ensures Reaching(hs, grouped, s) == StageHashes(log, cutoff, hs, s) {
    }
  }

  lemma HistoryIsInhabited(log: seq<Event>, cutoff: Time, h: Hash)
    ensures History(log, cutoff, h) != [] <==> h in HashesUpTo(log, cutoff)
  {
    var rows := SortBy(log, ByTime);
    MultisetMembers(log, rows);
    FilterMembers(rows, UpTo(cutoff));
    FilterMembers(Filter(rows, UpTo(cutoff)), About(h));
    if h in HashesUpTo(log, cutoff) {
      var e :| e in log && e.occurredAt <= cutoff && e.responseHash == Some(h);
      assert e in rows;
    }
    if History(log, cutoff, h) != [] {
      assert History(log, cutoff, h)[0] in History(log, cutoff, h);
    }
  }

  // ---------------------------------------------------------------------------------------------------
  // What the counters mean
  // ---------------------------------------------------------------------------------------------------

  /** Every eligible hash is awaiting, missing or presented, and no presentation is both compliant and late. */
  lemma {:induction false} CountersPartition(js: seq<Judgement>)
    ensures CountOf(js, CEligible) == CountOf(js, CEvaluated) + CountOf(js, CAwaiting)
    ensures CountOf(js, CEvaluated) == CountOf(js, CPresented) + CountOf(js, CMissing)
    ensures CountOf(js, CCompliant) + CountOf(js, CLate) <= CountOf(js, CPresented)
  {
    if js != [] {
      CountersPartition(js[..|js| - 1]);
    }
  }

  ghost function HashesCounted(hs: seq<Hash>, js: seq<Judgement>, c: Counter): set<Hash>
    requires |hs| == |js|
  {
    if hs == [] then {}
    else
      var n := |hs| - 1;
      HashesCounted(hs[..n], js[..n], c) + (if Counted(c, js[n]) then {hs[n]} else {})
  }

  lemma {:induction false} HashesCountedMembers(hs: seq<Hash>, js: seq<Judgement>, c: Counter)
    requires |hs| == |js|
    ensures forall h :: h in HashesCounted(hs, js, c) <==> exists i :: 0 <= i < |hs| && hs[i] == h && Counted(c, js[i])
  {
    if hs != [] {
      HashesCountedMembers(hs[..|hs| - 1], js[..|hs| - 1], c);
    }
  }

  /** Each counter is the number of distinct hashes it counts. */
  lemma {:induction false} CounterIsCardinality(hs: seq<Hash>, js: seq<Judgement>, c: Counter)
    requires |hs| == |js| && Distinct(hs)
    ensures CountOf(js, c) == |HashesCounted(hs, js, c)|
  {
    if hs != [] {
      var n := |hs| - 1;
      CounterIsCardinality(hs[..n], js[..n], c);
      HashesCountedMembers(hs[..n], js[..n], c);
      assert hs[n] !in HashesCounted(hs[..n], js[..n], c);
    }
  }

  /** The hash has moved on to a verdict that its earlier one may advance to. */
  ghost predicate Followed(h: Hash, v: Verdict, hs: seq<Hash>, js: seq<Judgement>)
    requires |hs| == |js|
  {
    exists k :: 0 <= k < |hs| && hs[k] == h && Advances(v, js[k].verdict)
  }

  ghost predicate Outgrown(hs1: seq<Hash>, js1: seq<Judgement>, hs2: seq<Hash>, js2: seq<Judgement>)
    requires |hs1| == |js1| && |hs2| == |js2|
  {
    forall i | 0 <= i < |hs1| :: Followed(hs1[i], js1[i].verdict, hs2, js2)
  }

  lemma SettledStaysCounted(c: Counter, j1: Judgement, j2: Judgement)
    requires c in {CEligible, CEvaluated, CPresented, CCompliant, CLate} && Advances(j1.verdict, j2.verdict)
    ensures Counted(c, j1) ==> Counted(c, j2)
  {
  }

  lemma SettledContained(hs1: seq<Hash>, js1: seq<Judgement>, hs2: seq<Hash>, js2: seq<Judgement>, c: Counter)
    requires |hs1| == |js1| && |hs2| == |js2| && Outgrown(hs1, js1, hs2, js2)
    requires c in {CEligible, CEvaluated, CPresented, CCompliant, CLate}
    ensures HashesCounted(hs1, js1, c) <= HashesCounted(hs2, js2, c)
  {
    HashesCountedMembers(hs1, js1, c);
    HashesCountedMembers(hs2, js2, c);
    forall h | h in HashesCounted(hs1, js1, c) ensures h in HashesCounted(hs2, js2, c) {
      var i :| 0 <= i < |hs1| && hs1[i] == h && Counted(c, js1[i]);
      assert Followed(hs1[i], js1[i].verdict, hs2, js2);
      var k :| 0 <= k < |hs2| && hs2[k] == h && Advances(js1[i].verdict, js2[k].verdict);
      SettledStaysCounted(c, js1[i], js2[k]);
    }
  }

  lemma SettledCounterGrows(hs1: seq<Hash>, js1: seq<Judgement>, hs2: seq<Hash>, js2: seq<Judgement>, c: Counter)
    requires |hs1| == |js1| && |hs2| == |js2| && Distinct(hs1) && Distinct(hs2) && Outgrown(hs1, js1, hs2, js2)
    requires c in {CEligible, CEvaluated, CPresented, CCompliant, CLate}
    ensures CountOf(js1, c) <= CountOf(js2, c)
  {
    CounterIsCardinality(hs1, js1, c);
    CounterIsCardinality(hs2, js2, c);
    SettledContained(hs1, js1, hs2, js2, c);
    SubsetSize(HashesCounted(hs1, js1, c), HashesCounted(hs2, js2, c));
  }

  lemma FaultsOnlyGrow(hs1: seq<Hash>, js1: seq<Judgement>, hs2: seq<Hash>, js2: seq<Judgement>)
    requires |hs1| == |js1| && |hs2| == |js2| && Distinct(hs1) && Distinct(hs2) && Outgrown(hs1, js1, hs2, js2)
    ensures CountOf(js1, CMissing) + CountOf(js1, CLate) <= CountOf(js2, CMissing) + CountOf(js2, CLate)
  {
    var m1, l1 := HashesCounted(hs1, js1, CMissing), HashesCounted(hs1, js1, CLate);
    var m2, l2 := HashesCounted(hs2, js2, CMissing), HashesCounted(hs2, js2, CLate);
    MissingAndLateApart(hs1, js1);
    MissingAndLateApart(hs2, js2);
    FaultsContained(hs1, js1, hs2, js2);
    SubsetSize(m1 + l1, m2 + l2);
  }

  lemma MissingAndLateApart(hs: seq<Hash>, js: seq<Judgement>)
    requires |hs| == |js| && Distinct(hs)
    ensures |HashesCounted(hs, js, CMissing) + HashesCounted(hs, js, CLate)| == CountOf(js, CMissing) + CountOf(js, CLate)
  {
    CounterIsCardinality(hs, js, CMissing);
    CounterIsCardinality(hs, js, CLate);
    HashesCountedMembers(hs, js, CMissing);
    HashesCountedMembers(hs, js, CLate);
    var m, l := HashesCounted(hs, js, CMissing), HashesCounted(hs, js, CLate);
    assert m !! l;
    assert |m + l| == |m| + |l|;
  }

  lemma FaultsContained(hs1: seq<Hash>, js1: seq<Judgement>, hs2: seq<Hash>, js2: seq<Judgement>)
    requires |hs1| == |js1| && |hs2| == |js2| && Outgrown(hs1, js1, hs2, js2)
    ensures HashesCounted(hs1, js1, CMissing) + HashesCounted(hs1, js1, CLate)
            <= HashesCounted(hs2, js2, CMissing) + HashesCounted(hs2, js2, CLate)
  {
    HashesCountedMembers(hs1, js1, CMissing);
    HashesCountedMembers(hs1, js1, CLate);
    HashesCountedMembers(hs2, js2, CMissing);
    HashesCountedMembers(hs2, js2, CLate);
  }

  /**
   As the cutoff grows no credit and no fault is taken back: every settled counter only grows, and a missing
   presentation can only turn into a late one.
   */
  lemma CountersOnlyGrow(log: seq<Event>, c1: Time, hs1: seq<Hash>, c2: Time, hs2: seq<Hash>, c: Counter)
    requires c1 <= c2 && ListsHashes(log, c1, hs1) && ListsHashes(log, c2, hs2)
    ensures var js1, js2 := Judgements(log, c1, hs1), Judgements(log, c2, hs2);
            && (c in {CEligible, CEvaluated, CPresented, CCompliant, CLate} ==> CountOf(js1, c) <= CountOf(js2, c))
            && CountOf(js1, CMissing) + CountOf(js1, CLate) <= CountOf(js2, CMissing) + CountOf(js2, CLate)
  {
    var js1, js2 := Judgements(log, c1, hs1), Judgements(log, c2, hs2);
    forall i | 0 <= i < |hs1|
      ensures Followed(hs1[i], js1[i].verdict, hs2, js2)
    {
      assert hs1[i] in hs1 && hs1[i] in hs2;
      var k :| 0 <= k < |hs2| && hs2[k] == hs1[i];
      VerdictsOnlyAdvance(log, c1, c2, hs1[i]);
      assert js1[i].verdict == VerdictAt(log, c1, hs1[i]) && js2[k].verdict == VerdictAt(log, c2, hs1[i]);
    }
    assert Outgrown(hs1, js1, hs2, js2);
    if c in {CEligible, CEvaluated, CPresented, CCompliant, CLate} {
      SettledCounterGrows(hs1, js1, hs2, js2, c);
    }
    FaultsOnlyGrow(hs1, js1, hs2, js2);
  }
}
