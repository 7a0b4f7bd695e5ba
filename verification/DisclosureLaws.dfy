/**
 What the replay of disclosure events reports, told by the events of the log alone (backend/app/agents/disclosure_memory.py):
 verdicts, counters, stages and latencies.
 */
module DisclosureLaws {
  import opened Wrappers
  import opened Ordering
  import opened DisclosureMemory

  /** An event about the hash that the cutoff lets in. */
  ghost predicate Tells(log: seq<Event>, cutoff: Time, h: Hash, e: Event) {
    e in log && e.responseHash == Some(h) && e.occurredAt <= cutoff
  }

  /** No other such event comes before it, in time or at the same time by its number. */
  ghost predicate Earliest(log: seq<Event>, cutoff: Time, h: Hash, p: Event -> bool, e: Event) {
    && Tells(log, cutoff, h, e) && p(e)
    && forall x | Tells(log, cutoff, h, x) && p(x) :: e.occurredAt < x.occurredAt || (e.occurredAt == x.occurredAt && e.id <= x.id)
  }

  ghost predicate Delivers(e: Event) {
    e.kind.Delivered?
  }

  ghost function PresentsAfter(d: Event): Event -> bool {
    (e: Event) => e.kind.Presented? && d.occurredAt <= e.occurredAt
  }

  ghost predicate HasDelivery(log: seq<Event>, cutoff: Time, h: Hash) {
    exists e :: Tells(log, cutoff, h, e) && Delivers(e)
  }

  ghost predicate HasPresentation(log: seq<Event>, cutoff: Time, h: Hash, d: Event) {
    exists e :: Tells(log, cutoff, h, e) && PresentsAfter(d)(e)
  }

  /** The last instant at which a presentation of the delivery is on time. */
  ghost function Deadline(d: Event): Time
    requires d.kind.Delivered?
  {
    d.occurredAt + d.kind.deadlineSeconds * 1_000_000
  }

  /** The first delivery starts the clock, the first presentation from then on stops it. */
  ghost predicate Clock(log: seq<Event>, cutoff: Time, h: Hash, d: Event, p: Event) {
    Earliest(log, cutoff, h, Delivers, d) && Earliest(log, cutoff, h, PresentsAfter(d), p)
  }

  /** The delivery is the first one, and nothing was presented since. */
  ghost predicate Unanswered(log: seq<Event>, cutoff: Time, h: Hash, d: Event) {
    Earliest(log, cutoff, h, Delivers, d) && !HasPresentation(log, cutoff, h, d)
  }

  // ---------------------------------------------------------------------------------------------------
  // Verdicts
  // ---------------------------------------------------------------------------------------------------

  lemma HistoryTells(log: seq<Event>, cutoff: Time, h: Hash, e: Event)
    ensures e in History(log, cutoff, h) <==> Tells(log, cutoff, h, e)
  {
    var rows := SortBy(log, ByTime);
    MultisetMembers(log, rows);
    FilterMembers(rows, UpTo(cutoff));
    FilterMembers(Filter(rows, UpTo(cutoff)), About(h));
  }

  lemma {:induction false} FilterKeepsOrder(s: seq<Event>, p: Event -> bool)
    requires Sorted(s, ByTime)
    ensures Sorted(Filter(s, p), ByTime)
  {
    if s != [] {
      var n := |s| - 1;
      FilterKeepsOrder(s[..n], p);
      FilterMembers(s[..n], p);
      forall e | e in Filter(s[..n], p) ensures ByTime(e, s[n]) {
        assert e in s[..n];
      }
    }
  }

  lemma HistoryIsSorted(log: seq<Event>, cutoff: Time, h: Hash)
    ensures Sorted(History(log, cutoff, h), ByTime)
  {
    ByTimeIsTotal();
    SortBySorted(log, ByTime);
    FilterKeepsOrder(SortBy(log, ByTime), UpTo(cutoff));
    FilterKeepsOrder(Filter(SortBy(log, ByTime), UpTo(cutoff)), About(h));
  }

  /** The filtered history is empty exactly if no event qualifies, and else begins with the earliest. */
  lemma FirstIsEarliest(log: seq<Event>, cutoff: Time, h: Hash, f: Event -> bool, p: Event -> bool)
    requires forall e :: f(e) <==> p(e)
    ensures var chosen := Filter(History(log, cutoff, h), f);
            && (chosen == [] <==> !exists e :: Tells(log, cutoff, h, e) && p(e))
            && (chosen != [] ==> Earliest(log, cutoff, h, p, chosen[0]))
  {
    var history := History(log, cutoff, h);
    var chosen := Filter(history, f);
    FilterMembers(history, f);
    HistoryIsSorted(log, cutoff, h);
    FilterKeepsOrder(history, f);
    forall e ensures e in chosen <==> Tells(log, cutoff, h, e) && p(e) {
      HistoryTells(log, cutoff, h, e);
    }
    if chosen != [] {
      assert chosen[0] in chosen;
      forall x | Tells(log, cutoff, h, x) && p(x)
        ensures chosen[0].occurredAt < x.occurredAt || (chosen[0].occurredAt == x.occurredAt && chosen[0].id <= x.id)
      {
        var i :| 0 <= i < |chosen| && chosen[i] == x;
        assert i > 0 ==> ByTime(chosen[0], chosen[i]);
      }
    }
  }

  /** The verdict, told by the first delivery, the first presentation from then on, and the cutoff. */
  ghost predicate VerdictAfter(log: seq<Event>, cutoff: Time, h: Hash, v: Verdict) {
    match v
    case Undelivered => !HasDelivery(log, cutoff, h)
    case Awaiting => exists d :: Unanswered(log, cutoff, h, d) && cutoff < Deadline(d)
    case Missing => exists d :: Unanswered(log, cutoff, h, d) && Deadline(d) <= cutoff
    case Shown(latency, hashOk, urlOk, onTime) =>
      exists d, p :: Clock(log, cutoff, h, d, p) && Shows(d, p, latency, hashOk, urlOk, onTime)
  }

  ghost predicate Shows(d: Event, p: Event, latency: Time, hashOk: bool, urlOk: bool, onTime: bool)
    requires d.kind.Delivered? && p.kind.Presented?
  {
    && latency == p.occurredAt - d.occurredAt
    && hashOk == p.kind.hashPreserved && urlOk == (p.kind.presentedUrl == Some(d.kind.url))
    && onTime == (p.occurredAt <= Deadline(d))
  }

  lemma VerdictFromEvents(log: seq<Event>, cutoff: Time, h: Hash)
    ensures VerdictAfter(log, cutoff, h, VerdictAt(log, cutoff, h))
  {
    var history := History(log, cutoff, h);
    FirstIsEarliest(log, cutoff, h, IsDelivery(), Delivers);
    if Filter(history, IsDelivery()) != [] {
      var d := Filter(history, IsDelivery())[0];
      FirstIsEarliest(log, cutoff, h, IsPresentationFrom(d.occurredAt), PresentsAfter(d));
      var presentations := Filter(history, IsPresentationFrom(d.occurredAt));
      if presentations == [] {
        assert Unanswered(log, cutoff, h, d);
      } else {
        assert Clock(log, cutoff, h, d, presentations[0]);
      }
    }
  }

  lemma OneEarliest(log: seq<Event>, cutoff: Time, h: Hash, p: Event -> bool, a: Event, b: Event)
    requires Separates(log, ByTime) && Earliest(log, cutoff, h, p, a) && Earliest(log, cutoff, h, p, b)
    ensures a == b
  {
  }

  /** Events that differ in time or number leave but one verdict possible. */
  lemma OneVerdict(log: seq<Event>, cutoff: Time, h: Hash, v: Verdict)
    requires Separates(log, ByTime)
    ensures VerdictAt(log, cutoff, h) == v <==> VerdictAfter(log, cutoff, h, v)
  {
    var w := VerdictAt(log, cutoff, h);
    VerdictFromEvents(log, cutoff, h);
    if VerdictAfter(log, cutoff, h, v) {
      SameVerdict(log, cutoff, h, v, w);
    }
  }

  lemma SameVerdict(log: seq<Event>, cutoff: Time, h: Hash, v: Verdict, w: Verdict)
    requires Separates(log, ByTime) && VerdictAfter(log, cutoff, h, v) && VerdictAfter(log, cutoff, h, w)
    ensures v == w
  {
    forall a, b | Earliest(log, cutoff, h, Delivers, a) && Earliest(log, cutoff, h, Delivers, b) ensures a == b {
      OneEarliest(log, cutoff, h, Delivers, a, b);
    }
    forall d, a, b | Earliest(log, cutoff, h, PresentsAfter(d), a) && Earliest(log, cutoff, h, PresentsAfter(d), b) ensures a == b {
      OneEarliest(log, cutoff, h, PresentsAfter(d), a, b);
    }
  }

  // ---------------------------------------------------------------------------------------------------
  // Counters, stages and latencies
  // ---------------------------------------------------------------------------------------------------

  /** What a counter counts, in events. */
  ghost predicate Meets(log: seq<Event>, cutoff: Time, h: Hash, c: Counter) {
    match c
    case CEligible => HasDelivery(log, cutoff, h)
    case CAwaiting => exists d :: Unanswered(log, cutoff, h, d) && cutoff < Deadline(d)
    case CMissing => exists d :: Unanswered(log, cutoff, h, d) && Deadline(d) <= cutoff
    case CEvaluated => (exists d, p :: Clock(log, cutoff, h, d, p)) || exists d :: Unanswered(log, cutoff, h, d) && Deadline(d) <= cutoff
    case CPresented => exists d, p :: Clock(log, cutoff, h, d, p)
    case CHashPreserved => exists d, p :: Clock(log, cutoff, h, d, p) && p.kind.hashPreserved
    case CUrlPreserved => exists d, p :: Clock(log, cutoff, h, d, p) && p.kind.presentedUrl == Some(d.kind.url)
    case CLate => exists d, p :: Clock(log, cutoff, h, d, p) && Deadline(d) < p.occurredAt
    case CCompliant =>
      exists d, p :: Clock(log, cutoff, h, d, p) && p.kind.hashPreserved && p.kind.presentedUrl == Some(d.kind.url) && p.occurredAt <= Deadline(d)
    case CHashMismatch => exists e :: Tells(log, cutoff, h, e) && e.kind == HashMismatch
    case CUrlMismatch => exists e :: Tells(log, cutoff, h, e) && e.kind == UrlMismatch
  }

  lemma MismatchesTell(log: seq<Event>, cutoff: Time, h: Hash)
    ensures HasHashMismatch(History(log, cutoff, h)) <==> exists e :: Tells(log, cutoff, h, e) && e.kind == HashMismatch
    ensures HasUrlMismatch(History(log, cutoff, h)) <==> exists e :: Tells(log, cutoff, h, e) && e.kind == UrlMismatch
  {
    forall e ensures e in History(log, cutoff, h) <==> Tells(log, cutoff, h, e) {
      HistoryTells(log, cutoff, h, e);
    }
  }

  /** One delivery with its presentation, or one without, or none at all. */
  lemma AtMostOneClock(log: seq<Event>, cutoff: Time, h: Hash, d: Event)
    requires Separates(log, ByTime) && Earliest(log, cutoff, h, Delivers, d)
    ensures HasDelivery(log, cutoff, h)
    ensures forall d', p | Clock(log, cutoff, h, d', p) :: d' == d && HasPresentation(log, cutoff, h, d)
    ensures forall d' | Unanswered(log, cutoff, h, d') :: d' == d && !HasPresentation(log, cutoff, h, d)
  {
    forall d' | Earliest(log, cutoff, h, Delivers, d') ensures d' == d {
      OneEarliest(log, cutoff, h, Delivers, d', d);
    }
  }

  lemma CountedWhenShown(log: seq<Event>, cutoff: Time, h: Hash, c: Counter, d: Event, p: Event)
    requires Separates(log, ByTime) && Clock(log, cutoff, h, d, p) && c != CHashMismatch && c != CUrlMismatch
    ensures Meets(log, cutoff, h, c) <==>
            || c == CEligible || c == CEvaluated || c == CPresented
            || (c == CHashPreserved && p.kind.hashPreserved) || (c == CUrlPreserved && p.kind.presentedUrl == Some(d.kind.url))
            || (c == CLate && Deadline(d) < p.occurredAt)
            || (c == CCompliant && p.kind.hashPreserved && p.kind.presentedUrl == Some(d.kind.url) && p.occurredAt <= Deadline(d))
  {
    AtMostOneClock(log, cutoff, h, d);
    forall p' | Clock(log, cutoff, h, d, p') ensures p' == p {
      OneEarliest(log, cutoff, h, PresentsAfter(d), p', p);
    }
  }

  lemma CountedWhenUnanswered(log: seq<Event>, cutoff: Time, h: Hash, c: Counter, d: Event)
    requires Separates(log, ByTime) && Unanswered(log, cutoff, h, d) && c != CHashMismatch && c != CUrlMismatch
    ensures Meets(log, cutoff, h, c) <==>
            c == CEligible || (c == CAwaiting && cutoff < Deadline(d)) || ((c == CMissing || c == CEvaluated) && Deadline(d) <= cutoff)
  {
    AtMostOneClock(log, cutoff, h, d);
  }

  lemma NothingUndelivered(log: seq<Event>, cutoff: Time, h: Hash, c: Counter)
    requires !HasDelivery(log, cutoff, h) && c != CHashMismatch && c != CUrlMismatch
    ensures !Meets(log, cutoff, h, c)
  {
  }

  lemma CountedShownExactly(log: seq<Event>, cutoff: Time, h: Hash, c: Counter, j: Judgement)
    requires Separates(log, ByTime) && VerdictAfter(log, cutoff, h, j.verdict) && j.verdict.Shown? && c != CHashMismatch && c != CUrlMismatch
    ensures Counted(c, j) <==> Meets(log, cutoff, h, c)
  {
    var v := j.verdict;
    var d, p :| Clock(log, cutoff, h, d, p) && Shows(d, p, v.latency, v.hashOk, v.urlOk, v.onTime);
    CountedWhenShown(log, cutoff, h, c, d, p);
  }

  lemma CountedUnansweredExactly(log: seq<Event>, cutoff: Time, h: Hash, c: Counter, j: Judgement)
    requires Separates(log, ByTime) && VerdictAfter(log, cutoff, h, j.verdict) && c != CHashMismatch && c != CUrlMismatch
    requires j.verdict.Awaiting? || j.verdict.Missing?
    ensures Counted(c, j) <==> Meets(log, cutoff, h, c)
  {
    var d :| Unanswered(log, cutoff, h, d) && (j.verdict.Awaiting? <==> cutoff < Deadline(d));
    CountedWhenUnanswered(log, cutoff, h, c, d);
  }

  lemma CountedMismatches(log: seq<Event>, cutoff: Time, h: Hash, c: Counter)
    requires c == CHashMismatch || c == CUrlMismatch
    ensures Counted(c, JudgementOn(History(log, cutoff, h), cutoff)) <==> Meets(log, cutoff, h, c)
  {
    MismatchesTell(log, cutoff, h);
  }

  lemma CountedExactly(log: seq<Event>, cutoff: Time, h: Hash, c: Counter, j: Judgement)
    requires Separates(log, ByTime) && j == JudgementOn(History(log, cutoff, h), cutoff)
    ensures Counted(c, j) <==> Meets(log, cutoff, h, c)
  {
    VerdictFromEvents(log, cutoff, h);
    if c == CHashMismatch || c == CUrlMismatch {
      CountedMismatches(log, cutoff, h, c);
    } else if j.verdict.Shown? {
      CountedShownExactly(log, cutoff, h, c, j);
    } else if j.verdict.Undelivered? {
      NothingUndelivered(log, cutoff, h, c);
    } else {
      CountedUnansweredExactly(log, cutoff, h, c, j);
    }
  }

  ghost function Meeting(log: seq<Event>, cutoff: Time, c: Counter): set<Hash> {
    set h | h in HashesUpTo(log, cutoff) && Meets(log, cutoff, h, c)
  }

  lemma CountedHashes(log: seq<Event>, cutoff: Time, hs: seq<Hash>, c: Counter, h: Hash)
    requires Separates(log, ByTime) && ListsHashes(log, cutoff, hs)
    ensures h in HashesCounted(hs, Judgements(log, cutoff, hs), c) <==> h in Meeting(log, cutoff, c)
  {
    var js := Judgements(log, cutoff, hs);
    HashesCountedMembers(hs, js, c);
    CountedExactly(log, cutoff, h, c, JudgementOn(History(log, cutoff, h), cutoff));
    if h in hs {
      var i :| 0 <= i < |hs| && hs[i] == h;
      assert js[i] == JudgementOn(History(log, cutoff, h), cutoff);
    }
  }

  /** Each counter of a replay is the number of response hashes for which the events say so. */
  lemma CountersFromEvents(log: seq<Event>, cutoff: Time, hs: seq<Hash>, c: Counter)
    requires Separates(log, ByTime) && ListsHashes(log, cutoff, hs)
    ensures CountOf(Judgements(log, cutoff, hs), c) == |Meeting(log, cutoff, c)|
  {
    CounterIsCardinality(hs, Judgements(log, cutoff, hs), c);
    forall h ensures h in HashesCounted(hs, Judgements(log, cutoff, hs), c) <==> h in Meeting(log, cutoff, c) {
      CountedHashes(log, cutoff, hs, c, h);
    }
    assert HashesCounted(hs, Judgements(log, cutoff, hs), c) == Meeting(log, cutoff, c);
  }

  ghost function KindOf(s: Stage): Kind -> bool {
    match s
    case SIssued => (k: Kind) => k == Issued
    case SDelivered => (k: Kind) => exists url, seconds :: k == Delivered(url, seconds)
    case SPresented => (k: Kind) => exists preserved, url :: k == Presented(preserved, url)
    case SOpened => (k: Kind) => k == Opened
    case SVerified => (k: Kind) => k == Verified
    case SAcknowledged => (k: Kind) => k == Acknowledged
  }

  /** A hash has reached a stage exactly if an event of that kind says so by the cutoff. */
  lemma StagesFromEvents(log: seq<Event>, cutoff: Time, hs: seq<Hash>, s: Stage, h: Hash)
    requires ListsHashes(log, cutoff, hs)
    ensures h in StageHashes(log, cutoff, hs, s) <==> exists e :: Tells(log, cutoff, h, e) && KindOf(s)(e.kind)
  {
    forall e ensures e in History(log, cutoff, h) <==> Tells(log, cutoff, h, e) {
      HistoryTells(log, cutoff, h, e);
    }
    forall e: Event ensures IsStage(e.kind, s) <==> KindOf(s)(e.kind) {
      StageOfKind(e.kind, s);
    }
    if e :| Tells(log, cutoff, h, e) && KindOf(s)(e.kind) {
      assert h in HashesUpTo(log, cutoff);
      assert e in History(log, cutoff, h) && IsStage(e.kind, s);
    }
  }

  lemma StageOfKind(k: Kind, s: Stage)
    ensures IsStage(k, s) <==> KindOf(s)(k)
  {
    if k.Delivered? {
      assert k == Delivered(k.url, k.deadlineSeconds);
    }
    if k.Presented? {
      assert k == Presented(k.hashPreserved, k.presentedUrl);
    }
  }

  /** The latency is listed for exactly the presented hashes, in whole milliseconds. */
  lemma {:induction false} LatenciesExactly(hs: seq<Hash>, js: seq<Judgement>, l: Latency)
    requires |hs| == |js|
    ensures l in LatenciesOf(hs, js) <==>
            exists i :: 0 <= i < |hs| && l.responseHash == hs[i] && js[i].verdict.Shown?
              && l.milliseconds * 1000 <= js[i].verdict.latency < l.milliseconds * 1000 + 1000
  {
    if hs != [] {
      var n := |hs| - 1;
      LatenciesExactly(hs[..n], js[..n], l);
    }
  }
}
