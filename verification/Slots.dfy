/**
 The slot arithmetic of the autonomy scheduler (backend/app/autonomy/service.py, execution_slot and _day_bounds).

 Instants are microseconds since the epoch. A slot is a multiple of the cadence, found from the whole seconds of the
 instant, which are cut towards zero and not down; the two differ before 1970 only.
 */
module Slots {

  type Time = int

  type Cadence = c: int | c >= 1 witness 900

  const SECOND: int := 1_000_000
  const DAY_SECONDS: int := 86_400

  /** Whole seconds, cut towards zero. */
  function Seconds(t: Time): int {
    if t >= 0 then t / SECOND else -((-t) / SECOND)
  }

  function SlotSeconds(t: Time, c: Cadence): int {
    Seconds(t) - Seconds(t) % c
  }

  function Slot(t: Time, c: Cadence): Time {
    SlotSeconds(t, c) * SECOND
  }

  /** The slot after the given one. */
  function NextSlot(slot: Time, c: Cadence): Time {
    slot + c * SECOND
  }

  /** The UTC day of an instant. */
  function Day(t: Time): int {
    t / (DAY_SECONDS * SECOND)
  }

  lemma SecondsBound(t: Time)
    ensures t < Seconds(t) * SECOND + SECOND
    ensures Seconds(t) * SECOND <= t <==> t >= 0 || t % SECOND == 0
  {
    if t < 0 {
      var q, r := (-t) / SECOND, (-t) % SECOND;
      assert -t == q * SECOND + r;
      assert t % SECOND == 0 <==> r == 0;
    }
  }

  /**
   The next slot always lies in the future. The slot itself is not later than the instant, except in the last
   part-second before a boundary of the grid before 1970.
   */
  lemma SlotBounds(t: Time, c: Cadence)
    ensures t < NextSlot(Slot(t, c), c)
    ensures Slot(t, c) <= t <==> t >= 0 || t % SECOND == 0 || Seconds(t) % c != 0
  {
    SecondsBound(t);
    var s, r := Seconds(t), Seconds(t) % c;
    assert 0 <= r < c;
    assert Slot(t, c) == s * SECOND - r * SECOND;
    assert NextSlot(Slot(t, c), c) == s * SECOND + (c - r) * SECOND;
    assert (c - r) * SECOND >= SECOND;
    if r > 0 {
      assert r * SECOND >= SECOND;
      NegativeSeconds(t);
    }
  }

  lemma NegativeSeconds(t: Time)
    ensures Seconds(t) * SECOND - SECOND < t
  {
  }

  /**
   The loop that skips missed slots: the first slot on the grid of the given one that is not before it and in the future.
   The scheduler starts it from the slot after the instant's own, which is in the future already (SlotBounds): nothing is skipped.
   */
  method SkipMissed(from: Time, instant: Time, c: Cadence) returns (next: Time)
    ensures from <= next && instant < next
    ensures exists k: nat :: next == from + k * (c * SECOND)
    ensures next == from || next - c * SECOND <= instant
    ensures from == NextSlot(Slot(instant, c), c) ==> next == from
  {
    SlotBounds(instant, c);
    next := from;
    ghost var k: nat := 0;
    while next <= instant
      invariant next == from + k * (c * SECOND) && from <= next
      invariant next == from || next - c * SECOND <= instant
      invariant instant < from ==> next == from
      decreases instant - next
    {
      next := next + c * SECOND;
      k := k + 1;
      assert k * (c * SECOND) == (k - 1) * (c * SECOND) + c * SECOND;
    }
  }

  lemma SecondsMonotone(a: Time, b: Time)
    requires a <= b
    ensures Seconds(a) <= Seconds(b)
  {
  }

  lemma FloorMonotone(a: int, b: int, c: Cadence)
    requires a <= b
    ensures a - a % c <= b - b % c
  {
    QuotientMonotone(a, b, c);
    var qa, qb := a / c, b / c;
    ProductMonotone(qa, qb, c);
    assert a - a % c == qa * c && b - b % c == qb * c;
  }

  lemma ProductMonotone(a: int, b: int, c: Cadence)
    requires a <= b
    ensures a * c <= b * c
  {
  }

  lemma QuotientMonotone(a: int, b: int, c: Cadence)
    requires a <= b
    ensures a / c <= b / c
  {
    var qa, qb := a / c, b / c;
    assert a == qa * c + a % c && b == qb * c + b % c;
    BelowMeansSmaller(qb, qa, c);
  }

  lemma BelowMeansSmaller(x: int, y: int, c: Cadence)
    ensures x < y ==> x * c + c <= y * c
  {
    if x < y {
      ProductMonotone(x + 1, y, c);
      assert (x + 1) * c == x * c + c;
    }
  }

  /** Slots never go back. */
  lemma SlotMonotone(a: Time, b: Time, c: Cadence)
    requires a <= b
    ensures Slot(a, c) <= Slot(b, c)
  {
    SecondsMonotone(a, b);
    FloorMonotone(Seconds(a), Seconds(b), c);
  }

  /**
   The slot found once the next one is due lies after the earlier slot, for every later instant, exactly when the new
   cadence does not reach back over the old one. With an unchanged cadence it always does.
   */
  lemma SlotsRiseExactly(s: int, c: Cadence, d: Cadence)
    ensures (forall t: Time :: NextSlot(s * SECOND, c) <= t ==> Slot(t, d) > s * SECOND) <==> (s + c) % d < c
  {
    var due := NextSlot(s * SECOND, c);
    assert due == (s + c) * SECOND;
    WholeSeconds(s + c);
    assert Slot(due, d) == (s + c - (s + c) % d) * SECOND;
    if (s + c) % d < c {
      forall t: Time | due <= t ensures Slot(t, d) > s * SECOND {
        SlotMonotone(due, t, d);
      }
    }
  }

  lemma WholeSeconds(n: int)
    ensures Seconds(n * SECOND) == n
  {
  }

  lemma SlotIsMultiple(t: Time, c: Cadence)
    ensures SlotSeconds(t, c) % c == 0
  {
    var s := Seconds(t);
    assert s - s % c == (s / c) * c;
    MultipleHasNoRemainder(s / c, c);
  }

  lemma MultipleHasNoRemainder(q: int, c: Cadence)
    ensures (q * c) % c == 0
  {
    var x := q * c;
    assert x == (x / c) * c + x % c;
    var d := q - x / c;
    assert d * c == x % c by {
      assert d * c == q * c - (x / c) * c;
    }
    ZeroIsTheOnlyMultiple(d, c);
  }

  lemma ZeroIsTheOnlyMultiple(d: int, c: Cadence)
    ensures 0 <= d * c < c ==> d * c == 0
  {
    if d >= 1 {
      ProductMonotone(1, d, c);
    } else if d <= -1 {
      ProductMonotone(d, -1, c);
    }
  }

  lemma NextMultiple(s: int, c: Cadence)
    requires s % c == 0
    ensures (s + c) % c == 0
  {
    assert s == (s / c) * c;
    assert s + c == (s / c + 1) * c;
    MultipleHasNoRemainder(s / c + 1, c);
  }

  lemma MultiplesApart(a: int, b: int, c: Cadence)
    requires a % c == 0 && b % c == 0 && a < b
    ensures a + c <= b
  {
    assert a == (a / c) * c && b == (b / c) * c;
    BelowMeansSmaller(a / c, b / c, c);
    if b / c <= a / c {
      ProductMonotone(b / c, a / c, c);
    }
  }

  /** From an instant on, every slot but the instant's own lies beyond the instant. */
  lemma LaterSlots(due: Time, t: Time, c: Cadence)
    requires due <= t && Slot(t, c) != Slot(due, c)
    ensures due < Slot(t, c)
  {
    SlotMonotone(due, t, c);
    SlotIsMultiple(due, c);
    SlotIsMultiple(t, c);
    MultiplesApart(SlotSeconds(due, c), SlotSeconds(t, c), c);
    SlotBounds(due, c);
  }

  // ---------------------------------------------------------------------------------------------------
  // Slots and days
  // ---------------------------------------------------------------------------------------------------

  lemma DayOfSlot(s: int)
    ensures Day(s * SECOND) == s / DAY_SECONDS
  {
  }

  lemma DayOfInstant(t: Time)
    requires t >= 0
    ensures Day(t) == Seconds(t) / DAY_SECONDS
  {
  }

  /** The slot lies in the day of the instant, whatever the instant, exactly when the cadence divides the day. */
  lemma SlotsKeepTheDayExactly(c: Cadence)
    ensures (forall t: Time :: t >= 0 ==> Slot(t, c) / 86_400_000_000 == t / 86_400_000_000) <==> 86_400 % c == 0
  {
    if DAY_SECONDS % c == 0 {
      forall t: Time | t >= 0 ensures Day(Slot(t, c)) == Day(t) {
        SlotKeepsTheDay(t, c);
      }
    } else {
      var t := DAY_SECONDS * SECOND;
      WholeSeconds(DAY_SECONDS);
      assert SlotSeconds(t, c) < DAY_SECONDS;
      DayOfSlot(SlotSeconds(t, c));
      BelowOneDay(SlotSeconds(t, c));
      assert Day(t) == 1;
      assert Day(Slot(t, c)) != Day(t);
    }
  }

  lemma BelowOneDay(s: int)
    requires s < DAY_SECONDS
    ensures s / DAY_SECONDS < 1
  {
  }

  lemma SlotKeepsTheDay(t: Time, c: Cadence)
    requires t >= 0 && DAY_SECONDS % c == 0
    ensures Day(Slot(t, c)) == Day(t)
  {
    var s := Seconds(t);
    DayOfInstant(t);
    DayOfSlot(SlotSeconds(t, c));
    var day := s / DAY_SECONDS;
    var q := DAY_SECONDS / c;
    assert DAY_SECONDS == q * c;
    StartOfDayIsMultiple(day, q, c);
    FloorMonotone(day * DAY_SECONDS, s, c);
    assert day * DAY_SECONDS <= s - s % c <= s;
    SameQuotient(s, s - s % c, day);
  }

  lemma StartOfDayIsMultiple(day: int, q: int, c: Cadence)
    requires DAY_SECONDS == q * c
    ensures (day * DAY_SECONDS) % c == 0
  {
    assert day * DAY_SECONDS == (day * q) * c;
    MultipleHasNoRemainder(day * q, c);
  }

  lemma SameQuotient(s: int, x: int, day: int)
    requires day == s / DAY_SECONDS && day * DAY_SECONDS <= x <= s
    ensures x / DAY_SECONDS == day
  {
  }
}
