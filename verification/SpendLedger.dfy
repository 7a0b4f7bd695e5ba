/**
 The shared daily spend ledger (backend/app/public_safety.py) and the reconciliation tests that read it
 (backend/app/authority/recovery.py).

 Amounts are whole micro-USDC, the quantum every amount is rounded to before it is used. One call is one
 committed transaction; a refused call leaves the tables as they were.
 */
module SpendLedger {
  import opened Wrappers
  import opened MapSums

  type Date = int
  type MandateId = nat

  datatype Origin = Manual | M2M | Autonomous
  datatype Status = Reserved | Settled | Released

  datatype LedgerRow = LedgerRow(reserved: int, spent: int) {
    function Total(): int { reserved + spent }
  }

  datatype Reservation = Reservation(date: Date, reserved: int, actual: Option<int>, status: Status, origin: Origin) {
    function Actual(): int { actual.GetOr(0) }
  }

  datatype Tables = Tables(rows: map<Date, LedgerRow>, reservations: map<MandateId, Reservation>)

  datatype Error =
    | BudgetExceeded
    | DailyCapExceeded
    | DuplicateReservation
    | AuthorizationInvalid
    | SettlementInvalid

  datatype Outcome = Done | Refused(error: Error)

  // ---------------------------------------------------------------------------------------------------
  // What each operation does to the tables
  // ---------------------------------------------------------------------------------------------------

  function ReserveTables(t: Tables, mandate: MandateId, amount: int, maximum: int, origin: Origin, today: Date, cap: int)
    : (Tables, Outcome)
  {
    if amount <= 0 || amount > maximum then (t, Refused(BudgetExceeded))
    else if amount > cap then (t, Refused(DailyCapExceeded))
    else if today in t.rows && t.rows[today].Total() + amount > cap then (t, Refused(DailyCapExceeded))
    else if mandate in t.reservations then (t, Refused(DuplicateReservation))
    else
      var row := if today in t.rows then t.rows[today] else LedgerRow(0, 0);
      (Tables(t.rows[today := row.(reserved := row.reserved + amount)],
              t.reservations[mandate := Reservation(today, amount, None, Reserved, origin)]),
       Done)
  }

  /** A reservation the worker may act on: open, of the expected origin, and within the ceiling. */
  predicate Verified(t: Tables, mandate: MandateId, maximum: int, origin: Origin) {
    && mandate in t.reservations
    && var r := t.reservations[mandate];
    && r.status == Reserved
    && r.origin == origin
    && 0 < r.reserved <= maximum
  }

  predicate LedgerCovers(t: Tables, r: Reservation) {
    r.date in t.rows && r.reserved <= t.rows[r.date].reserved
  }

  function SettleTables(t: Tables, mandate: MandateId, actual: int, maximum: int, origin: Origin, finalize: bool)
    : (Tables, Outcome)
  {
    if !Verified(t, mandate, maximum, origin) then (t, Refused(AuthorizationInvalid))
    else
      var r := t.reservations[mandate];
      if actual < 0 || actual > r.reserved then (t, Refused(SettlementInvalid))
      else if !LedgerCovers(t, r) then (t, Refused(AuthorizationInvalid))
      else
        var row := t.rows[r.date];
        var freed := if finalize then r.reserved else actual;
        (Tables(t.rows[r.date := LedgerRow(row.reserved - freed, row.spent + actual)],
                t.reservations[mandate := r.(reserved := r.reserved - freed,
                                             actual := Some(r.Actual() + actual),
                                             status := if finalize then Settled else Reserved)]),
         Done)
  }

  function ReleaseTables(t: Tables, mandate: MandateId, origin: Origin): (Tables, Outcome) {
    if mandate !in t.reservations then (t, Done)
    else
      var r := t.reservations[mandate];
      if r.status != Reserved || r.origin != origin then (t, Done)
      else if !LedgerCovers(t, r) then (t, Refused(AuthorizationInvalid))
      else
        var row := t.rows[r.date];
        (Tables(t.rows[r.date := row.(reserved := row.reserved - r.reserved)],
                t.reservations[mandate := r.(status := Released)]),
         Done)
  }

  // ---------------------------------------------------------------------------------------------------
  // The stored tables, updated in place
  // ---------------------------------------------------------------------------------------------------

  class Ledger {
    var rows: map<Date, LedgerRow>
    var reservations: map<MandateId, Reservation>

    ghost function Contents(): Tables
      reads this
    {
      Tables(rows, reservations)
    }

    constructor ()
      ensures Contents() == Tables(map[], map[])
    {
      rows, reservations := map[], map[];
    }

    method ReserveSpend(mandate: MandateId, amount: int, maximum: int, origin: Origin, today: Date, cap: int)
      returns (outcome: Outcome)
      modifies this
      ensures (Contents(), outcome) == ReserveTables(old(Contents()), mandate, amount, maximum, origin, today, cap)
    {
      if amount <= 0 || amount > maximum {
        return Refused(BudgetExceeded);
      }
      if amount > cap {
        return Refused(DailyCapExceeded);
      }
      var before := rows;
      if today !in rows {
        rows := rows[today := LedgerRow(amount, 0)];
      } else if rows[today].spent + rows[today].reserved + amount <= cap {
        rows := rows[today := rows[today].(reserved := rows[today].reserved + amount)];
      } else {
        return Refused(DailyCapExceeded);
      }
      if mandate in reservations {
        rows := before; // the primary key of the reservation rejects the whole transaction
        return Refused(DuplicateReservation);
      }
      reservations := reservations[mandate := Reservation(today, amount, None, Reserved, origin)];
      return Done;
    }

    method VerifySpendReservation(mandate: MandateId, maximum: int, origin: Origin) returns (r: Option<Reservation>)
      ensures r.Some? <==> Verified(Contents(), mandate, maximum, origin)
      ensures r.Some? ==> r.value == reservations[mandate]
    {
      if mandate !in reservations || reservations[mandate].status != Reserved || reservations[mandate].origin != origin {
        return None;
      }
      if reservations[mandate].reserved <= 0 || reservations[mandate].reserved > maximum {
        return None;
      }
      return Some(reservations[mandate]);
    }

    method SettleSpend(mandate: MandateId, actual: int, maximum: int, origin: Origin, finalize: bool)
      returns (outcome: Outcome)
      modifies this
      ensures (Contents(), outcome) == SettleTables(old(Contents()), mandate, actual, maximum, origin, finalize)
    {
      var verified := VerifySpendReservation(mandate, maximum, origin);
      if verified.None? {
        return Refused(AuthorizationInvalid);
      }
      var r := verified.value;
      if actual < 0 || actual > r.reserved {
        return Refused(SettlementInvalid);
      }
      if r.date !in rows || rows[r.date].reserved < r.reserved {
        return Refused(AuthorizationInvalid);
      }
      var row := rows[r.date];
      row := row.(reserved := row.reserved - actual);
      row := row.(spent := row.spent + actual);
      r := r.(actual := Some(r.Actual() + actual));
      r := r.(reserved := r.reserved - actual);
      if finalize {
        row := row.(reserved := row.reserved - r.reserved);
        r := r.(reserved := 0, status := Settled);
      }
      rows := rows[r.date := row];
      reservations := reservations[mandate := r];
      return Done;
    }

    method ReleaseSpendReservation(mandate: MandateId, origin: Origin) returns (outcome: Outcome)
      modifies this
      ensures (Contents(), outcome) == ReleaseTables(old(Contents()), mandate, origin)
    {
      if mandate !in reservations || reservations[mandate].status != Reserved || reservations[mandate].origin != origin {
        return Done;
      }
      var r := reservations[mandate];
      if r.date !in rows || rows[r.date].reserved < r.reserved {
        return Refused(AuthorizationInvalid);
      }
      rows := rows[r.date := rows[r.date].(reserved := rows[r.date].reserved - r.reserved)];
      reservations := reservations[mandate := r.(status := Released)];
      return Done;
    }
  }

  // ---------------------------------------------------------------------------------------------------
  // Runs: any interleaving of the operations, over many mandates, origins, dates and caps
  // ---------------------------------------------------------------------------------------------------

  datatype Op =
    | Reserve(mandate: MandateId, amount: int, maximum: int, origin: Origin, today: Date, cap: int)
    | Settle(mandate: MandateId, actual: int, maximum: int, origin: Origin, finalize: bool)
    | Release(mandate: MandateId, origin: Origin)

  function Apply(t: Tables, op: Op): (Tables, Outcome) {
    match op
    case Reserve(m, amount, maximum, origin, today, cap) => ReserveTables(t, m, amount, maximum, origin, today, cap)
    case Settle(m, actual, maximum, origin, finalize) => SettleTables(t, m, actual, maximum, origin, finalize)
    case Release(m, origin) => ReleaseTables(t, m, origin)
  }

  /** The tables after a list of operations, from empty tables. */
  function After(ops: seq<Op>): Tables {
    if ops == [] then Tables(map[], map[])
    else Apply(After(ops[..|ops| - 1]), ops[|ops| - 1]).0
  }

  /** What was granted to each mandate by the operations: the amount of its successful reservation. */
  function Granted(ops: seq<Op>): map<MandateId, int> {
    if ops == [] then map[]
    else
      var before := ops[..|ops| - 1];
      var op := ops[|ops| - 1];
      if op.Reserve? && Apply(After(before), op).1.Done? then Granted(before)[op.mandate := op.amount]
      else Granted(before)
  }

  function ReservedOn(d: Date): Reservation -> int {
    (r: Reservation) => if r.date == d && r.status == Reserved then r.reserved else 0
  }

  function SpentOn(d: Date): Reservation -> int {
    (r: Reservation) => if r.date == d then r.Actual() else 0
  }

  /** Each ledger row is the sum of the reservations behind it. */
  ghost predicate Balanced(t: Tables) {
    && (forall m | m in t.reservations :: t.reservations[m].date in t.rows)
    && (forall d | d in t.rows :: t.rows[d].reserved == SumOf(t.reservations, ReservedOn(d)))
    && (forall d | d in t.rows :: t.rows[d].spent == SumOf(t.reservations, SpentOn(d)))
  }

  /** Each reservation accounts for exactly what was granted to its mandate. */
  ghost predicate Accounted(t: Tables, granted: map<MandateId, int>) {
    && granted.Keys == t.reservations.Keys
    && forall m | m in t.reservations ::
      var r := t.reservations[m];
      && granted[m] > 0
      && r.reserved >= 0
      && r.Actual() >= 0
      && (r.status != Settled ==> r.reserved + r.Actual() == granted[m])
      && (r.status == Settled ==> r.reserved == 0 && r.Actual() <= granted[m])
  }

  lemma RowSums(t: Tables, m: MandateId, r: Reservation, d: Date)
    ensures SumOf(t.reservations[m := r], ReservedOn(d)) == SumOf(t.reservations, ReservedOn(d))
                                                            - (if m in t.reservations then ReservedOn(d)(t.reservations[m]) else 0) + ReservedOn(d)(r)
    ensures SumOf(t.reservations[m := r], SpentOn(d)) == SumOf(t.reservations, SpentOn(d))
                                                         - (if m in t.reservations then SpentOn(d)(t.reservations[m]) else 0) + SpentOn(d)(r)
  {
    SumUpdate(t.reservations, ReservedOn(d), m, r);
    SumUpdate(t.reservations, SpentOn(d), m, r);
  }

  lemma NoReservationsOnFreshDate(t: Tables, d: Date)
    requires Balanced(t) && d !in t.rows
    ensures SumOf(t.reservations, ReservedOn(d)) == 0 && SumOf(t.reservations, SpentOn(d)) == 0
  {
    AllZero(t.reservations, ReservedOn(d));
    AllZero(t.reservations, SpentOn(d));
  }

  lemma {:induction false} AllZero<K, V>(m: map<K, V>, f: V -> int)
    requires forall k | k in m :: f(m[k]) == 0
    ensures SumOf(m, f) == 0
    decreases |m|
  {
    if m != map[] {
      var k :| k in m && SumOf(m, f) == f(m[k]) + SumOf(m - {k}, f);
      AllZero(m - {k}, f);
    }
  }

  ghost predicate RowFollows(t: Tables, t': Tables, m: MandateId, d: Date)
    requires m in t'.reservations && d in t'.rows
  {
    var r' := t'.reservations[m];
    var row := if d in t.rows then t.rows[d] else LedgerRow(0, 0);
    && t'.rows[d].reserved == row.reserved + ReservedOn(d)(r')
                              - (if m in t.reservations then ReservedOn(d)(t.reservations[m]) else 0)
    && t'.rows[d].spent == row.spent + SpentOn(d)(r') - (if m in t.reservations then SpentOn(d)(t.reservations[m]) else 0)
  }

  /** Each row changes by what the one changed reservation contributes to it. */
  ghost predicate Follows(t: Tables, t': Tables, m: MandateId) {
    && m in t'.reservations && t'.reservations == t.reservations[m := t'.reservations[m]]
    && t.rows.Keys <= t'.rows.Keys && t'.reservations[m].date in t'.rows
    && forall d | d in t'.rows :: RowFollows(t, t', m, d)
  }

  lemma ReserveFollows(t: Tables, m: MandateId, amount: int, maximum: int, origin: Origin, today: Date, cap: int)
    ensures var (t', outcome) := ReserveTables(t, m, amount, maximum, origin, today, cap);
            outcome.Done? ==> Follows(t, t', m)
  {
  }

  lemma SettleFollows(t: Tables, m: MandateId, actual: int, maximum: int, origin: Origin, finalize: bool)
    ensures var (t', outcome) := SettleTables(t, m, actual, maximum, origin, finalize);
            outcome.Done? ==> Follows(t, t', m)
  {
  }

  lemma ReleaseFollows(t: Tables, m: MandateId, origin: Origin)
    ensures var t' := ReleaseTables(t, m, origin).0; t' != t ==> Follows(t, t', m)
  {
  }

  lemma FollowingKeepsBalance(t: Tables, t': Tables, m: MandateId)
    requires Balanced(t) && Follows(t, t', m)
    ensures Balanced(t')
  {
    forall d | d in t'.rows
      ensures t'.rows[d].reserved == SumOf(t'.reservations, ReservedOn(d))
      ensures t'.rows[d].spent == SumOf(t'.reservations, SpentOn(d))
    {
      RowKeepsBalance(t, t', m, d);
    }
  }

  lemma RowKeepsBalance(t: Tables, t': Tables, m: MandateId, d: Date)
    requires Balanced(t) && Follows(t, t', m) && d in t'.rows
    ensures t'.rows[d].reserved == SumOf(t'.reservations, ReservedOn(d))
    ensures t'.rows[d].spent == SumOf(t'.reservations, SpentOn(d))
  {
    RowTotals(t, d);
    assert RowFollows(t, t', m, d);
    RowSums(t, m, t'.reservations[m], d);
  }

  lemma RowTotals(t: Tables, d: Date)
    requires Balanced(t)
    ensures var row := if d in t.rows then t.rows[d] else LedgerRow(0, 0);
            row.reserved == SumOf(t.reservations, ReservedOn(d)) && row.spent == SumOf(t.reservations, SpentOn(d))
  {
    if d !in t.rows {
      NoReservationsOnFreshDate(t, d);
    }
  }

  lemma ApplyKeepsBalance(t: Tables, op: Op)
    requires Balanced(t)
    ensures Balanced(Apply(t, op).0)
  {
    var t' := Apply(t, op).0;
    if t' != t {
      match op {
        case Reserve(m, amount, maximum, origin, today, cap) => ReserveFollows(t, m, amount, maximum, origin, today, cap);
        case Settle(m, actual, maximum, origin, finalize) => SettleFollows(t, m, actual, maximum, origin, finalize);
        case Release(m, origin) => ReleaseFollows(t, m, origin);
      }
      FollowingKeepsBalance(t, t', op.mandate);
    }
  }

  /** Conservation: after any operations, each row is exactly the sum of the open and of the spent amounts. */
  lemma {:induction false} LedgerIsBalanced(ops: seq<Op>)
    ensures Balanced(After(ops))
  {
    if ops == [] {
    } else {
      LedgerIsBalanced(ops[..|ops| - 1]);
      ApplyKeepsBalance(After(ops[..|ops| - 1]), ops[|ops| - 1]);
    }
  }

  lemma ApplyKeepsAccounts(t: Tables, granted: map<MandateId, int>, op: Op)
    requires Accounted(t, granted)
    ensures Accounted(Apply(t, op).0, if op.Reserve? && Apply(t, op).1.Done? then granted[op.mandate := op.amount] else granted)
  {
  }

  /** Every micro-USDC granted is either still held by the reservation or recorded as spent, until it is settled. */
  lemma {:induction false} GrantsAreAccounted(ops: seq<Op>)
    ensures Accounted(After(ops), Granted(ops))
  {
    if ops == [] {
    } else {
      var before, op := ops[..|ops| - 1], ops[|ops| - 1];
      GrantsAreAccounted(before);
      ApplyKeepsAccounts(After(before), Granted(before), op);
    }
  }

  /** The guard that compares the ledger row with the reservation can never fail. */
  lemma LedgerCoversEveryOpenReservation(ops: seq<Op>, m: MandateId)
    requires m in After(ops).reservations && After(ops).reservations[m].status == Reserved
    ensures LedgerCovers(After(ops), After(ops).reservations[m])
  {
    var t := After(ops);
    var r := t.reservations[m];
    LedgerIsBalanced(ops);
    GrantsAreAccounted(ops);
    TermWithinSum(t.reservations, ReservedOn(r.date), m);
  }

  /** So a settlement is refused exactly for the caller's own reasons, and a release is never refused. */
  lemma RefusalReasons(ops: seq<Op>, m: MandateId, actual: int, maximum: int, origin: Origin, finalize: bool)
    ensures var outcome := SettleTables(After(ops), m, actual, maximum, origin, finalize).1;
            && (outcome == Refused(AuthorizationInvalid) <==> !Verified(After(ops), m, maximum, origin))
            && (outcome == Done <==> Verified(After(ops), m, maximum, origin) && 0 <= actual <= After(ops).reservations[m].reserved)
    ensures ReleaseTables(After(ops), m, origin).1 == Done
  {
    if m in After(ops).reservations && After(ops).reservations[m].status == Reserved {
      LedgerCoversEveryOpenReservation(ops, m);
    }
  }

  // ---------------------------------------------------------------------------------------------------
  // Each operation told by the reservations alone: the rows only repeat their sums
  // ---------------------------------------------------------------------------------------------------

  /** What the day has given away: its open amounts and what was spent on it. */
  ghost function HeldOn(t: Tables, d: Date): int {
    SumOf(t.reservations, ReservedOn(d)) + SumOf(t.reservations, SpentOn(d))
  }

  lemma RowIsHeld(ops: seq<Op>, d: Date)
    ensures HeldOn(After(ops), d) == if d in After(ops).rows then After(ops).rows[d].Total() else 0
    ensures HeldOn(After(ops), d) >= 0
  {
    LedgerIsBalanced(ops);
    RowTotals(After(ops), d);
    GrantsAreAccounted(ops);
    SumNonNegative(After(ops).reservations, ReservedOn(d));
    SumNonNegative(After(ops).reservations, SpentOn(d));
  }

  /** The mandate's own reason for a refusal comes first, then the cap of the day, then an earlier reservation. */
  lemma ReservationGrantedExactly(ops: seq<Op>, m: MandateId, amount: int, maximum: int, origin: Origin, today: Date, cap: int)
    ensures var t, (t', outcome) := After(ops), Apply(After(ops), Reserve(m, amount, maximum, origin, today, cap));
            && (outcome == Done <==> 0 < amount <= maximum && amount <= cap && HeldOn(t, today) + amount <= cap && m !in t.reservations)
            && (outcome == Refused(BudgetExceeded) <==> amount <= 0 || maximum < amount)
            && (outcome == Refused(DailyCapExceeded) <==> 0 < amount <= maximum && cap < HeldOn(t, today) + amount)
            && (outcome == Refused(DuplicateReservation) <==>
                  0 < amount <= maximum && HeldOn(t, today) + amount <= cap && m in t.reservations)
            && (outcome != Done ==> t' == t)
  {
    RowIsHeld(ops, today);
  }

  /** A granted reservation is usable at once, by its own mandate and origin, for the whole amount and on the given day. */
  lemma GrantedIsUsable(ops: seq<Op>, m: MandateId, amount: int, maximum: int, origin: Origin, today: Date, cap: int, d: Date)
    requires Apply(After(ops), Reserve(m, amount, maximum, origin, today, cap)).1 == Done
    ensures var t, t' := After(ops), Apply(After(ops), Reserve(m, amount, maximum, origin, today, cap)).0;
            && Verified(t', m, maximum, origin)
            && t'.reservations == t.reservations[m := Reservation(today, amount, None, Reserved, origin)]
            && HeldOn(t', d) == HeldOn(t, d) + if d == today then amount else 0
  {
    RowSums(After(ops), m, Reservation(today, amount, None, Reserved, origin), d);
  }

  /** Settling succeeds exactly on an open reservation of the origin within the ceiling, for no more than it holds. */
  lemma SettlementExactly(ops: seq<Op>, m: MandateId, actual: int, maximum: int, origin: Origin, finalize: bool)
    ensures var t, (t', outcome) := After(ops), Apply(After(ops), Settle(m, actual, maximum, origin, finalize));
            && (outcome == Done <==>
                  && m in t.reservations && t.reservations[m].status == Reserved && t.reservations[m].origin == origin
                  && 0 < t.reservations[m].reserved <= maximum && 0 <= actual <= t.reservations[m].reserved)
            && (outcome == Refused(SettlementInvalid) <==>
                  && m in t.reservations && t.reservations[m].status == Reserved && t.reservations[m].origin == origin
                  && 0 < t.reservations[m].reserved <= maximum && !(0 <= actual <= t.reservations[m].reserved))
            && (outcome != Done ==> t' == t)
            && (outcome == Done ==>
                  && t'.reservations.Keys == t.reservations.Keys
                  && (forall o | o in t.reservations && o != m :: t'.reservations[o] == t.reservations[o])
                  && var r, r' := t.reservations[m], t'.reservations[m];
                  && r'.date == r.date && r'.origin == r.origin && r'.actual == Some(r.Actual() + actual)
                  && (finalize ==> r'.status == Settled && r'.reserved == 0)
                  && (!finalize ==> r'.status == Reserved && r'.reserved + actual == r.reserved))
  {
    RefusalReasons(ops, m, actual, maximum, origin, finalize);
  }

  /** Releasing closes exactly the open reservation of the origin, keeps its amounts on record, and is never refused. */
  lemma ReleaseExactly(ops: seq<Op>, m: MandateId, origin: Origin, d: Date)
    ensures var t, (t', outcome) := After(ops), Apply(After(ops), Release(m, origin));
            var open := m in t.reservations && t.reservations[m].status == Reserved && t.reservations[m].origin == origin;
            && outcome == Done && (!open ==> t' == t)
            && (open ==>
                  && t'.reservations.Keys == t.reservations.Keys
                  && (forall o | o in t.reservations && o != m :: t'.reservations[o] == t.reservations[o])
                  && var r, r' := t.reservations[m], t'.reservations[m];
                  && r'.status == Released && r'.date == r.date && r'.origin == r.origin
                  && r'.reserved == r.reserved && r'.actual == r.actual
                  && HeldOn(t', d) == HeldOn(t, d) - if d == r.date then r.reserved else 0)
  {
    RefusalReasons(ops, m, 0, 0, origin, true);
    if m in After(ops).reservations {
      RowSums(After(ops), m, After(ops).reservations[m].(status := Released), d);
    }
  }

  /** The k-th operation reserved for the mandate, within its ceiling and within what its day had left. */
  ghost predicate GrantedBy(ops: seq<Op>, k: nat, m: MandateId, r: Reservation) {
    && k < |ops| && ops[k].Reserve? && ops[k].mandate == m && m !in After(ops[..k]).reservations
    && ops[k].today == r.date && ops[k].origin == r.origin && 0 < ops[k].amount <= ops[k].maximum
    && HeldOn(After(ops[..k]), r.date) + ops[k].amount <= ops[k].cap
    && r.reserved + r.Actual() <= ops[k].amount
  }

  lemma StepKeepsGrants(t: Tables, op: Op, m: MandateId)
    requires m in t.reservations && t.reservations[m].reserved >= 0
    ensures m in Apply(t, op).0.reservations
    ensures var r, r' := t.reservations[m], Apply(t, op).0.reservations[m];
            r'.date == r.date && r'.origin == r.origin && r'.reserved + r'.Actual() <= r.reserved + r.Actual()
  {
  }

  /** Every reservation goes back to one granting operation, whose day, origin and amount it keeps to. */
  lemma {:induction false} EveryReservationWasGranted(ops: seq<Op>, m: MandateId) returns (k: nat)
    requires m in After(ops).reservations
    ensures GrantedBy(ops, k, m, After(ops).reservations[m])
  {
    var before, op := ops[..|ops| - 1], ops[|ops| - 1];
    if m in After(before).reservations {
      k := EveryReservationWasGranted(before, m);
      GrantsAreAccounted(before);
      StepKeepsGrants(After(before), op, m);
      assert before[..k] == ops[..k] && before[k] == ops[k];
    } else {
      k := |ops| - 1;
      NewReservationIsGranted(before, op, m);
    }
  }

  lemma NewReservationIsGranted(ops: seq<Op>, op: Op, m: MandateId)
    requires m !in After(ops).reservations && m in Apply(After(ops), op).0.reservations
    ensures op.Reserve? && op.mandate == m && 0 < op.amount <= op.maximum && HeldOn(After(ops), op.today) + op.amount <= op.cap
    ensures Apply(After(ops), op).0.reservations[m] == Reservation(op.today, op.amount, None, Reserved, op.origin)
  {
    if op.Reserve? {
      ReservationGrantedExactly(ops, op.mandate, op.amount, op.maximum, op.origin, op.today, op.cap);
    }
  }

  ghost predicate CapsOn(ops: seq<Op>, d: Date, cap: int) {
    forall op | op in ops && op.Reserve? && op.today == d :: op.cap <= cap
  }

  lemma {:induction false} RowsAreNonNegative(ops: seq<Op>, d: Date)
    requires d in After(ops).rows
    ensures 0 <= After(ops).rows[d].reserved && 0 <= After(ops).rows[d].spent
  {
    LedgerIsBalanced(ops);
    GrantsAreAccounted(ops);
    SumNonNegative(After(ops).reservations, ReservedOn(d));
    SumNonNegative(After(ops).reservations, SpentOn(d));
  }

  /** Settling and releasing only ever give money back: the day's total changes by what is freed, never upwards. */
  lemma OnlyReservingRaisesTheTotal(t: Tables, op: Op, d: Date)
    requires d in t.rows && !op.Reserve?
    requires op.mandate in t.reservations ==> t.reservations[op.mandate].reserved >= 0
    ensures d in Apply(t, op).0.rows
    ensures Apply(t, op).0.rows[d].Total() <= t.rows[d].Total()
    ensures op.Settle? && !op.finalize ==> Apply(t, op).0.rows[d].Total() == t.rows[d].Total()
  {
  }

  lemma ReservingRespectsTheCap(t: Tables, op: Op, d: Date, cap: int)
    requires op.Reserve? && (op.today == d ==> op.cap <= cap)
    requires d in t.rows ==> t.rows[d].Total() <= cap
    ensures d in Apply(t, op).0.rows ==> Apply(t, op).0.rows[d].Total() <= cap
  {
  }

  /** No day ever holds more reserved plus spent than the largest cap that was in force for it. */
  lemma {:induction false} DailyCapHolds(ops: seq<Op>, d: Date, cap: int)
    requires CapsOn(ops, d, cap) && d in After(ops).rows
    ensures After(ops).rows[d].Total() <= cap
  {
    var before, op := ops[..|ops| - 1], ops[|ops| - 1];
    assert op in ops && CapsOn(before, d, cap);
    if d in After(before).rows {
      DailyCapHolds(before, d, cap);
    }
    if op.Reserve? {
      ReservingRespectsTheCap(After(before), op, d, cap);
    } else {
      GrantsAreAccounted(before);
      OnlyReservingRaisesTheTotal(After(before), op, d);
    }
  }

  ghost predicate Closed(t: Tables, m: MandateId) {
    m in t.reservations && t.reservations[m].status != Reserved
  }

  /** A settled or released reservation is never touched again. */
  lemma {:induction false} ClosedForever(ops: seq<Op>, later: seq<Op>, m: MandateId)
    requires Closed(After(ops), m)
    ensures Closed(After(ops + later), m) && After(ops + later).reservations[m] == After(ops).reservations[m]
  {
    if later == [] {
      assert ops + later == ops;
    } else {
      var n := |later| - 1;
      assert (ops + later)[..|ops + later| - 1] == ops + later[..n];
      ClosedForever(ops, later[..n], m);
    }
  }

  // ---------------------------------------------------------------------------------------------------
  // Reconciliation: which reservations count as economically closed
  // ---------------------------------------------------------------------------------------------------

  predicate ReservationTerminalForReconciliation(t: Tables, mandate: Option<MandateId>, settled: bool, amount: int) {
    && mandate.Some?
    && mandate.value in t.reservations
    && var r := t.reservations[mandate.value];
    && r.reserved == 0
    && if settled then r.status == Settled && r.Actual() == amount
       else (r.status == Settled || r.status == Released) && r.Actual() == 0
  }

  datatype Settlement = SettledTrue | SettledFalse | SettledOther

  /** The metadata of a reconciliation event; None stands for an amount that is missing or unreadable. */
  datatype ReconciliationEvent = ReconciliationEvent(
    reconciled: bool, mandate: Option<MandateId>, settled: Settlement, settledUsdc: Option<int>, actualCost: Option<int>,
    paymentConfirmed: bool, hasTransactionHash: bool)

  predicate EconomicallyReconciledTerminal(t: Tables, e: ReconciliationEvent) {
    && e.reconciled
    && e.settledUsdc.Some? && e.actualCost.Some?
    && match e.settled
       case SettledFalse =>
         && e.settledUsdc.value == 0 && e.actualCost.value == 0
         && ReservationTerminalForReconciliation(t, e.mandate, false, 0)
       case SettledTrue =>
         && e.paymentConfirmed && e.hasTransactionHash
         && e.settledUsdc.value > 0 && e.actualCost.value == e.settledUsdc.value
         && ReservationTerminalForReconciliation(t, e.mandate, true, e.settledUsdc.value)
       case SettledOther => false
  }

  /**
   Over reachable tables the no-payment test picks out exactly the reservations settled for nothing, and the
   settled test exactly those settled for the amount: a released reservation never passes either, because
   releasing keeps the unspent amount on the reservation.
   */
  lemma ReconciliationTestsAreExact(ops: seq<Op>, m: MandateId, amount: int)
    requires m in After(ops).reservations
    ensures var r := After(ops).reservations[m];
            && (ReservationTerminalForReconciliation(After(ops), Some(m), false, amount)
                <==> r.status == Settled && r.Actual() == 0)
            && (ReservationTerminalForReconciliation(After(ops), Some(m), true, amount)
                <==> r.status == Settled && r.Actual() == amount)
  {
    GrantsAreAccounted(ops);
  }

  /** An event closes a mandate exactly if it is conclusive and its reservation was settled for the very amount it names. */
  lemma TerminalExactly(ops: seq<Op>, e: ReconciliationEvent)
    ensures EconomicallyReconciledTerminal(After(ops), e) <==>
              && e.reconciled && e.mandate.Some? && e.mandate.value in After(ops).reservations
              && e.settledUsdc.Some? && e.settledUsdc == e.actualCost && !e.settled.SettledOther?
              && (e.settled.SettledTrue? ==> e.settledUsdc.value > 0 && e.paymentConfirmed && e.hasTransactionHash)
              && (e.settled.SettledFalse? ==> e.settledUsdc.value == 0)
              && After(ops).reservations[e.mandate.value].status == Settled
              && After(ops).reservations[e.mandate.value].Actual() == e.settledUsdc.value
  {
    if e.mandate.Some? && e.mandate.value in After(ops).reservations && e.settledUsdc.Some? {
      ReconciliationTestsAreExact(ops, e.mandate.value, e.settledUsdc.value);
    }
  }

  /** What a terminal reconciliation says about money is final, whatever happens afterwards. */
  lemma ReconciledStaysReconciled(ops: seq<Op>, later: seq<Op>, e: ReconciliationEvent)
    requires EconomicallyReconciledTerminal(After(ops), e)
    ensures EconomicallyReconciledTerminal(After(ops + later), e)
    ensures e.mandate.value in Granted(ops)
    ensures After(ops + later).reservations[e.mandate.value].Actual() == e.settledUsdc.value <= Granted(ops)[e.mandate.value]
  {
    var m := e.mandate.value;
    ReconciliationTestsAreExact(ops, m, e.settledUsdc.value);
    ClosedForever(ops, later, m);
    GrantsAreAccounted(ops);
  }

  /** A reservation settled piecewise down to nothing without a final settlement can no longer be settled, only released. */
  lemma ExhaustedReservationCannotBeSettled(t: Tables, m: MandateId, actual: int, maximum: int, origin: Origin, finalize: bool)
    requires m in t.reservations && t.reservations[m].reserved == 0
    ensures SettleTables(t, m, actual, maximum, origin, finalize) == (t, Refused(AuthorizationInvalid))
  {
  }
}
