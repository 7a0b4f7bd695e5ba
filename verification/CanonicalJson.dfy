/**
 Canonical JSON bytes of arbitrary bodies (backend/app/epistemic/contracts.py, canonical_json), the printer every
 content hash rests on, and the freezing of a body by writing and reading it (backend/app/epistemic/trajectory.py).

 A body is a tree of Python values. Mappings list their entries in insertion order; a timestamp is its UTC text, or
 nothing if it carries no time zone.
 */
module CanonicalJson {
  import opened Wrappers
  import opened Ordering
  import opened Numerals
  import opened JsonText
  import CanonicalDecimals

  datatype Key = TextKey(text: Text) | OtherKey

  datatype Entry = Entry(key: Key, value: Value)

  datatype Value =
    | Nothing
    | Truth(truth: bool)
    | Integer(number: int)
    | String(text: Text)
    | Exact(decimal: CanonicalDecimals.Decimal)
    | Float
    | Timestamp(utc: Option<Text>)
    | Mapping(entries: seq<Entry>)
    | Sequence(items: seq<Value>)
    | Unsupported

  datatype Error =
    | InvalidDecimal
    | FloatValue
    | NaiveTimestamp
    | KeyIsNotText
    | UnsupportedType
    | UnencodableText

  // ---------------------------------------------------------------------------------------------------
  // Keys are ordered by code points
  // ---------------------------------------------------------------------------------------------------

  predicate TextLe(a: Text, b: Text) {
    a == [] || (b != [] && (a[0] < b[0] || (a[0] == b[0] && TextLe(a[1..], b[1..]))))
  }

  lemma {:induction false} TextLeTotal(a: Text, b: Text)
    ensures TextLe(a, b) || TextLe(b, a)
    ensures TextLe(a, b) && TextLe(b, a) ==> a == b
  {
    if a != [] && b != [] {
      TextLeTotal(a[1..], b[1..]);
      assert a == [a[0]] + a[1..] && b == [b[0]] + b[1..];
    }
  }

  lemma {:induction false} TextLeTransitive(a: Text, b: Text, c: Text)
    requires TextLe(a, b) && TextLe(b, c)
    ensures TextLe(a, c)
  {
    if a != [] && a[0] == b[0] && b[0] == c[0] {
      TextLeTransitive(a[1..], b[1..], c[1..]);
    }
  }

  /** The order is that of dictionaries: a prefix comes first, and else the first difference decides. */
  lemma {:induction false} TextLeIsLexicographic(a: Text, b: Text)
    ensures TextLe(a, b) <==> a <= b || exists i :: FirstDifference(a, b, i) && a[i] < b[i]
  {
    if a != [] && b != [] && a[0] == b[0] {
      TextLeIsLexicographic(a[1..], b[1..]);
      if i :| FirstDifference(a, b, i) && a[i] < b[i] {
        assert a[1..][..i - 1] == a[1..i] && b[1..][..i - 1] == b[1..i];
        assert FirstDifference(a[1..], b[1..], i - 1);
      }
      if i :| FirstDifference(a[1..], b[1..], i) && a[1..][i] < b[1..][i] {
        assert a[..i + 1] == [a[0]] + a[1..][..i] && b[..i + 1] == [b[0]] + b[1..][..i];
        assert FirstDifference(a, b, i + 1);
      }
      assert a == [a[0]] + a[1..] && b == [b[0]] + b[1..];
    } else if a != [] && b != [] && a[0] < b[0] {
      assert FirstDifference(a, b, 0);
    }
  }

  ghost predicate FirstDifference(a: Text, b: Text, i: int) {
    0 <= i < |a| && i < |b| && a[..i] == b[..i] && a[i] != b[i]
  }

  // ---------------------------------------------------------------------------------------------------
  // The canonical value
  // ---------------------------------------------------------------------------------------------------

  /** A mapping entry with its own canonical value or the error it raises. */
  datatype Slot = Slot(key: Text, value: Result<Json, Error>)

  predicate ByKey(a: Slot, b: Slot) {
    TextLe(a.key, b.key)
  }

  lemma {:induction false} ByKeyIsTotal()
    ensures Total(ByKey)
  {
    forall x, y ensures ByKey(x, y) || ByKey(y, x) {
      TextLeTotal(x.key, y.key);
    }
    forall x, y, z | ByKey(x, y) && ByKey(y, z) ensures ByKey(x, z) {
      TextLeTransitive(x.key, y.key, z.key);
    }
  }

  predicate HasOtherKey(entries: seq<Entry>) {
    exists i | 0 <= i < |entries| :: entries[i].key.OtherKey?
  }

  function Canonical(v: Value): Result<Json, Error>
    decreases v, 1
  {
    match v
    case Nothing => Ok(Null)
    case Truth(b) => Ok(Bool(b))
    case Integer(n) => Ok(Int(n))
    case String(t) => Ok(Str(t))
    case Exact(d) =>
      (match CanonicalDecimals.CanonicalDecimal(d)
       case Ok(t) => Ok(Str(t))
       case Err(_) => Err(InvalidDecimal))
    case Float => Err(FloatValue)
    case Timestamp(utc) => if utc.Some? then Ok(Str(utc.value)) else Err(NaiveTimestamp)
    case Mapping(entries) =>
      if HasOtherKey(entries) then Err(KeyIsNotText)
      else
        (match Members(SortBy(Slots(entries), ByKey))
         case Ok(members) => Ok(Obj(members))
         case Err(e) => Err(e))
    case Sequence(items) =>
      (match Items(items)
       case Ok(js) => Ok(Arr(js))
       case Err(e) => Err(e))
    case Unsupported => Err(UnsupportedType)
  }

  function Slots(entries: seq<Entry>): (slots: seq<Slot>)
    requires !HasOtherKey(entries)
    ensures |slots| == |entries|
    ensures forall i | 0 <= i < |entries| :: slots[i] == SlotOf(entries[i])
    decreases entries, 0
  {
    if entries == [] then []
    else
      assert entries[0].key.TextKey?;
      assert forall i | 0 <= i < |entries[1..]| :: entries[1..][i] == entries[i + 1];
      [SlotOf(entries[0])] + Slots(entries[1..])
  }

  function SlotOf(e: Entry): Slot
    requires e.key.TextKey?
    decreases e, 0
  {
    Slot(e.key.text, Canonical(e.value))
  }

  /** The members of the sorted entries, or the first error among them. */
  function Members(slots: seq<Slot>): (r: Result<seq<Member>, Error>)
    ensures r.Ok? ==> |r.value| == |slots|
    ensures r.Ok? ==> forall i | 0 <= i < |slots| ::
              r.value[i].key == slots[i].key && slots[i].value == Ok(r.value[i].value)
  {
    if slots == [] then Ok([])
    else
      match slots[0].value
      case Err(e) => Err(e)
      case Ok(j) =>
        match Members(slots[1..])
        case Err(e) => Err(e)
        case Ok(rest) => Ok([Member(slots[0].key, j)] + rest)
  }

  function Items(items: seq<Value>): (r: Result<seq<Json>, Error>)
    ensures r.Ok? ==> |r.value| == |items|
    ensures r.Ok? ==> forall i | 0 <= i < |items| :: Canonical(items[i]) == Ok(r.value[i])
    decreases items, 0
  {
    if items == [] then Ok([])
    else
      match Canonical(items[0])
      case Err(e) => Err(e)
      case Ok(j) =>
        match Items(items[1..])
        case Err(e) => Err(e)
        case Ok(rest) => Ok([j] + rest)
  }

  /** The canonical bytes of a body. */
  function CanonicalBytes(v: Value): Result<Bytes, Error> {
    match Canonical(v)
    case Err(e) => Err(e)
    case Ok(j) =>
      match Encode(Print(j))
      case None => Err(UnencodableText)
      case Some(b) => Ok(b)
  }

  /** Equal bytes mean equal canonical values, and the reverse. */
  lemma {:induction false} BytesDetermineTheCanonicalValue(a: Value, b: Value)
    requires CanonicalBytes(a).Ok? && CanonicalBytes(b).Ok?
    ensures CanonicalBytes(a) == CanonicalBytes(b) <==> Canonical(a) == Canonical(b)
  {
    var ja, jb := Canonical(a).value, Canonical(b).value;
    DecodeInvertsEncode(Print(ja));
    DecodeInvertsEncode(Print(jb));
    PrintIsInjective(ja, jb);
  }

  /** What has no canonical form, somewhere in the body. */
  ghost predicate HasFault(v: Value)
    decreases v
  {
    match v
    case Exact(d) => d.NonFinite?
    case Timestamp(utc) => utc.None?
    case Float => true
    case Unsupported => true
    case Mapping(entries) => exists i | 0 <= i < |entries| :: !entries[i].key.TextKey? || HasFault(entries[i].value)
    case Sequence(items) => exists i | 0 <= i < |items| :: HasFault(items[i])
    case _ => false
  }

  lemma {:induction false} MembersFail(slots: seq<Slot>)
    ensures Members(slots).Err? <==> exists i | 0 <= i < |slots| :: slots[i].value.Err?
  {
    if slots != [] {
      MembersFail(slots[1..]);
      if i :| 0 <= i < |slots| && slots[i].value.Err? {
        assert i > 0 ==> slots[1..][i - 1] == slots[i];
      }
    }
  }

  lemma {:induction false} ItemsFail(items: seq<Value>)
    ensures Items(items).Err? <==> exists i | 0 <= i < |items| :: Canonical(items[i]).Err?
  {
    if items != [] {
      ItemsFail(items[1..]);
      if i :| 0 <= i < |items| && Canonical(items[i]).Err? {
        assert i > 0 ==> items[1..][i - 1] == items[i];
      }
    }
  }

  lemma {:induction false} MappingFails(entries: seq<Entry>)
    requires !HasOtherKey(entries)
    ensures Canonical(Mapping(entries)).Err? <==> exists i | 0 <= i < |entries| :: Canonical(entries[i].value).Err?
  {
    var slots, sorted := Slots(entries), SortBy(Slots(entries), ByKey);
    MembersFail(sorted);
    MultisetMembers(slots, sorted);
    if i :| 0 <= i < |sorted| && sorted[i].value.Err? {
      assert sorted[i] in sorted;
      var j := SlotListed(entries, sorted[i]);
    }
    if i :| 0 <= i < |entries| && Canonical(entries[i].value).Err? {
      assert !entries[i].key.OtherKey?;
      assert slots[i] == SlotOf(entries[i]) && slots[i] in sorted;
      var j :| 0 <= j < |sorted| && sorted[j] == slots[i];
    }
  }

  /** Canonicalisation fails exactly on bodies that hold a fault at some level. */
  lemma {:induction false} FailsExactlyOnFaults(v: Value)
    ensures Canonical(v).Err? <==> HasFault(v)
    decreases v
  {
    if v.Mapping? {
      forall i | 0 <= i < |v.entries| ensures Canonical(v.entries[i].value).Err? <==> HasFault(v.entries[i].value) {
        FailsExactlyOnFaults(v.entries[i].value);
      }
      if HasOtherKey(v.entries) {
        var i :| 0 <= i < |v.entries| && v.entries[i].key.OtherKey?;
        assert !v.entries[i].key.TextKey?;
      } else {
        assert forall i | 0 <= i < |v.entries| :: v.entries[i].key.TextKey? by {
          assert forall i | 0 <= i < |v.entries| :: !v.entries[i].key.OtherKey?;
        }
        MappingFails(v.entries);
      }
    } else if v.Sequence? {
      forall i | 0 <= i < |v.items| ensures Canonical(v.items[i]).Err? <==> HasFault(v.items[i]) {
        FailsExactlyOnFaults(v.items[i]);
      }
      ItemsFail(v.items);
    }
  }

  // ---------------------------------------------------------------------------------------------------
  // Insertion order never matters
  // ---------------------------------------------------------------------------------------------------

  ghost predicate DistinctKeys(entries: seq<Entry>) {
    forall i, k | 0 <= i < k < |entries| && entries[i].key.TextKey? :: entries[i].key != entries[k].key
  }

  /** No mapping repeats a key, at any level: what every Python mapping satisfies. */
  ghost predicate WellFormed(v: Value)
    decreases v
  {
    match v
    case Mapping(entries) =>
      && DistinctKeys(entries)
      && (forall i | 0 <= i < |entries| :: WellFormed(entries[i].value))
    case Sequence(items) => forall i | 0 <= i < |items| :: WellFormed(items[i])
    case _ => true
  }

  /** Equal up to the order in which mappings list their entries, at any level. */
  ghost predicate Equivalent(a: Value, b: Value)
    decreases a, 1
  {
    match (a, b)
    case (Mapping(ea), Mapping(eb)) =>
      exists ec | multiset(ec) == multiset(eb) :: EquivalentEntries(ea, ec)
    case (Sequence(xs), Sequence(ys)) =>
      |xs| == |ys| && forall i | 0 <= i < |xs| :: Equivalent(xs[i], ys[i])
    case _ => a == b
  }

  ghost predicate EquivalentEntries(ea: seq<Entry>, eb: seq<Entry>)
    decreases ea, 0
  {
    |ea| == |eb| && forall i | 0 <= i < |ea| :: EquivalentEntry(ea[i], eb[i])
  }

  ghost predicate EquivalentEntry(e: Entry, f: Entry)
    decreases e, 0
  {
    e.key == f.key && Equivalent(e.value, f.value)
  }

  lemma {:induction false} SlotsAreDistinct(entries: seq<Entry>)
    requires !HasOtherKey(entries) && DistinctKeys(entries)
    ensures Distinct(Slots(entries)) && Separates(Slots(entries), ByKey)
  {
    var slots := Slots(entries);
    forall i, k | 0 <= i < k < |slots| ensures slots[i].key != slots[k].key {
      assert !entries[i].key.OtherKey? && !entries[k].key.OtherKey?;
    }
    forall x, y | x in slots && y in slots && ByKey(x, y) && ByKey(y, x) ensures x == y {
      TextLeTotal(x.key, y.key);
    }
  }

  lemma {:induction false} SlotsConcat(a: seq<Entry>, b: seq<Entry>)
    requires !HasOtherKey(a) && !HasOtherKey(b)
    ensures !HasOtherKey(a + b) && Slots(a + b) == Slots(a) + Slots(b)
  {
  }

  lemma {:induction false} NoOtherKey(entries: seq<Entry>)
    ensures !HasOtherKey(entries) <==> forall e | e in entries :: e.key.TextKey?
  {
    if e :| e in entries && !e.key.TextKey? {
      var i :| 0 <= i < |entries| && entries[i] == e;
      assert entries[i].key.OtherKey?;
    }
  }

  lemma {:induction false} SlotsAround(front: seq<Entry>, e: Entry, back: seq<Entry>)
    requires !HasOtherKey(front) && e.key.TextKey? && !HasOtherKey(back)
    ensures !HasOtherKey(front + [e] + back) && !HasOtherKey(front + back)
    ensures multiset(Slots(front + [e] + back)) == multiset(Slots(front + back)) + multiset{SlotOf(e)}
  {
    NoOtherKey([e]);
    SlotsConcat(front, [e]);
    SlotsConcat(front + [e], back);
    SlotsConcat(front, back);
  }

  lemma {:induction false} SlotsFirst(entries: seq<Entry>)
    requires entries != [] && !HasOtherKey(entries)
    ensures entries[0].key.TextKey? && !HasOtherKey(entries[1..])
    ensures multiset(Slots(entries)) == multiset(Slots(entries[1..])) + multiset{SlotOf(entries[0])}
  {
    assert entries[0].key.TextKey?;
    NoOtherKey(entries);
    NoOtherKey(entries[1..]);
  }

  /** Permuting the entries permutes their slots. */
  lemma {:induction false} SlotsPermute(a: seq<Entry>, b: seq<Entry>)
    requires multiset(a) == multiset(b) && !HasOtherKey(a) && !HasOtherKey(b)
    ensures multiset(Slots(a)) == multiset(Slots(b))
    decreases |b|
  {
    MultisetMembers(a, b);
    if b != [] {
      assert b[0] in a;
      var i :| 0 <= i < |a| && a[i] == b[0];
      var front, back := a[..i], a[i + 1..];
      assert a == front + [b[0]] + back && b == [b[0]] + b[1..];
      RemoveOne(front, b[0], back, b[1..]);
      SlotsFirst(b);
      NoOtherKey(a);
      NoOtherKey(front);
      NoOtherKey(back);
      SlotsAround(front, b[0], back);
      SlotsPermute(front + back, b[1..]);
    }
  }

  lemma {:induction false} EqualSlots(ea: seq<Entry>, ec: seq<Entry>)
    requires |ea| == |ec| && !HasOtherKey(ea) && !HasOtherKey(ec)
    requires forall i | 0 <= i < |ea| :: ea[i].key == ec[i].key && Canonical(ea[i].value) == Canonical(ec[i].value)
    ensures Slots(ea) == Slots(ec)
  {
    assert forall i | 0 <= i < |ea| :: SlotOf(ea[i]) == SlotOf(ec[i]);
  }

  lemma {:induction false} PermutedSlots(ea: seq<Entry>, eb: seq<Entry>)
    requires !HasOtherKey(ea) && !HasOtherKey(eb) && DistinctKeys(ea) && multiset(Slots(ea)) == multiset(Slots(eb))
    ensures SortBy(Slots(ea), ByKey) == SortBy(Slots(eb), ByKey)
  {
    SlotsAreDistinct(ea);
    ByKeyIsTotal();
    SortForgetsInputOrder(Slots(ea), Slots(eb), ByKey);
  }

  /** Mappings with equal slots in some order have the same canonical value. */
  lemma {:induction false} PermutedMapping(ea: seq<Entry>, ec: seq<Entry>, eb: seq<Entry>)
    requires multiset(ec) == multiset(eb) && DistinctKeys(ea) && |ea| == |ec|
    requires forall i | 0 <= i < |ea| :: ea[i].key == ec[i].key && Canonical(ea[i].value) == Canonical(ec[i].value)
    ensures Canonical(Mapping(ea)) == Canonical(Mapping(eb))
  {
    SameOtherKeys(ea, ec);
    NoOtherKey(ec);
    NoOtherKey(eb);
    MultisetMembers(ec, eb);
    if !HasOtherKey(ea) {
      EqualSlots(ea, ec);
      SlotsPermute(ec, eb);
      PermutedSlots(ea, eb);
    }
  }

  lemma {:induction false} SameOtherKeys(ea: seq<Entry>, ec: seq<Entry>)
    requires |ea| == |ec| && forall i | 0 <= i < |ea| :: ea[i].key == ec[i].key
    ensures HasOtherKey(ea) <==> HasOtherKey(ec)
  {
    if i :| 0 <= i < |ea| && ea[i].key.OtherKey? {
      assert ec[i].key.OtherKey?;
    }
    if i :| 0 <= i < |ec| && ec[i].key.OtherKey? {
      assert ea[i].key.OtherKey?;
    }
  }

  lemma {:induction false} SameItems(xs: seq<Value>, ys: seq<Value>)
    requires |xs| == |ys| && forall i | 0 <= i < |xs| :: Canonical(xs[i]) == Canonical(ys[i])
    ensures Items(xs) == Items(ys)
  {
    if xs != [] {
      forall i | 0 <= i < |xs[1..]| ensures Canonical(xs[1..][i]) == Canonical(ys[1..][i]) {
        assert xs[1..][i] == xs[i + 1] && ys[1..][i] == ys[i + 1];
      }
      SameItems(xs[1..], ys[1..]);
    }
  }

  lemma {:induction false} EquivalentMappings(ea: seq<Entry>, eb: seq<Entry>) returns (ec: seq<Entry>)
    requires WellFormed(Mapping(ea)) && WellFormed(Mapping(eb)) && Equivalent(Mapping(ea), Mapping(eb))
    ensures multiset(ec) == multiset(eb) && |ec| == |ea| && DistinctKeys(ea)
    ensures forall i | 0 <= i < |ea| ::
              && ea[i].key == ec[i].key && Equivalent(ea[i].value, ec[i].value)
              && WellFormed(ea[i].value) && WellFormed(ec[i].value)
  {
    ec :| multiset(ec) == multiset(eb) && EquivalentEntries(ea, ec);
    MultisetMembers(ec, eb);
    forall i | 0 <= i < |ea|
      ensures ea[i].key == ec[i].key && Equivalent(ea[i].value, ec[i].value) && WellFormed(ec[i].value)
    {
      assert EquivalentEntry(ea[i], ec[i]);
      assert ec[i] in ec;
    }
  }

  /** Bodies that differ only in insertion order, at any depth, have the same canonical value or the same error. */
  lemma {:induction false} OrderIsIrrelevant(a: Value, b: Value)
    requires WellFormed(a) && WellFormed(b) && Equivalent(a, b)
    ensures Canonical(a) == Canonical(b)
    decreases a
  {
    if a.Mapping? && b.Mapping? {
      var ea := a.entries;
      var ec := EquivalentMappings(ea, b.entries);
      forall i | 0 <= i < |ea| ensures Canonical(ea[i].value) == Canonical(ec[i].value) {
        OrderIsIrrelevant(ea[i].value, ec[i].value);
      }
      PermutedMapping(ea, ec, b.entries);
    } else if a.Sequence? && b.Sequence? {
      forall i | 0 <= i < |a.items| ensures Canonical(a.items[i]) == Canonical(b.items[i]) {
        OrderIsIrrelevant(a.items[i], b.items[i]);
      }
      SameItems(a.items, b.items);
    }
  }

  /** Their canonical bytes are the same. */
  lemma {:induction false} EquivalentBodiesHaveTheSameBytes(a: Value, b: Value)
    requires WellFormed(a) && WellFormed(b) && Equivalent(a, b)
    ensures CanonicalBytes(a) == CanonicalBytes(b)
  {
    OrderIsIrrelevant(a, b);
  }

  // ---------------------------------------------------------------------------------------------------
  // And nothing else is forgotten
  // ---------------------------------------------------------------------------------------------------

  /** The body with its decimals and timestamps replaced by the texts that stand for them. */
  function Plain(v: Value): Value
    decreases v, 1
  {
    match v
    case Exact(d) =>
      (match CanonicalDecimals.CanonicalDecimal(d)
       case Ok(t) => String(t)
       case Err(_) => v)
    case Timestamp(utc) => if utc.Some? then String(utc.value) else v
    case Mapping(entries) => Mapping(PlainEntries(entries))
    case Sequence(items) => Sequence(PlainItems(items))
    case _ => v
  }

  function PlainEntries(entries: seq<Entry>): (r: seq<Entry>)
    ensures |r| == |entries| && forall i | 0 <= i < |entries| :: r[i] == PlainEntry(entries[i])
    decreases entries, 0
  {
    if entries == [] then [] else [PlainEntry(entries[0])] + PlainEntries(entries[1..])
  }

  function PlainEntry(e: Entry): Entry
    decreases e, 0
  {
    Entry(e.key, Plain(e.value))
  }

  function PlainItems(items: seq<Value>): (r: seq<Value>)
    ensures |r| == |items| && forall i | 0 <= i < |items| :: r[i] == Plain(items[i])
    decreases items, 0
  {
    if items == [] then [] else [Plain(items[0])] + PlainItems(items[1..])
  }

  /** No decimal and no timestamp that has a text is left, at any level. */
  ghost predicate IsPlain(v: Value)
    decreases v
  {
    match v
    case Exact(d) => d.NonFinite?
    case Timestamp(utc) => utc.None?
    case Mapping(entries) => forall i | 0 <= i < |entries| :: IsPlain(entries[i].value)
    case Sequence(items) => forall i | 0 <= i < |items| :: IsPlain(items[i])
    case _ => true
  }

  lemma {:induction false} PlainIsPlain(v: Value)
    ensures IsPlain(Plain(v))
    ensures WellFormed(v) ==> WellFormed(Plain(v))
    decreases v
  {
    if v.Mapping? {
      forall i | 0 <= i < |v.entries|
        ensures IsPlain(Plain(v.entries[i].value))
        ensures WellFormed(v.entries[i].value) ==> WellFormed(Plain(v.entries[i].value))
      {
        PlainIsPlain(v.entries[i].value);
      }
    } else if v.Sequence? {
      forall i | 0 <= i < |v.items|
        ensures IsPlain(Plain(v.items[i]))
        ensures WellFormed(v.items[i]) ==> WellFormed(Plain(v.items[i]))
      {
        PlainIsPlain(v.items[i]);
      }
    }
  }

  lemma {:induction false} PlainKeepsCanonical(v: Value)
    ensures Canonical(Plain(v)) == Canonical(v)
    decreases v
  {
    if v.Mapping? {
      forall i | 0 <= i < |v.entries| ensures Canonical(Plain(v.entries[i].value)) == Canonical(v.entries[i].value) {
        PlainKeepsCanonical(v.entries[i].value);
      }
      SameOtherKeys(PlainEntries(v.entries), v.entries);
      if !HasOtherKey(v.entries) {
        EqualSlots(PlainEntries(v.entries), v.entries);
      }
    } else if v.Sequence? {
      forall i | 0 <= i < |v.items| ensures Canonical(Plain(v.items[i])) == Canonical(v.items[i]) {
        PlainKeepsCanonical(v.items[i]);
      }
      SameItems(PlainItems(v.items), v.items);
    }
  }

  /** Members tell the slots they were made of. */
  lemma {:induction false} MembersTellSlots(s: seq<Slot>, t: seq<Slot>)
    requires Members(s).Ok? && Members(s) == Members(t)
    ensures s == t
  {
    forall i | 0 <= i < |s| ensures s[i] == t[i] {
      assert s[i].value == Ok(Members(s).value[i].value);
    }
  }

  lemma {:induction false} SlotListed(entries: seq<Entry>, slot: Slot) returns (i: nat)
    requires !HasOtherKey(entries) && slot in Slots(entries)
    ensures i < |entries| && entries[i].key.TextKey? && SlotOf(entries[i]) == slot
  {
    i :| 0 <= i < |entries| && Slots(entries)[i] == slot;
    assert !entries[i].key.OtherKey?;
  }

  /** The entry that has the slot, and what lies around it. */
  lemma {:induction false} FindSlot(entries: seq<Entry>, slot: Slot) returns (front: seq<Entry>, e: Entry, back: seq<Entry>)
    requires !HasOtherKey(entries) && slot in Slots(entries)
    ensures entries == front + [e] + back && e.key.TextKey? && SlotOf(e) == slot
    ensures !HasOtherKey(front) && !HasOtherKey(back)
  {
    var i := SlotListed(entries, slot);
    front, e, back := entries[..i], entries[i], entries[i + 1..];
    NoOtherKey(entries);
    NoOtherKey(front);
    NoOtherKey(back);
  }

  /** The entry with the slot of the first one of the others. */
  lemma {:induction false} PickFirst(ea: seq<Entry>, eb: seq<Entry>) returns (front: seq<Entry>, e: Entry, back: seq<Entry>)
    requires ea != [] && !HasOtherKey(ea) && !HasOtherKey(eb) && multiset(Slots(ea)) == multiset(Slots(eb))
    ensures eb == front + [e] + back && e.key.TextKey? && ea[0].key.TextKey? && SlotOf(e) == SlotOf(ea[0])
    ensures !HasOtherKey(ea[1..]) && !HasOtherKey(front + back)
    ensures multiset(Slots(ea[1..])) == multiset(Slots(front + back))
  {
    SlotsFirst(ea);
    MultisetMembers(Slots(ea), Slots(eb));
    assert Slots(ea)[0] in Slots(ea) && Slots(ea)[0] == SlotOf(ea[0]);
    front, e, back := FindSlot(eb, SlotOf(ea[0]));
    SlotsAround(front, e, back);
    AddedOnce(multiset(Slots(ea[1..])), multiset(Slots(front + back)), SlotOf(e));
  }

  lemma {:induction false} NoSlots(eb: seq<Entry>)
    requires !HasOtherKey(eb) && multiset(Slots(eb)) == multiset{}
    ensures eb == []
  {
    assert |multiset(Slots(eb))| == |Slots(eb)|;
  }

  /** Entries with the same slots can be listed in the order of the others. */
  lemma {:induction false} AlignSlots(ea: seq<Entry>, eb: seq<Entry>) returns (ec: seq<Entry>)
    requires !HasOtherKey(ea) && !HasOtherKey(eb) && multiset(Slots(ea)) == multiset(Slots(eb))
    ensures multiset(ec) == multiset(eb) && !HasOtherKey(ec) && Slots(ec) == Slots(ea)
    decreases |ea|
  {
    if ea == [] {
      NoSlots(eb);
      ec := [];
    } else {
      var front, e, back := PickFirst(ea, eb);
      var rest := AlignSlots(ea[1..], front + back);
      ec := [e] + rest;
      AlignedFirst(ea, e, rest);
      AddedFirst(front, e, back, rest);
    }
  }

  lemma {:induction false} AddedFirst(front: seq<Entry>, e: Entry, back: seq<Entry>, rest: seq<Entry>)
    requires multiset(rest) == multiset(front + back)
    ensures multiset([e] + rest) == multiset(front + [e] + back)
  {
  }

  lemma {:induction false} AlignedFirst(ea: seq<Entry>, e: Entry, rest: seq<Entry>)
    requires ea != [] && !HasOtherKey(ea) && e.key.TextKey? && !HasOtherKey(rest) && ea[0].key.TextKey? && !HasOtherKey(ea[1..])
    requires SlotOf(e) == SlotOf(ea[0]) && Slots(rest) == Slots(ea[1..])
    ensures !HasOtherKey([e] + rest) && Slots([e] + rest) == Slots(ea)
  {
    NoOtherKey([e]);
    SlotsConcat([e], rest);
    assert Slots([e]) == [SlotOf(e)];
  }

  lemma {:induction false} SameMappings(ea: seq<Entry>, eb: seq<Entry>) returns (ec: seq<Entry>)
    requires Canonical(Mapping(ea)).Ok? && Canonical(Mapping(ea)) == Canonical(Mapping(eb))
    ensures multiset(ec) == multiset(eb) && |ec| == |ea|
    ensures forall i | 0 <= i < |ea| ::
              && ea[i].key == ec[i].key && Canonical(ea[i].value).Ok? && Canonical(ea[i].value) == Canonical(ec[i].value)
  {
    var sa, sb := SortBy(Slots(ea), ByKey), SortBy(Slots(eb), ByKey);
    MembersTellSlots(sa, sb);
    ec := AlignSlots(ea, eb);
    MultisetMembers(Slots(ea), sa);
    forall i | 0 <= i < |ea|
      ensures ea[i].key == ec[i].key && Canonical(ea[i].value).Ok? && Canonical(ea[i].value) == Canonical(ec[i].value)
    {
      assert !ea[i].key.OtherKey? && !ec[i].key.OtherKey?;
      assert Slots(ea)[i] == SlotOf(ea[i]) && Slots(ec)[i] == SlotOf(ec[i]);
      assert Slots(ea)[i] in sa;
    }
  }

  lemma {:induction false} SameSequences(xs: seq<Value>, ys: seq<Value>)
    requires Items(xs).Ok? && Items(xs) == Items(ys)
    ensures |xs| == |ys| && forall i | 0 <= i < |xs| :: Canonical(xs[i]).Ok? && Canonical(xs[i]) == Canonical(ys[i])
  {
  }

  lemma {:induction false} CanonicalTellsPlain(a: Value, b: Value)
    requires IsPlain(a) && IsPlain(b) && Canonical(a).Ok? && Canonical(a) == Canonical(b)
    ensures Equivalent(a, b)
    decreases a
  {
    if a.Mapping? {
      var ea := a.entries;
      assert b.Mapping?;
      var ec := SameMappings(ea, b.entries);
      MultisetMembers(ec, b.entries);
      forall i | 0 <= i < |ea| ensures EquivalentEntry(ea[i], ec[i]) {
        assert ec[i] in ec;
        CanonicalTellsPlain(ea[i].value, ec[i].value);
      }
      assert EquivalentEntries(ea, ec);
    } else if a.Sequence? {
      assert b.Sequence?;
      SameSequences(a.items, b.items);
      forall i | 0 <= i < |a.items| ensures Equivalent(a.items[i], b.items[i]) {
        CanonicalTellsPlain(a.items[i], b.items[i]);
      }
    }
  }

  /**
   Two bodies that have a canonical value have the same one exactly if they are equal up to insertion order, once decimals
   and timestamps are replaced by their texts.
   */
  lemma {:induction false} CanonicalEqualExactly(a: Value, b: Value)
    requires WellFormed(a) && WellFormed(b) && Canonical(a).Ok? && Canonical(b).Ok?
    ensures Canonical(a) == Canonical(b) <==> Equivalent(Plain(a), Plain(b))
  {
    PlainIsPlain(a);
    PlainIsPlain(b);
    PlainKeepsCanonical(a);
    PlainKeepsCanonical(b);
    if Equivalent(Plain(a), Plain(b)) {
      OrderIsIrrelevant(Plain(a), Plain(b));
    } else if Canonical(a) == Canonical(b) {
      CanonicalTellsPlain(Plain(a), Plain(b));
    }
  }

  // ---------------------------------------------------------------------------------------------------
  // Freezing
  // ---------------------------------------------------------------------------------------------------

  /** The Python value a reader of JSON builds. */
  function Thaw(j: Json): Value
    decreases j, 1
  {
    match j
    case Null => Nothing
    case Bool(b) => Truth(b)
    case Int(n) => Integer(n)
    case Str(t) => String(t)
    case Arr(items) => Sequence(ThawItems(items))
    case Obj(members) => Mapping(ThawMembers(members))
  }

  function ThawItems(items: seq<Json>): (r: seq<Value>)
    ensures |r| == |items| && forall i | 0 <= i < |items| :: r[i] == Thaw(items[i])
    decreases items, 0
  {
    if items == [] then [] else [Thaw(items[0])] + ThawItems(items[1..])
  }

  function ThawMembers(members: seq<Member>): (r: seq<Entry>)
    ensures |r| == |members| && forall i | 0 <= i < |members| :: r[i] == Entry(TextKey(members[i].key), Thaw(members[i].value))
    decreases members, 0
  {
    if members == [] then [] else [Entry(TextKey(members[0].key), Thaw(members[0].value))] + ThawMembers(members[1..])
  }

  /** The body read back from its own canonical bytes. */
  function Freeze(v: Value): Option<Value> {
    match CanonicalBytes(v)
    case Err(_) => None
    case Ok(b) =>
      match Decode(b)
      case None => None
      case Some(t) =>
        match Parse(t)
        case None => None
        case Some(j) => Some(Thaw(j))
  }

  ghost predicate RisingKeys(members: seq<Member>) {
    forall i, k | 0 <= i < k < |members| :: TextLe(members[i].key, members[k].key) && members[i].key != members[k].key
  }

  /** Keys strictly increase at every level, so that no reader of the object loses a member. */
  ghost predicate StrictlyOrdered(j: Json)
    decreases j
  {
    match j
    case Arr(items) => forall i | 0 <= i < |items| :: StrictlyOrdered(items[i])
    case Obj(members) => RisingKeys(members) && forall i | 0 <= i < |members| :: StrictlyOrdered(members[i].value)
    case _ => true
  }

  ghost predicate RisingSlots(slots: seq<Slot>) {
    forall i, k | 0 <= i < k < |slots| :: TextLe(slots[i].key, slots[k].key) && slots[i].key != slots[k].key
  }

  lemma {:induction false} DifferentSlotsDifferInKey(entries: seq<Entry>, x: Slot, y: Slot)
    requires !HasOtherKey(entries) && DistinctKeys(entries)
    requires x in Slots(entries) && y in Slots(entries) && x != y
    ensures x.key != y.key
  {
    var i :| 0 <= i < |entries| && Slots(entries)[i] == x;
    var k :| 0 <= k < |entries| && Slots(entries)[k] == y;
    assert entries[i].key.TextKey? && entries[k].key.TextKey?;
  }

  lemma {:induction false} SortedSlotsRise(entries: seq<Entry>)
    requires !HasOtherKey(entries) && DistinctKeys(entries)
    ensures RisingSlots(SortBy(Slots(entries), ByKey))
    ensures forall x :: x in SortBy(Slots(entries), ByKey) <==> x in Slots(entries)
  {
    var slots := SortBy(Slots(entries), ByKey);
    SlotsAreDistinct(entries);
    ByKeyIsTotal();
    SortBySorted(Slots(entries), ByKey);
    MultisetMembers(slots, Slots(entries));
    DistinctPermutation(Slots(entries), slots);
    forall i, k | 0 <= i < k < |slots| ensures TextLe(slots[i].key, slots[k].key) && slots[i].key != slots[k].key {
      assert ByKey(slots[i], slots[k]);
      assert slots[i] in slots && slots[k] in slots && slots[i] != slots[k];
      DifferentSlotsDifferInKey(entries, slots[i], slots[k]);
    }
  }

  lemma {:induction false} RisingMembers(slots: seq<Slot>)
    requires RisingSlots(slots) && Members(slots).Ok?
    ensures RisingKeys(Members(slots).value)
  {
    var members := Members(slots).value;
    forall i, k | 0 <= i < k < |members| ensures TextLe(members[i].key, members[k].key) && members[i].key != members[k].key {
      assert members[i].key == slots[i].key && members[k].key == slots[k].key;
    }
  }

  lemma {:induction false} MemberComesFromEntry(entries: seq<Entry>, slots: seq<Slot>, i: nat) returns (k: nat)
    requires !HasOtherKey(entries) && Members(slots).Ok? && i < |slots| && slots[i] in Slots(entries)
    ensures k < |entries| && Canonical(entries[k].value) == Ok(Members(slots).value[i].value)
  {
    k :| 0 <= k < |entries| && Slots(entries)[k] == slots[i];
    assert SlotOf(entries[k]) == slots[i];
  }

  lemma {:induction false} CanonicalMapping(entries: seq<Entry>) returns (members: seq<Member>)
    requires DistinctKeys(entries) && Canonical(Mapping(entries)).Ok?
    ensures Canonical(Mapping(entries)) == Ok(Obj(members)) && RisingKeys(members)
    ensures forall i | 0 <= i < |members| :: exists k | 0 <= k < |entries| :: Canonical(entries[k].value) == Ok(members[i].value)
  {
    var slots := SortBy(Slots(entries), ByKey);
    members := Members(slots).value;
    SortedSlotsRise(entries);
    RisingMembers(slots);
    forall i | 0 <= i < |members|
      ensures exists k | 0 <= k < |entries| :: Canonical(entries[k].value) == Ok(members[i].value)
    {
      assert slots[i] in slots;
      var k := MemberComesFromEntry(entries, slots, i);
    }
  }

  lemma {:induction false} CanonicalIsOrdered(v: Value)
    requires WellFormed(v) && Canonical(v).Ok?
    ensures StrictlyOrdered(Canonical(v).value)
    decreases v
  {
    match v
    case Mapping(entries) =>
      var members := CanonicalMapping(entries);
      forall i | 0 <= i < |members| ensures StrictlyOrdered(members[i].value) {
        var k :| 0 <= k < |entries| && Canonical(entries[k].value) == Ok(members[i].value);
        CanonicalIsOrdered(entries[k].value);
      }
    case Sequence(items) =>
      forall i | 0 <= i < |items| ensures StrictlyOrdered(Items(items).value[i]) {
        CanonicalIsOrdered(items[i]);
      }
    case _ =>
  }

  lemma {:induction false} MembersOfOk(slots: seq<Slot>, members: seq<Member>)
    requires |slots| == |members|
    requires forall i | 0 <= i < |slots| :: slots[i] == Slot(members[i].key, Ok(members[i].value))
    ensures Members(slots) == Ok(members)
  {
    if slots != [] {
      MembersOfOk(slots[1..], members[1..]);
      assert members == [members[0]] + members[1..];
    }
  }

  lemma {:induction false} ItemsOfOk(items: seq<Value>, js: seq<Json>)
    requires |items| == |js| && forall i | 0 <= i < |items| :: Canonical(items[i]) == Ok(js[i])
    ensures Items(items) == Ok(js)
  {
    if items != [] {
      ItemsOfOk(items[1..], js[1..]);
      assert js == [js[0]] + js[1..];
    }
  }

  lemma {:induction false} ThawIsCanonical(j: Json)
    requires StrictlyOrdered(j)
    ensures Canonical(Thaw(j)) == Ok(j)
    decreases j
  {
    match j
    case Arr(items) =>
      forall i | 0 <= i < |items| ensures Canonical(ThawItems(items)[i]) == Ok(items[i]) {
        ThawIsCanonical(items[i]);
      }
      ItemsOfOk(ThawItems(items), items);
    case Obj(members) =>
      forall i | 0 <= i < |members| ensures Canonical(Thaw(members[i].value)) == Ok(members[i].value) {
        ThawIsCanonical(members[i].value);
      }
      ThawedMembers(members);
    case _ =>
  }

  lemma {:induction false} ThawedMembers(members: seq<Member>)
    requires RisingKeys(members)
    requires forall i | 0 <= i < |members| :: Canonical(Thaw(members[i].value)) == Ok(members[i].value)
    ensures Canonical(Mapping(ThawMembers(members))) == Ok(Obj(members))
  {
    ThawedSlots(members);
    MembersOfOk(Slots(ThawMembers(members)), members);
  }

  lemma {:induction false} ThawedSlots(members: seq<Member>)
    requires RisingKeys(members)
    requires forall i | 0 <= i < |members| :: Canonical(Thaw(members[i].value)) == Ok(members[i].value)
    ensures !HasOtherKey(ThawMembers(members))
    ensures var slots := Slots(ThawMembers(members));
            && SortBy(slots, ByKey) == slots
            && forall i | 0 <= i < |slots| :: slots[i] == Slot(members[i].key, Ok(members[i].value))
  {
    var slots := Slots(ThawMembers(members));
    assert forall i | 0 <= i < |slots| :: slots[i] == Slot(members[i].key, Ok(members[i].value));
    ByKeyIsTotal();
    SortOfSorted(slots, ByKey);
  }

  /** Freezing succeeds on every body that has canonical bytes, and the frozen body has the same bytes. */
  lemma {:induction false} FreezeKeepsTheBytes(v: Value)
    requires WellFormed(v) && CanonicalBytes(v).Ok?
    ensures Freeze(v).Some? && CanonicalBytes(Freeze(v).value) == CanonicalBytes(v)
  {
    var j := Canonical(v).value;
    DecodeInvertsEncode(Print(j));
    ParseInvertsPrint(j);
    CanonicalIsOrdered(v);
    ThawIsCanonical(j);
  }
}
