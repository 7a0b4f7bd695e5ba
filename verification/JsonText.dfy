/**
 The compact JSON text of canonical values (json.dumps with separators "," and ":" and without ASCII escaping, as
 called in backend/app/epistemic/contracts.py), a reader for it, and the UTF-8 encoding of the text.

 Strings are escaped as section 7 of RFC 8259 requires; numbers are integers, since canonical values hold no floats.
 */
module JsonText {
  import opened Wrappers
  import opened Numerals

  datatype Json =
    | Null
    | Bool(truth: bool)
    | Int(number: int)
    | Str(text: Text)
    | Arr(items: seq<Json>)
    | Obj(members: seq<Member>)

  datatype Member = Member(key: Text, value: Json)

  const QUOTE: CodePoint := '"' as int
  const BACKSLASH: CodePoint := '\\' as int
  const SLASH: CodePoint := '/' as int
  const COMMA: CodePoint := ',' as int
  const COLON: CodePoint := ':' as int
  const OPEN_ARRAY: CodePoint := '[' as int
  const CLOSE_ARRAY: CodePoint := ']' as int
  const OPEN_OBJECT: CodePoint := '{' as int
  const CLOSE_OBJECT: CodePoint := '}' as int
  const NULL: Text := ['n' as int, 'u' as int, 'l' as int, 'l' as int]
  const TRUE: Text := ['t' as int, 'r' as int, 'u' as int, 'e' as int]
  const FALSE: Text := ['f' as int, 'a' as int, 'l' as int, 's' as int, 'e' as int]

  // ---------------------------------------------------------------------------------------------------
  // Writing
  // ---------------------------------------------------------------------------------------------------

  function HexDigit(n: nat): CodePoint
    requires n < 16
  {
    if n < 10 then DIGIT_ZERO + n else ('a' as int) + (n - 10)
  }

  function Escape(c: CodePoint): (t: Text)
    ensures t != []
  {
    if c == QUOTE then [BACKSLASH, QUOTE]
    else if c == BACKSLASH then [BACKSLASH, BACKSLASH]
    else if c == 8 then [BACKSLASH, 'b' as int]
    else if c == 12 then [BACKSLASH, 'f' as int]
    else if c == 10 then [BACKSLASH, 'n' as int]
    else if c == 13 then [BACKSLASH, 'r' as int]
    else if c == 9 then [BACKSLASH, 't' as int]
    else if c < 32 then [BACKSLASH, 'u' as int, DIGIT_ZERO, DIGIT_ZERO, HexDigit(c / 16), HexDigit(c % 16)]
    else [c]
  }

  function Escaped(s: Text): Text {
    if s == [] then [] else Escape(s[0]) + Escaped(s[1..])
  }

  function PrintString(s: Text): (t: Text)
    ensures t != [] && t[0] == QUOTE
  {
    [QUOTE] + (Escaped(s) + [QUOTE])
  }

  function PrintInt(n: int): (t: Text)
    ensures t != [] && (t[0] == MINUS || IsDigit(t[0]))
  {
    if n < 0 then [MINUS] + Digits(-n)
    else
      var ds := Digits(n);
      assert ds[0] in ds;
      ds
  }

  function Print(j: Json): (t: Text)
    ensures t != [] && t[0] != CLOSE_ARRAY && !IsSpace(t[0])
    decreases j, 1
  {
    match j
    case Null => NULL
    case Bool(b) => if b then TRUE else FALSE
    case Int(n) => PrintInt(n)
    case Str(s) => PrintString(s)
    case Arr(items) => [OPEN_ARRAY] + PrintItems(items, true)
    case Obj(members) => [OPEN_OBJECT] + PrintMembers(members, true)
  }

  function Comma(first: bool): Text {
    if first then [] else [COMMA]
  }

  /** The items up to and including the closing bracket; every item but the first follows a comma. */
  function PrintItems(items: seq<Json>, first: bool): (t: Text)
    ensures t != []
    decreases items, 0
  {
    if items == [] then [CLOSE_ARRAY]
    else Comma(first) + (Print(items[0]) + PrintItems(items[1..], false))
  }

  function PrintMembers(members: seq<Member>, first: bool): (t: Text)
    ensures t != []
    decreases members, 0
  {
    if members == [] then [CLOSE_OBJECT]
    else
      Comma(first) + (PrintString(members[0].key) + ([COLON] + (Print(members[0].value) + PrintMembers(members[1..], false))))
  }

  // ---------------------------------------------------------------------------------------------------
  // Reading
  // ---------------------------------------------------------------------------------------------------

  function FromHex(c: CodePoint): (n: Option<nat>)
    ensures n.Some? ==> n.value < 16
  {
    if IsDigit(c) then Some(c - DIGIT_ZERO)
    else if ('a' as int) <= c <= ('f' as int) then Some(c - ('a' as int) + 10)
    else if ('A' as int) <= c <= ('F' as int) then Some(c - ('A' as int) + 10)
    else None
  }

  /** A unicode escape with its four digits. */
  function ReadUnit(t: Text): (n: Option<nat>)
    ensures n.Some? ==> |t| >= 6 && n.value < 0x1_0000
  {
    if |t| < 6 || t[0] != BACKSLASH || t[1] != 'u' as int then None
    else
      match (FromHex(t[2]), FromHex(t[3]), FromHex(t[4]), FromHex(t[5]))
      case (Some(a), Some(b), Some(c), Some(d)) => Some(((a * 16 + b) * 16 + c) * 16 + d)
      case _ => None
  }

  /** A unicode escape; two of them stand for one character if they form a surrogate pair. */
  function ReadUnicode(t: Text): Option<(CodePoint, nat)> {
    match ReadUnit(t)
    case None => None
    case Some(high) =>
      if 0xD800 <= high < 0xDC00 then
        (match ReadUnit(t[6..])
         case Some(low) => if 0xDC00 <= low < 0xE000 then Some((0x1_0000 + (high - 0xD800) * 0x400 + (low - 0xDC00), 12)) else Some((high, 6))
         case None => Some((high, 6)))
      else Some((high, 6))
  }

  /** One character of a string body and how much text it takes: all forms that section 7 of RFC 8259 allows. */
  function ReadChar(t: Text): (r: Option<(CodePoint, nat)>)
    requires t != []
    ensures r.Some? ==> 0 < r.value.1
  {
    if t[0] < 32 || t[0] == QUOTE then None
    else if t[0] != BACKSLASH then Some((t[0], 1))
    else if |t| < 2 then None
    else if t[1] == QUOTE || t[1] == BACKSLASH || t[1] == SLASH then Some((t[1], 2))
    else if t[1] == 'b' as int then Some((8, 2))
    else if t[1] == 'f' as int then Some((12, 2))
    else if t[1] == 'n' as int then Some((10, 2))
    else if t[1] == 'r' as int then Some((13, 2))
    else if t[1] == 't' as int then Some((9, 2))
    else ReadUnicode(t)
  }

  /** The body of a string up to and including its closing quote. */
  function ReadString(t: Text): (r: Option<(Text, Text)>)
    ensures r.Some? ==> |r.value.1| < |t|
    decreases |t|
  {
    if t == [] then None
    else if t[0] == QUOTE then Some(([], t[1..]))
    else
      match ReadChar(t)
      case None => None
      case Some((c, n)) =>
        if n > |t| || n == 0 then None
        else
          match ReadString(t[n..])
          case None => None
          case Some((s, rest)) => Some(([c] + s, rest))
  }

  function ReadInt(t: Text): (r: Option<(Json, Text)>)
    ensures r.Some? ==> |r.value.1| < |t|
  {
    var sign := if t != [] && t[0] == MINUS then 1 else 0;
    var n := DigitPrefix(t[sign..]);
    var ds := t[sign..][..n];
    if n == 0 || (n > 1 && ds[0] == DIGIT_ZERO) then None
    else
      var number: int := Number(ds);
      Some((Int(if sign == 1 then -number else number), t[sign + n..]))
  }

  predicate IsSpace(c: CodePoint) {
    c == ' ' as int || c == 9 || c == 10 || c == 13
  }

  /** White space may stand before every token. */
  function Skip(t: Text): (r: Text)
    ensures |r| <= |t|
    ensures r != [] ==> !IsSpace(r[0])
    ensures t != [] && !IsSpace(t[0]) ==> r == t
  {
    if t != [] && IsSpace(t[0]) then Skip(t[1..]) else t
  }

  function Read(t: Text): (r: Option<(Json, Text)>)
    ensures r.Some? ==> |r.value.1| < |t|
    decreases |t|, 2
  {
    ReadToken(Skip(t))
  }

  /** A value without white space before it. */
  function ReadToken(t: Text): (r: Option<(Json, Text)>)
    ensures r.Some? ==> |r.value.1| < |t|
    decreases |t|, 1
  {
    if t == [] then None
    else if t[0] == QUOTE then
      (match ReadString(t[1..])
       case None => None
       case Some((s, rest)) => Some((Str(s), rest)))
    else if t[0] == OPEN_ARRAY then
      (match ReadItems(t[1..], true)
       case None => None
       case Some((items, rest)) => Some((Arr(items), rest)))
    else if t[0] == OPEN_OBJECT then
      (match ReadMembers(t[1..], true)
       case None => None
       case Some((members, rest)) => Some((Obj(members), rest)))
    else if NULL <= t then Some((Null, t[4..]))
    else if TRUE <= t then Some((Bool(true), t[4..]))
    else if FALSE <= t then Some((Bool(false), t[5..]))
    else ReadInt(t)
  }

  function ReadItems(t: Text, first: bool): (r: Option<(seq<Json>, Text)>)
    ensures r.Some? ==> |r.value.1| < |t|
    decreases |t|, 3
  {
    var t := Skip(t);
    if t == [] then None
    else if t[0] == CLOSE_ARRAY then Some(([], t[1..]))
    else if !first && t[0] != COMMA then None
    else
      match Read(if first then t else t[1..])
      case None => None
      case Some((item, after)) =>
        match ReadItems(after, false)
        case None => None
        case Some((items, rest)) => Some(([item] + items, rest))
  }

  function ReadMembers(t: Text, first: bool): (r: Option<(seq<Member>, Text)>)
    ensures r.Some? ==> |r.value.1| < |t|
    decreases |t|, 3
  {
    var t := Skip(t);
    if t == [] then None
    else if t[0] == CLOSE_OBJECT then Some(([], t[1..]))
    else if !first && t[0] != COMMA then None
    else
      match ReadKey(Skip(if first then t else t[1..]))
      case None => None
      case Some((key, colon)) =>
        match Read(colon[1..])
        case None => None
        case Some((value, after)) =>
          match ReadMembers(after, false)
          case None => None
          case Some((members, rest)) => Some(([Member(key, value)] + members, rest))
  }

  /** A key and the text from its colon on. */
  function ReadKey(t: Text): (r: Option<(Text, Text)>)
    ensures r.Some? ==> r.value.1 != [] && r.value.1[0] == COLON && |r.value.1| < |t|
  {
    if t == [] || t[0] != QUOTE then None
    else
      match ReadString(t[1..])
      case None => None
      case Some((key, after)) =>
        var colon := Skip(after);
        if colon == [] || colon[0] != COLON then None else Some((key, colon))
  }

  /** Reading a whole text. */
  function Parse(t: Text): Option<Json> {
    match Read(t)
    case Some((j, rest)) => if Skip(rest) == [] then Some(j) else None
    case None => None
  }

  // ---------------------------------------------------------------------------------------------------
  // The reader inverts the writer
  // ---------------------------------------------------------------------------------------------------

  lemma {:induction false} CharRoundTrip(c: CodePoint, rest: Text)
    ensures (Escape(c) + rest)[0] != QUOTE
    ensures ReadChar(Escape(c) + rest) == Some((c, |Escape(c)|))
  {
    if c < 32 {
      assert FromHex(HexDigit(c / 16)) == Some(c / 16) && FromHex(HexDigit(c % 16)) == Some(c % 16);
    }
  }

  lemma {:induction false} StringStep(c: CodePoint, head: Text, tail: Text, s: Text, rest: Text)
    requires head != [] && head[0] != QUOTE
    requires ReadChar(head + tail) == Some((c, |head|)) && ReadString(tail) == Some((s, rest))
    ensures ReadString(head + tail) == Some(([c] + s, rest))
  {
    assert (head + tail)[|head|..] == tail;
  }

  lemma {:induction false} EscapedStep(s: Text, tail: Text)
    requires s != []
    ensures Escaped(s) + tail == Escape(s[0]) + (Escaped(s[1..]) + tail)
  {
  }

  lemma {:induction false} StringRoundTrip(s: Text, rest: Text)
    ensures ReadString(Escaped(s) + ([QUOTE] + rest)) == Some((s, rest))
  {
    if s == [] {
      StringEnd(rest);
      assert Escaped(s) + ([QUOTE] + rest) == [QUOTE] + rest;
    } else {
      var head, tail := Escape(s[0]), Escaped(s[1..]) + ([QUOTE] + rest);
      EscapedStep(s, [QUOTE] + rest);
      CharRoundTrip(s[0], tail);
      StringRoundTrip(s[1..], rest);
      StringStep(s[0], head, tail, s[1..], rest);
      assert s == [s[0]] + s[1..];
    }
  }

  lemma StringEnd(rest: Text)
    ensures ReadString([QUOTE] + rest) == Some(([], rest))
  {
    assert ([QUOTE] + rest)[1..] == rest;
  }

  lemma {:induction false} IntRoundTrip(n: int, rest: Text)
    requires NoDigitFirst(rest)
    ensures ReadInt(PrintInt(n) + rest) == Some((Int(n), rest))
  {
    if n < 0 {
      ReadNumeral(-n, rest, [MINUS] + Digits(-n) + rest, 1) by {
        assert ([MINUS] + Digits(-n) + rest)[1..] == Digits(-n) + rest;
      }
    } else {
      assert Digits(n)[0] in Digits(n);
      ReadNumeral(n, rest, Digits(n) + rest, 0);
    }
  }

  lemma {:induction false} ReadNumeral(n: nat, rest: Text, t: Text, sign: nat)
    requires NoDigitFirst(rest) && sign <= |t| && t[sign..] == Digits(n) + rest
    requires sign == if t != [] && t[0] == MINUS then 1 else 0
    ensures ReadInt(t) == Some((Int(if sign == 1 then 0 - n else n), rest))
  {
    var ds := Digits(n);
    DigitsEnd(ds, rest);
    NumberOfDigits(n);
    assert t[sign..][..|ds|] == ds;
    assert t[sign + |ds|..] == t[sign..][|ds|..] == rest;
    ZeroLeadsOnlyZero(n);
  }

  lemma ZeroLeadsOnlyZero(n: nat)
    ensures |Digits(n)| > 1 ==> Digits(n)[0] != DIGIT_ZERO
  {
  }

  /** The first character of a text tells what kind of value follows. */
  lemma {:induction false} ReadLiteral(literal: Text, rest: Text)
    requires literal == NULL || literal == TRUE || literal == FALSE
    ensures Read(literal + rest)
         == Some((if literal == NULL then Null else Bool(literal == TRUE), rest))
  {
    var t := literal + rest;
    assert t[..|literal|] == literal && t[|literal|..] == rest;
    assert t[0] == literal[0];
  }

  lemma {:induction false} ReadNumber(n: int, rest: Text)
    requires NoDigitFirst(rest)
    ensures Read(PrintInt(n) + rest) == Some((Int(n), rest))
  {
    IntRoundTrip(n, rest);
    var t := PrintInt(n) + rest;
    assert t[0] == MINUS || IsDigit(t[0]);
  }

  lemma {:induction false} ReadText(s: Text, rest: Text)
    ensures Read(PrintString(s) + rest) == Some((Str(s), rest))
    ensures ReadString((PrintString(s) + rest)[1..]) == Some((s, rest))
  {
    StringRoundTrip(s, rest);
    assert (PrintString(s) + rest)[1..] == Escaped(s) + ([QUOTE] + rest);
  }

  lemma {:induction false} ItemsStep(t: Text, first: bool, item: Json, after: Text, items: seq<Json>, rest: Text)
    requires t != [] && !IsSpace(t[0]) && t[0] != CLOSE_ARRAY && (first || t[0] == COMMA)
    requires Read(if first then t else t[1..]) == Some((item, after))
    requires ReadItems(after, false) == Some((items, rest))
    ensures ReadItems(t, first) == Some(([item] + items, rest))
  {
  }

  lemma {:induction false} MembersStep(t: Text, first: bool, m: Member, value: Text, after: Text, members: seq<Member>, rest: Text)
    requires t != [] && !IsSpace(t[0]) && t[0] != CLOSE_OBJECT && (first || t[0] == COMMA)
    requires var body := if first then t else t[1..];
             body != [] && body[0] == QUOTE && ReadString(body[1..]) == Some((m.key, [COLON] + value))
    requires Read(value) == Some((m.value, after))
    requires ReadMembers(after, false) == Some((members, rest))
    ensures ReadMembers(t, first) == Some(([m] + members, rest))
  {
    var body := if first then t else t[1..];
    assert Skip(body) == body && ([COLON] + value)[1..] == value;
    assert ReadKey(body) == Some((m.key, [COLON] + value));
  }

  /** Every canonical value is read back from its text, whatever follows it. */
  lemma {:induction false} ReadInvertsPrint(j: Json, rest: Text)
    requires NoDigitFirst(rest)
    ensures Read(Print(j) + rest) == Some((j, rest))
    decreases j, 1
  {
    match j
    case Null => ReadLiteral(NULL, rest);
    case Bool(b) => ReadLiteral(if b then TRUE else FALSE, rest);
    case Int(n) => ReadNumber(n, rest);
    case Str(s) => ReadText(s, rest);
    case Arr(items) =>
      ItemsRoundTrip(items, true, rest);
      AfterBracket(OPEN_ARRAY, PrintItems(items, true), rest);
      ReadArray(Print(j) + rest, items, rest);
    case Obj(members) =>
      MembersRoundTrip(members, true, rest);
      AfterBracket(OPEN_OBJECT, PrintMembers(members, true), rest);
      ReadObject(Print(j) + rest, members, rest);
  }

  lemma AfterBracket(bracket: CodePoint, body: Text, rest: Text)
    ensures ([bracket] + body + rest)[0] == bracket && ([bracket] + body + rest)[1..] == body + rest
  {
  }

  lemma {:induction false} ReadArray(t: Text, items: seq<Json>, rest: Text)
    requires t != [] && t[0] == OPEN_ARRAY && ReadItems(t[1..], true) == Some((items, rest))
    ensures Read(t) == Some((Arr(items), rest))
  {
  }

  lemma {:induction false} ReadObject(t: Text, members: seq<Member>, rest: Text)
    requires t != [] && t[0] == OPEN_OBJECT && ReadMembers(t[1..], true) == Some((members, rest))
    ensures Read(t) == Some((Obj(members), rest))
  {
  }

  lemma {:induction false} Separated(head: Text, tail: Text, rest: Text, first: bool) returns (t: Text)
    requires head != []
    ensures t == Comma(first) + (head + tail) + rest
    ensures t != [] && t[0] == if first then head[0] else COMMA
    ensures (if first then t else t[1..]) == head + (tail + rest)
  {
    t := Comma(first) + (head + tail) + rest;
    if first {
      assert t == head + (tail + rest);
    } else {
      assert t[1..] == head + (tail + rest);
    }
  }

  lemma {:induction false} ItemsAssemble(item: Json, text: Text, items: seq<Json>, tail: Text, rest: Text, first: bool)
    requires text != [] && text[0] != CLOSE_ARRAY && !IsSpace(text[0]) && Read(text + (tail + rest)) == Some((item, tail + rest))
    requires ReadItems(tail + rest, false) == Some((items, rest))
    ensures ReadItems(Comma(first) + (text + tail) + rest, first) == Some(([item] + items, rest))
  {
    var t := Separated(text, tail, rest, first);
    ItemsStep(t, first, item, tail + rest, items, rest);
  }

  lemma {:induction false} ItemsRoundTrip(items: seq<Json>, first: bool, rest: Text)
    ensures ReadItems(PrintItems(items, first) + rest, first) == Some((items, rest))
    decreases items, 0
  {
    if items == [] {
      AfterBracket(CLOSE_ARRAY, [], rest);
      assert PrintItems(items, first) == [CLOSE_ARRAY] + [] && [] + rest == rest;
    } else {
      var tail := PrintItems(items[1..], false);
      ReadInvertsPrint(items[0], tail + rest);
      ItemsRoundTrip(items[1..], false, rest);
      ItemsAssemble(items[0], Print(items[0]), items[1..], tail, rest, first);
      assert items == [items[0]] + items[1..];
    }
  }

  lemma {:induction false} KeyText(key: Text, colon: Text, body: Text)
    requires body == PrintString(key) + colon
    ensures body != [] && body[0] == QUOTE && ReadString(body[1..]) == Some((key, colon))
  {
    ReadText(key, colon);
  }

  lemma {:induction false} Reassociate(head: Text, value: Text, tail: Text, rest: Text)
    ensures head + (value + tail) + rest == head + (value + (tail + rest))
  {
  }

  lemma {:induction false} MemberText(key: Text, value: Text, tail: Text, rest: Text, first: bool) returns (t: Text)
    ensures t == Comma(first) + (PrintString(key) + ([COLON] + (value + tail))) + rest
    ensures t != [] && t[0] == if first then QUOTE else COMMA
    ensures var body := if first then t else t[1..];
            body != [] && body[0] == QUOTE && ReadString(body[1..]) == Some((key, [COLON] + (value + (tail + rest))))
  {
    t := Separated(PrintString(key), [COLON] + (value + tail), rest, first);
    Reassociate([COLON], value, tail, rest);
    KeyText(key, [COLON] + (value + (tail + rest)), if first then t else t[1..]);
  }

  lemma {:induction false} MembersAssemble(m: Member, text: Text, members: seq<Member>, tail: Text, rest: Text, first: bool)
    requires Read(text + (tail + rest)) == Some((m.value, tail + rest))
    requires ReadMembers(tail + rest, false) == Some((members, rest))
    ensures ReadMembers(Comma(first) + (PrintString(m.key) + ([COLON] + (text + tail))) + rest, first)
         == Some(([m] + members, rest))
  {
    var t := MemberText(m.key, text, tail, rest, first);
    MembersStep(t, first, m, text + (tail + rest), tail + rest, members, rest);
  }

  lemma {:induction false} NoMembers(first: bool, rest: Text)
    ensures ReadMembers(PrintMembers([], first) + rest, first) == Some(([], rest))
  {
    AfterBracket(CLOSE_OBJECT, [], rest);
    assert PrintMembers([], first) == [CLOSE_OBJECT] + [] && [] + rest == rest;
  }

  lemma {:induction false} MembersRoundTrip(members: seq<Member>, first: bool, rest: Text)
    ensures ReadMembers(PrintMembers(members, first) + rest, first) == Some((members, rest))
    decreases members, 0
  {
    if members == [] {
      NoMembers(first, rest);
    } else {
      var m, tail := members[0], PrintMembers(members[1..], false);
      ReadInvertsPrint(m.value, tail + rest);
      MembersRoundTrip(members[1..], false, rest);
      MembersAssemble(m, Print(m.value), members[1..], tail, rest, first);
      assert members == [m] + members[1..];
    }
  }

  /** A parser inverts the canonical text of every value. */
  lemma ParseInvertsPrint(j: Json)
    ensures Parse(Print(j)) == Some(j)
  {
    ReadInvertsPrint(j, []);
    assert Print(j) + [] == Print(j);
  }

  /** Equal texts come from equal values only. */
  lemma PrintIsInjective(a: Json, b: Json)
    ensures Print(a) == Print(b) <==> a == b
  {
    ParseInvertsPrint(a);
    ParseInvertsPrint(b);
  }

  // ---------------------------------------------------------------------------------------------------
  // The canonical text is the shortest one
  // ---------------------------------------------------------------------------------------------------

  predicate UpperHex(c: CodePoint) {
    'A' as int <= c <= 'F' as int
  }

  /** The escape of a character is written with small digits. */
  ghost predicate SmallDigits(t: Text) {
    |t| == 6 ==> forall i | 2 <= i < 6 :: !UpperHex(t[i])
  }

  lemma HexIsOneDigit(c: CodePoint)
    requires FromHex(c).Some? && !UpperHex(c)
    ensures HexDigit(FromHex(c).value) == c
  {
  }

  lemma {:induction false} UnitIsControl(t: Text, c: CodePoint)
    requires |t| == 6 && ReadUnit(t) == Some(c) && c < 32 && SmallDigits(t)
    ensures t == [BACKSLASH, 'u' as int, DIGIT_ZERO, DIGIT_ZERO, HexDigit(c / 16), HexDigit(c % 16)]
  {
    var a, b, d, e := FromHex(t[2]).value, FromHex(t[3]).value, FromHex(t[4]).value, FromHex(t[5]).value;
    assert a == 0 && b == 0 && c == d * 16 + e;
    HexIsOneDigit(t[2]);
    HexIsOneDigit(t[3]);
    HexIsOneDigit(t[4]);
    HexIsOneDigit(t[5]);
  }

  /** Of all the ways to write a character in a string the canonical one is the shortest, and the only one of its length. */
  lemma {:induction false} EscapeIsShortest(c: CodePoint, t: Text)
    requires t != [] && ReadChar(t) == Some((c, |t|))
    ensures |Escape(c)| <= |t|
    ensures |Escape(c)| == |t| && SmallDigits(t) ==> Escape(c) == t
  {
    if t[0] == BACKSLASH && |t| == 6 && |Escape(c)| == 6 && SmallDigits(t) {
      UnitIsControl(t, c);
    }
  }

  /** What may stand for itself does, and nothing else: quote, backslash and control characters are escaped. */
  lemma {:induction false} StandsForItselfExactly(c: CodePoint)
    ensures Escape(c) == [c] <==> c >= 32 && c != QUOTE && c != BACKSLASH
    ensures Escape(c) == [c] <==> ReadChar([c]) == Some((c, 1))
  {
  }

  /** How a character was written, with the text that follows. */
  lemma {:induction false} ReadCharIsLocal(t: Text)
    requires t != [] && ReadChar(t).Some? && ReadChar(t).value.1 <= |t|
    ensures t[..ReadChar(t).value.1] != [] && ReadChar(t[..ReadChar(t).value.1]) == ReadChar(t)
  {
    var n := ReadChar(t).value.1;
    if t[0] == BACKSLASH && n > 2 {
      assert t[..n][6..] == t[6..][..n - 6];
    }
  }

  /** No other text of a string is shorter. */
  lemma {:induction false} StringIsShortest(t: Text)
    requires ReadString(t).Some?
    ensures var (s, rest) := ReadString(t).value; |Escaped(s)| + 1 + |rest| <= |t|
    decreases |t|
  {
    if t[0] != QUOTE {
      var (c, n) := ReadChar(t).value;
      ReadCharIsLocal(t);
      EscapeIsShortest(c, t[..n]);
      StringIsShortest(t[n..]);
      var (s, rest) := ReadString(t).value;
      assert s[0] == c && s[1..] == ReadString(t[n..]).value.0;
    }
  }

  /** No quoted text that reads as the string is shorter than the canonical one. */
  lemma {:induction false} PrintStringIsShortest(t: Text)
    requires t != [] && t[0] == QUOTE && ReadString(t[1..]).Some?
    ensures var (s, rest) := ReadString(t[1..]).value; |PrintString(s)| + |rest| <= |t|
  {
    StringIsShortest(t[1..]);
  }

  lemma {:induction false} NumberIsShortest(t: Text)
    requires ReadInt(t).Some?
    ensures var (j, rest) := ReadInt(t).value; j.Int? && |PrintInt(j.number)| + |rest| <= |t|
  {
    var sign := if t[0] == MINUS then 1 else 0;
    var n := DigitPrefix(t[sign..]);
    var ds := t[sign..][..n];
    DigitsOfNumber(ds);
  }

  /** No text that reads as the value is shorter than its canonical text, whatever follows. */
  lemma {:induction false} PrintIsShortest(t: Text)
    requires Read(t).Some?
    ensures var (j, rest) := Read(t).value; |Print(j)| + |rest| <= |t|
    decreases |t|, 2
  {
    TokenIsShortest(Skip(t));
  }

  lemma {:induction false} TokenIsShortest(t: Text)
    requires ReadToken(t).Some?
    ensures var (j, rest) := ReadToken(t).value; |Print(j)| + |rest| <= |t|
    decreases |t|, 1
  {
    if t[0] == QUOTE {
      PrintStringIsShortest(t);
    } else if t[0] == OPEN_ARRAY {
      ItemsAreShortest(t[1..], true);
    } else if t[0] == OPEN_OBJECT {
      MembersAreShortest(t[1..], true);
    } else if !(NULL <= t) && !(TRUE <= t) && !(FALSE <= t) {
      NumberIsShortest(t);
    }
  }

  lemma {:induction false} ItemsAreShortest(t: Text, first: bool)
    requires ReadItems(t, first).Some?
    ensures var (items, rest) := ReadItems(t, first).value; |PrintItems(items, first)| + |rest| <= |t|
    decreases |t|, 3
  {
    var t' := Skip(t);
    if t'[0] != CLOSE_ARRAY {
      var from := if first then t' else t'[1..];
      PrintIsShortest(from);
      var (item, after) := Read(from).value;
      ItemsAreShortest(after, false);
      var (items, rest) := ReadItems(t, first).value;
      assert items[0] == item && items[1..] == ReadItems(after, false).value.0;
    }
  }

  lemma {:induction false} MembersAreShortest(t: Text, first: bool)
    requires ReadMembers(t, first).Some?
    ensures var (members, rest) := ReadMembers(t, first).value; |PrintMembers(members, first)| + |rest| <= |t|
    decreases |t|, 3
  {
    var t' := Skip(t);
    if t'[0] != CLOSE_OBJECT {
      var from := Skip(if first then t' else t'[1..]);
      PrintStringIsShortest(from);
      var (key, colon) := ReadKey(from).value;
      PrintIsShortest(colon[1..]);
      var (value, after) := Read(colon[1..]).value;
      MembersAreShortest(after, false);
      var (members, rest) := ReadMembers(t, first).value;
      assert members[0] == Member(key, value) && members[1..] == ReadMembers(after, false).value.0;
    }
  }

  /** So the canonical text is a shortest one among all the texts that any reader of JSON takes for the value. */
  lemma {:induction false} CanonicalTextIsShortest(t: Text, j: Json)
    requires Parse(t) == Some(j)
    ensures Parse(Print(j)) == Some(j) && |Print(j)| <= |t|
  {
    ParseInvertsPrint(j);
    PrintIsShortest(t);
  }

  // ---------------------------------------------------------------------------------------------------
  // UTF-8
  // ---------------------------------------------------------------------------------------------------

  type Byte = b: int | 0 <= b < 256 witness 0

  type Bytes = seq<Byte>

  predicate IsSurrogate(c: CodePoint) {
    0xD800 <= c <= 0xDFFF
  }

  function EncodeChar(c: CodePoint): (b: Bytes)
    ensures b != []
  {
    var c1, c2 := c / 64, c / 64 / 64;
    if c < 0x80 then [c]
    else if c < 0x800 then [0xC0 + c1, 0x80 + c % 64]
    else if c < 0x1_0000 then [0xE0 + c2, 0x80 + c1 % 64, 0x80 + c % 64]
    else [0xF0 + c2 / 64, 0x80 + c2 % 64, 0x80 + c1 % 64, 0x80 + c % 64]
  }

  /** The bytes of a text; a text holding a surrogate code point has none. */
  function Encode(t: Text): Option<Bytes> {
    if t == [] then Some([])
    else if IsSurrogate(t[0]) then None
    else
      match Encode(t[1..])
      case None => None
      case Some(rest) => Some(EncodeChar(t[0]) + rest)
  }

  function CharLength(lead: Byte): nat {
    if lead < 0x80 then 1 else if lead < 0xE0 then 2 else if lead < 0xF0 then 3 else 4
  }

  /** The code point the first bytes stand for; its range is left to the caller. */
  function DecodeChar(b: Bytes): int
    requires b != [] && CharLength(b[0]) <= |b|
  {
    var lead: int := b[0];
    if lead < 0x80 then lead
    else if lead < 0xE0 then Extend(lead - 0xC0, b[1])
    else if lead < 0xF0 then Extend(Extend(lead - 0xE0, b[1]), b[2])
    else Extend(Extend(Extend(lead - 0xF0, b[1]), b[2]), b[3])
  }

  /** Six more bits from a continuation byte. */
  function Extend(high: int, continuation: int): int {
    high * 64 + (continuation - 0x80)
  }

  function Decode(b: Bytes): Option<Text> {
    if b == [] then Some([])
    else if CharLength(b[0]) > |b| then None
    else
      var c := DecodeChar(b);
      if !(0 <= c < 0x11_0000) then None
      else
        match Decode(b[CharLength(b[0])..])
        case None => None
        case Some(rest) => Some([c] + rest)
  }

  lemma DecodeCharInvertsEncodeChar(c: CodePoint, rest: Bytes)
    ensures CharLength(EncodeChar(c)[0]) == |EncodeChar(c)|
    ensures DecodeChar(EncodeChar(c) + rest) == c
  {
    assert c / 64 * 64 + c % 64 == c;
    assert c / 64 / 64 * 64 + c / 64 % 64 == c / 64;
    assert c / 64 / 64 / 64 * 64 + c / 64 / 64 % 64 == c / 64 / 64;
  }

  /** Section 3 of RFC 3629: the fewest bytes that hold the code point, led by a byte that tells how many follow. */
  lemma EncodeCharForm(c: CodePoint)
    ensures var b := EncodeChar(c);
            && (|b| == 1 <==> c < 0x80) && (|b| == 2 <==> 0x80 <= c < 0x800)
            && (|b| == 3 <==> 0x800 <= c < 0x1_0000) && (|b| == 4 <==> 0x1_0000 <= c)
            && (|b| == 2 ==> 0xC0 <= b[0] < 0xE0) && (|b| == 3 ==> 0xE0 <= b[0] < 0xF0) && (|b| == 4 ==> 0xF0 <= b[0] < 0xF8)
            && forall i | 1 <= i < |b| :: 0x80 <= b[i] < 0xC0
  {
  }

  lemma {:induction false} DecodeInvertsEncode(t: Text)
    requires Encode(t).Some?
    ensures Decode(Encode(t).value) == Some(t)
  {
    if t != [] {
      var rest := Encode(t[1..]).value;
      var b := EncodeChar(t[0]) + rest;
      DecodeInvertsEncode(t[1..]);
      DecodeCharInvertsEncodeChar(t[0], rest);
      assert b[|EncodeChar(t[0])|..] == rest;
      assert t == [t[0]] + t[1..];
    }
  }

  /** A text has bytes exactly when it holds no surrogate. */
  lemma {:induction false} EncodableExactlyWithoutSurrogates(t: Text)
    ensures Encode(t).None? <==> exists c | c in t :: IsSurrogate(c)
  {
    if t != [] {
      EncodableExactlyWithoutSurrogates(t[1..]);
      assert t == [t[0]] + t[1..];
    }
  }
}
