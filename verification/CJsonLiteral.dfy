// The strings of JSON as cJSON.c reads and writes them, in terms of the units of RFC 8259,
// section 7: characters, two-character escape sequences, and \u sequences.

module CJsonLiterals {

  import Idna
  import opened Wrappers
  import opened CJsonStrings
  import opened CJsonCodec
  import opened CJsonGrammars

  // 0123456789abcdef and 0123456789ABCDEF.
  const LOWER: seq<Byte> :=
    [0x30, 0x31, 0x32, 0x33, 0x34, 0x35, 0x36, 0x37, 0x38, 0x39, 0x61, 0x62, 0x63, 0x64, 0x65, 0x66]
  const UPPER: seq<Byte> :=
    [0x30, 0x31, 0x32, 0x33, 0x34, 0x35, 0x36, 0x37, 0x38, 0x39, 0x41, 0x42, 0x43, 0x44, 0x45, 0x46]

  predicate IsHex(b: Byte, v: nat) { v < 16 && (b == LOWER[v] || b == UPPER[v]) }

  // Four hexadecimal digits, of either case, that spell v.
  predicate IsHex4(h: seq<Byte>, v: nat) {
    && |h| == 4 && IsHex(h[0], v / 16 / 16 / 16) && IsHex(h[1], v / 16 / 16 % 16)
    && IsHex(h[2], v / 16 % 16) && IsHex(h[3], v % 16)
  }

  // The escape sequences of two characters, and what they stand for: " \ / b f n r t.
  const LETTERS: seq<Byte> := [0x22, 0x5C, 0x2F, 0x62, 0x66, 0x6E, 0x72, 0x74]
  const CONTROLS: seq<Byte> := [0x22, 0x5C, 0x2F, 8, 12, 10, 13, 9]

  // A byte of its own, the i-th letter behind a backslash, and code points written in digits.
  datatype Unit = Plain(b: Byte) | Short(i: nat) | Code(h: seq<Byte>, cp: nat)
    | Pair(hi: seq<Byte>, lo: seq<Byte>, cp: nat)

  predicate UnitOk(u: Unit) {
    match u
    case Plain(b) => b != QUOTE && b != BACKSLASH
    case Short(i) => i < 8
    case Code(h, cp) => IsHex4(h, cp) && !(0xD800 <= cp <= 0xDFFF)
    case Pair(h, l, cp) =>
      0x10000 <= cp <= 0x10FFFF
      && IsHex4(h, 0xD800 + (cp - 0x10000) / 0x400) && IsHex4(l, 0xDC00 + (cp - 0x10000) % 0x400)
  }

  // What cJSON.c reads in place of a unit: four bytes that are not all digits count as 0, and a
  // quote may be a character of its own when it has been skipped as part of such bytes.
  predicate Loose(u: Unit) {
    match u
    case Plain(b) => b != BACKSLASH
    case Short(i) => i < 8
    case Code(h, cp) => |h| == 4 && Idna.Scalar(cp) && cp < 0x10000 && (IsHex4(h, cp) || (cp == 0 && !AllHex(h)))
    case Pair(_, _, _) => UnitOk(u)
  }

  predicate AllHex(h: seq<Byte>) { forall b :: b in h ==> b in LOWER || b in UPPER }

  function CodeText(h: seq<Byte>): seq<Byte> { [BACKSLASH, 0x75] + h }

  function UnitText(u: Unit): seq<Byte>
    requires Loose(u)
  {
    match u
    case Plain(b) => [b]
    case Short(i) => [BACKSLASH, LETTERS[i]]
    case Code(h, _) => CodeText(h)
    case Pair(h, l, _) => CodeText(h) + CodeText(l)
  }

  function UnitBytes(u: Unit): seq<Byte>
    requires Loose(u)
  {
    match u
    case Plain(b) => [b]
    case Short(i) => [CONTROLS[i]]
    case Code(_, cp) => Idna.Utf8(cp)
    case Pair(_, _, cp) => Idna.Utf8(cp)
  }

  predicate UnitsOk(us: seq<Unit>) { forall i :: 0 <= i < |us| ==> UnitOk(us[i]) }
  predicate AllLoose(us: seq<Unit>) { forall i :: 0 <= i < |us| ==> Loose(us[i]) }

  lemma OkIsLoose(u: Unit)
    requires UnitOk(u)
    ensures Loose(u)
  {
    if u.Code? { CodeSmall(u.h, u.cp); }
  }

  function Text(us: seq<Unit>): seq<Byte>
    requires AllLoose(us)
  { if us == [] then [] else UnitText(us[0]) + Text(us[1..]) }

  function Bytes(us: seq<Unit>): seq<Byte>
    requires AllLoose(us)
  { if us == [] then [] else UnitBytes(us[0]) + Bytes(us[1..]) }

  lemma HexMeaning(b: Byte, v: nat)
    ensures HexValue(b) == Some(v) <==> IsHex(b, v)
  {
  }

  lemma Hex4Meaning(c: seq<Byte>, p: nat, v: nat)
    requires p + 4 <= |c| && IsHex4(c[p..p + 4], v)
    ensures Hex4(c, p) == v
  {
    var x, y := v / 16, v / 16 / 16;
    HexMeaning(c[p], y / 16);
    HexMeaning(c[p + 1], y % 16);
    HexMeaning(c[p + 2], x % 16);
    HexMeaning(c[p + 3], v % 16);
    hide HexValue, IsHex;
    assert v == x * 16 + v % 16 && x == y * 16 + x % 16 && y == y / 16 * 16 + y % 16;
  }

  lemma HexIsNot(b: Byte, v: nat)
    requires IsHex(b, v)
    ensures b != QUOTE && b != BACKSLASH
  {
  }

  // ---------- Every such string is read ----------

  // The first pass finds the same closing quote from p and from q.
  predicate SameEnd(c: seq<Byte>, p: nat, q: nat) {
    && (Measure(c, p).Some? <==> Measure(c, q).Some?)
    && (Measure(c, p).Some? ==> Measure(c, p).value.end == Measure(c, q).value.end)
  }

  lemma UnitMeasured(c: seq<Byte>, p: nat, u: Unit)
    requires UnitOk(u) && Loose(u) && At(c, p, UnitText(u))
    ensures SameEnd(c, p, p + |UnitText(u)|)
  {
    hide Measure, At, CodeText, IsHex4;
    match u
    case Plain(b) => PlainMeasured(c, p, b);
    case Short(i) => ShortMeasured(c, p, i);
    case Code(h, cp) =>
      CodeLength(h, cp);
      CodeMeasured(c, p, h, cp);
    case Pair(h, l, cp) =>
      var x, y := 0xD800 + (cp - 0x10000) / 0x400, 0xDC00 + (cp - 0x10000) % 0x400;
      CodeLength(h, x);
      CodeLength(l, y);
      AtParts(c, p, CodeText(h), CodeText(l));
      CodeMeasured(c, p + 6, l, y);
      CodeMeasured(c, p, h, x);
  }

  lemma CodeLength(h: seq<Byte>, v: nat)
    requires IsHex4(h, v)
    ensures |CodeText(h)| == 6
  {
  }

  lemma PlainMeasured(c: seq<Byte>, p: nat, b: Byte)
    requires b != QUOTE && b != BACKSLASH && At(c, p, [b])
    ensures Measure(c, p) == Measure(c, p + 1)
  {
    AtIndex(c, p, [b], 0);
  }

  lemma ShortMeasured(c: seq<Byte>, p: nat, i: nat)
    requires i < 8 && At(c, p, [BACKSLASH, LETTERS[i]])
    ensures SameEnd(c, p, p + 2)
  {
    AtIndex(c, p, [BACKSLASH, LETTERS[i]], 0);
  }

  lemma CodeMeasured(c: seq<Byte>, p: nat, h: seq<Byte>, v: nat)
    requires IsHex4(h, v) && At(c, p, CodeText(h))
    ensures SameEnd(c, p, p + 6)
  {
    var t := CodeText(h);
    AtIndex(c, p, t, 0);
    AtIndex(c, p, t, 2);
    AtIndex(c, p, t, 3);
    AtIndex(c, p, t, 4);
    AtIndex(c, p, t, 5);
    HexIsNot(h[0], v / 16 / 16 / 16);
    HexIsNot(h[1], v / 16 / 16 % 16);
    HexIsNot(h[2], v / 16 % 16);
    HexIsNot(h[3], v % 16);
    hide IsHex;
    assert Measure(c, p + 5) == Measure(c, p + 6);
    assert Measure(c, p + 4) == Measure(c, p + 5);
    assert Measure(c, p + 3) == Measure(c, p + 4);
    assert Measure(c, p + 2) == Measure(c, p + 3);
  }

  lemma CodeRead(c: seq<Byte>, p: nat, h: seq<Byte>, v: nat)
    requires IsHex4(h, v) && At(c, p, CodeText(h))
    ensures p + 6 <= |c| && c[p] == BACKSLASH && c[p + 1] == 0x75 && Hex4(c, p + 2) == v
  {
    var t := CodeText(h);
    AtIndex(c, p, t, 0);
    AtIndex(c, p, t, 1);
    AtParts(c, p, [BACKSLASH, 0x75], h);
    assert c[p + 2..p + 6] == h;
    Hex4Meaning(c, p + 2, v);
  }

  lemma CodeUnitRead(c: seq<Byte>, p: nat, h: seq<Byte>, cp: nat, end: nat)
    requires UnitOk(Code(h, cp)) && At(c, p, CodeText(h)) && p + 6 <= end < |c|
    ensures Round(c, p, end) == Some(Piece(6, Idna.Utf8(cp)))
  {
    hide IsHex4, CodeText, Utf16, Idna.Utf8, At;
    CodeRead(c, p, h, cp);
    CodeSmall(h, cp);
    Utf16Meaning(c, p, end, cp);
  }

  lemma PairUnitRead(c: seq<Byte>, p: nat, h: seq<Byte>, l: seq<Byte>, cp: nat, end: nat)
    requires UnitOk(Pair(h, l, cp)) && At(c, p, CodeText(h)) && At(c, p + 6, CodeText(l)) && p + 12 <= end < |c|
    ensures Round(c, p, end) == Some(Piece(12, Idna.Utf8(cp)))
  {
    hide IsHex4, CodeText, Utf16, Idna.Utf8, At, Hex4;
    CodeRead(c, p, h, 0xD800 + (cp - 0x10000) / 0x400);
    CodeRead(c, p + 6, l, 0xDC00 + (cp - 0x10000) % 0x400);
    assert Writes(c, p, end, cp);
    Utf16Meaning(c, p, end, cp);
  }

  lemma ShortRead(c: seq<Byte>, p: nat, i: nat, end: nat)
    requires i < 8 && At(c, p, [BACKSLASH, LETTERS[i]]) && p + 2 <= end < |c|
    ensures Round(c, p, end) == Some(Piece(2, [CONTROLS[i]]))
  {
    AtIndex(c, p, [BACKSLASH, LETTERS[i]], 0);
    AtIndex(c, p, [BACKSLASH, LETTERS[i]], 1);
  }

  lemma PlainRead(c: seq<Byte>, p: nat, b: Byte, end: nat)
    requires b != BACKSLASH && At(c, p, [b]) && p + 1 <= end < |c|
    ensures Round(c, p, end) == Some(Piece(1, [b]))
  {
    AtIndex(c, p, [b], 0);
  }

  lemma UnitRead(c: seq<Byte>, p: nat, u: Unit, end: nat)
    requires UnitOk(u) && Loose(u) && At(c, p, UnitText(u)) && p + |UnitText(u)| <= end < |c|
    ensures Round(c, p, end) == Some(Piece(|UnitText(u)|, UnitBytes(u)))
  {
    hide Round, At, CodeText, IsHex4, Idna.Utf8;
    match u
    case Plain(b) => PlainRead(c, p, b, end);
    case Short(i) => ShortRead(c, p, i, end);
    case Code(h, cp) =>
      CodeLength(h, cp);
      CodeUnitRead(c, p, h, cp, end);
    case Pair(h, l, cp) =>
      CodeLength(h, 0xD800 + (cp - 0x10000) / 0x400);
      CodeLength(l, 0xDC00 + (cp - 0x10000) % 0x400);
      AtParts(c, p, CodeText(h), CodeText(l));
      PairUnitRead(c, p, h, l, cp, end);
  }

  lemma CodeSmall(h: seq<Byte>, v: nat)
    requires IsHex4(h, v)
    ensures v < 0x10000
  {
    var x, y := v / 16, v / 16 / 16;
    assert y / 16 < 16;
    assert v == x * 16 + v % 16 && x == y * 16 + x % 16 && y == y / 16 * 16 + y % 16;
  }

  lemma {:induction false} UnitsMeasured(c: seq<Byte>, p: nat, us: seq<Unit>)
    requires UnitsOk(us) && AllLoose(us) && At(c, p, Text(us) + [QUOTE])
    ensures Measure(c, p).Some? && Measure(c, p).value.end == p + |Text(us)|
    decreases |us|
  {
    hide UnitText, UnitOk, Loose;
    if us == [] {
      AtIndex(c, p, Text(us) + [QUOTE], 0);
    } else {
      Assoc(UnitText(us[0]), Text(us[1..]), [QUOTE]);
      AtParts(c, p, UnitText(us[0]), Text(us[1..]) + [QUOTE]);
      UnitsMeasured(c, p + |UnitText(us[0])|, us[1..]);
      UnitMeasured(c, p, us[0]);
    }
  }

  lemma {:induction false} UnitsRead(c: seq<Byte>, p: nat, us: seq<Unit>, end: nat)
    requires UnitsOk(us) && AllLoose(us) && At(c, p, Text(us)) && end == p + |Text(us)| < |c|
    ensures Unescape(c, p, end) == Some(Bytes(us))
    decreases |us|
  {
    hide UnitText, UnitBytes, UnitOk, Loose, At, Round;
    if us != [] {
      UnitLength(us[0]);
      AtParts(c, p, UnitText(us[0]), Text(us[1..]));
      UnitsRead(c, p + |UnitText(us[0])|, us[1..], end);
      UnitRead(c, p, us[0], end);
    }
  }

  lemma UnitLength(u: Unit)
    requires Loose(u)
    ensures |UnitText(u)| > 0
  {
  }

  lemma AllOkIsLoose(us: seq<Unit>)
    requires UnitsOk(us)
    ensures AllLoose(us)
  {
    forall i | 0 <= i < |us| ensures Loose(us[i]) { OkIsLoose(us[i]); }
  }

  // Any sequence of units between quotes is a string for cJSON.c, and stands for their bytes,
  // as far as the first zero byte among them.
  lemma UnitsAreLiteral(us: seq<Unit>)
    requires UnitsOk(us)
    ensures AllLoose(us) && Literal([QUOTE] + Text(us) + [QUOTE], CString(Bytes(us)))
    ensures 0 !in Bytes(us) ==> Literal([QUOTE] + Text(us) + [QUOTE], Bytes(us))
  {
    hide Text, Bytes, UnitsOk, AllLoose, At, Measure, Unescape, CString, ParseString, Literal;
    AllOkIsLoose(us);
    var t, m := Text(us), Bytes(us);
    var c := [QUOTE] + t + [QUOTE];
    Quotes(t);
    UnitsMeasured(c, 1, us);
    UnitsRead(c, 1, us, 1 + |t|);
    QuotedLiteral(t, m);
    if 0 !in m { CStringWhole(m); }
  }

  lemma QuotedLiteral(t: seq<Byte>, m: seq<Byte>)
    requires var c := [QUOTE] + t + [QUOTE];
             && Measure(c, 1).Some? && Measure(c, 1).value.end == 1 + |t| && Unescape(c, 1, 1 + |t|) == Some(m)
    ensures Literal([QUOTE] + t + [QUOTE], CString(m))
  {
    hide Measure, Unescape, CString;
    ParseStringIs([QUOTE] + t + [QUOTE], 0, 1 + |t|, m);
  }

  lemma Quotes(t: seq<Byte>)
    ensures var c := [QUOTE] + t + [QUOTE]; At(c, 1, t + [QUOTE]) && At(c, 1, t)
  {
  }

  // ---------- Whatever is read is such a string, more or less ----------

  lemma DigitKnown(b: Byte)
    ensures HexValue(b).Some? <==> b in LOWER || b in UPPER
    ensures HexValue(b).Some? ==> IsHex(b, HexValue(b).value)
  {
    if HexValue(b).Some? { HexMeaning(b, HexValue(b).value); }
    if b in LOWER { var i :| 0 <= i < |LOWER| && LOWER[i] == b; HexMeaning(b, i); }
    if b in UPPER { var i :| 0 <= i < |UPPER| && UPPER[i] == b; HexMeaning(b, i); }
  }

  lemma AllHexKnown(h: seq<Byte>)
    ensures AllHex(h) <==> forall i :: 0 <= i < |h| ==> HexValue(h[i]).Some?
  {
    forall b ensures HexValue(b).Some? <==> b in LOWER || b in UPPER { DigitKnown(b); }
    hide HexValue;
    if AllHex(h) {
      forall i | 0 <= i < |h| ensures HexValue(h[i]).Some? { assert h[i] in h; }
    }
  }

  lemma FourDigits(h: seq<Byte>, a: nat, b: nat, d: nat, e: nat)
    requires |h| == 4 && IsHex(h[0], a) && IsHex(h[1], b) && IsHex(h[2], d) && IsHex(h[3], e)
    ensures IsHex4(h, a * 0x1000 + b * 0x100 + d * 0x10 + e)
  {
    assert a < 16 && b < 16 && d < 16 && e < 16;
    hide IsHex;
    Quotients(a, b, d, e);
  }

  lemma Hex4Digits(c: seq<Byte>, p: nat)
    requires p + 4 <= |c| && HexValue(c[p]).Some? && HexValue(c[p + 1]).Some?
    requires HexValue(c[p + 2]).Some? && HexValue(c[p + 3]).Some?
    ensures IsHex4(c[p..p + 4], Hex4(c, p))
  {
    hide HexValue, IsHex, IsHex4;
    var h := c[p..p + 4];
    assert h[0] == c[p] && h[1] == c[p + 1] && h[2] == c[p + 2] && h[3] == c[p + 3];
    HexMeaning(h[0], HexValue(h[0]).value);
    HexMeaning(h[1], HexValue(h[1]).value);
    HexMeaning(h[2], HexValue(h[2]).value);
    HexMeaning(h[3], HexValue(h[3]).value);
    FourDigits(h, HexValue(h[0]).value, HexValue(h[1]).value, HexValue(h[2]).value, HexValue(h[3]).value);
  }

  lemma Hex4Known(c: seq<Byte>, p: nat)
    requires p + 4 <= |c|
    ensures var h := c[p..p + 4]; |h| == 4 && if AllHex(h) then IsHex4(h, Hex4(c, p)) else Hex4(c, p) == 0
  {
    hide AllHex, HexValue, IsHex, IsHex4;
    var h := c[p..p + 4];
    AllHexKnown(h);
    assert h[0] == c[p] && h[1] == c[p + 1] && h[2] == c[p + 2] && h[3] == c[p + 3];
    if AllHex(h) { Hex4Digits(c, p); }
  }

  lemma Quotients(a: nat, b: nat, d: nat, e: nat)
    requires a < 16 && b < 16 && d < 16 && e < 16
    ensures var v := a * 0x1000 + b * 0x100 + d * 0x10 + e;
            v / 16 / 16 / 16 == a && v / 16 / 16 % 16 == b && v / 16 % 16 == d && v % 16 == e
  {
    var v := a * 0x1000 + b * 0x100 + d * 0x10 + e;
    assert v / 16 == a * 0x100 + b * 0x10 + d;
    assert v / 16 / 16 == a * 0x10 + b;
  }

  lemma CodeAt(c: seq<Byte>, p: nat)
    requires p + 6 <= |c| && c[p] == BACKSLASH && c[p + 1] == 0x75
    ensures At(c, p, CodeText(c[p + 2..p + 6])) && |CodeText(c[p + 2..p + 6])| == 6
  {
  }

  lemma ShortOf(b: Byte) returns (i: nat)
    requires Unescaped(b).Some?
    ensures i < 8 && LETTERS[i] == b && CONTROLS[i] == Unescaped(b).value && (b == QUOTE ==> i == 0)
  {
    i := if b == QUOTE then 0 else if b == BACKSLASH then 1 else if b == 0x2F then 2 else if b == 0x62 then 3
      else if b == 0x66 then 4 else if b == 0x6E then 5 else if b == 0x72 then 6 else 7;
  }

  lemma Utf16Unit(c: seq<Byte>, p: nat, end: nat) returns (u: Unit)
    requires p < end < |c| && c[p] == BACKSLASH && c[p + 1] == 0x75 && Utf16(c, p, end).Some?
    ensures Loose(u) && At(c, p, UnitText(u)) && Utf16(c, p, end) == Some(Piece(|UnitText(u)|, UnitBytes(u)))
  {
    hide AllHex, IsHex4, Hex4, At, CodeText, Idna.Utf8;
    Hex4Known(c, p + 2);
    CodeAt(c, p);
    var first := Hex4(c, p + 2);
    if 0xD800 <= first <= 0xDBFF {
      u := PairUnit(c, p, end);
    } else {
      u := Code(c[p + 2..p + 6], first);
    }
  }

  lemma PairUnit(c: seq<Byte>, p: nat, end: nat) returns (u: Unit)
    requires p + 12 <= end < |c| && c[p] == BACKSLASH && c[p + 1] == 0x75 && c[p + 6] == BACKSLASH && c[p + 7] == 0x75
    requires 0xD800 <= Hex4(c, p + 2) <= 0xDBFF && 0xDC00 <= Hex4(c, p + 8) <= 0xDFFF
    ensures Loose(u) && At(c, p, UnitText(u)) && Utf16(c, p, end) == Some(Piece(|UnitText(u)|, UnitBytes(u)))
  {
    hide AllHex, IsHex4, Hex4, At, CodeText, Idna.Utf8, Utf16;
    Hex4Known(c, p + 2);
    Hex4Known(c, p + 8);
    CodeAt(c, p);
    CodeAt(c, p + 6);
    var cp := PairPoint(Hex4(c, p + 2), Hex4(c, p + 8));
    u := Pair(c[p + 2..p + 6], c[p + 8..p + 12], cp);
    AtJoin(c, p, CodeText(u.hi), CodeText(u.lo));
    assert Writes(c, p, end, cp);
    Utf16Meaning(c, p, end, cp);
  }

  lemma PairPoint(first: nat, second: nat) returns (cp: nat)
    requires 0xD800 <= first <= 0xDBFF && 0xDC00 <= second <= 0xDFFF
    ensures 0x10000 <= cp <= 0x10FFFF
    ensures first == 0xD800 + (cp - 0x10000) / 0x400 && second == 0xDC00 + (cp - 0x10000) % 0x400
  {
    var h, l := first - 0xD800, second - 0xDC00;
    var x := h * 0x400 + l;
    assert x / 0x400 == h && x % 0x400 == l;
    cp := 0x10000 + x;
  }

  lemma RoundUnit(c: seq<Byte>, p: nat, end: nat) returns (u: Unit)
    requires p < end < |c| && c[end] == QUOTE && Round(c, p, end).Some?
    ensures Loose(u) && At(c, p, UnitText(u)) && Round(c, p, end) == Some(Piece(|UnitText(u)|, UnitBytes(u)))
    ensures |UnitText(u)| > 0 && p + |UnitText(u)| <= end + 1 && (p + |UnitText(u)| == end + 1 ==> u == Short(0))
  {
    if c[p] != BACKSLASH {
      u := Plain(c[p]);
    } else if c[p + 1] == 0x75 {
      u := Utf16Unit(c, p, end);
      hide UnitText, UnitBytes, At, Loose;
    } else {
      var i := ShortOf(c[p + 1]);
      u := Short(i);
    }
  }

  lemma {:induction false} UnitsOf(c: seq<Byte>, p: nat, end: nat) returns (us: seq<Unit>)
    requires p <= end < |c| && c[end] == QUOTE && Unescape(c, p, end).Some?
    ensures AllLoose(us) && At(c, p, Text(us)) && Unescape(c, p, end) == Some(Bytes(us))
    ensures p + |Text(us)| == end || (p + |Text(us)| == end + 1 && us != [] && us[|us| - 1] == Short(0))
    decreases end - p
  {
    hide UnitText, UnitBytes, At, Loose, Round;
    if p == end {
      us := [];
      AtNothing(c, p);
    } else {
      var u := RoundUnit(c, p, end);
      var q := p + |UnitText(u)|;
      if q <= end {
        var rest := UnitsOf(c, q, end);
        us := [u] + rest;
        assert us[1..] == rest;
        AtJoin(c, p, UnitText(u), Text(rest));
      } else {
        us := [u];
        assert us[1..] == [];
        assert UnitText(u) + [] == UnitText(u) && UnitBytes(u) + [] == UnitBytes(u);
      }
    }
  }

  lemma AtNothing(c: seq<Byte>, p: nat)
    requires p <= |c|
    ensures At(c, p, [])
  {
  }

  // A string that cJSON.c accepts consists of units, in the loose sense, up to its closing
  // quote, which the last of them may have taken for its own.
  lemma LiteralIsUnits(tok: seq<Byte>, s: seq<Byte>) returns (us: seq<Unit>)
    requires Literal(tok, s)
    ensures |tok| >= 2 && tok[0] == QUOTE && tok[|tok| - 1] == QUOTE && AllLoose(us) && s == CString(Bytes(us))
    ensures Text(us) == tok[1..|tok| - 1] || (Text(us) == tok[1..] && us != [] && us[|us| - 1] == Short(0))
  {
    us := UnitsOf(tok, 1, |tok| - 1);
    hide Text, Bytes, Unescape, Measure, AllLoose, CString;
    AtSlice(tok, 1, Text(us));
  }

  // ---------- Which of them are strings of RFC 8259 ----------

  // From p to end, every \u is followed by four hexadecimal digits.
  predicate HexFollows(c: seq<Byte>, p: nat, end: nat)
    requires end <= |c|
    decreases end - p
  {
    if p >= end then true
    else if c[p] != BACKSLASH then HexFollows(c, p + 1, end)
    else if p + 1 < end && c[p + 1] == 0x75 then
      p + 6 <= end && AllHex(c[p + 2..p + 6]) && HexFollows(c, p + 6, end)
    else HexFollows(c, p + 2, end)
  }

  // A unit that the second pass has read where digits follow is a proper one.
  lemma ProperUnit(c: seq<Byte>, p: nat, end: nat) returns (u: Unit)
    requires p < end < |c| && c[end] == QUOTE && Round(c, p, end).Some? && HexFollows(c, p, end)
    requires Measure(c, p).Some? && Measure(c, p).value.end == end
    ensures UnitOk(u) && Loose(u) && At(c, p, UnitText(u))
    ensures Round(c, p, end) == Some(Piece(|UnitText(u)|, UnitBytes(u)))
    ensures |UnitText(u)| > 0 && HexFollows(c, p + |UnitText(u)|, end)
  {
    hide Round, Measure, At, CodeText, IsHex4, AllHex, HexFollows, UnitBytes;
    u := RoundUnit(c, p, end);
    match u
    case Plain(b) => ProperPlain(c, p, end, b);
    case Short(i) => ShortFollowed(c, p, end, i);
    case Code(h, cp) =>
      SixLong(h);
      ProperCode(c, p, end, h, cp);
    case Pair(h, l, cp) =>
      FourLong(h, l, cp);
      ProperPair(c, p, end, h, l, cp);
  }

  lemma SixLong(h: seq<Byte>)
    requires |h| == 4
    ensures |CodeText(h)| == 6
  {
  }

  lemma ProperPlain(c: seq<Byte>, p: nat, end: nat, b: Byte)
    requires b != BACKSLASH && At(c, p, [b]) && p < end <= |c| && HexFollows(c, p, end)
    requires Measure(c, p).Some? && Measure(c, p).value.end == end
    ensures b != QUOTE && HexFollows(c, p + 1, end)
  {
    AtIndex(c, p, [b], 0);
  }

  lemma ShortFollowed(c: seq<Byte>, p: nat, end: nat, i: nat)
    requires i < 8 && At(c, p, [BACKSLASH, LETTERS[i]]) && p < end <= |c|
    ensures HexFollows(c, p, end) <==> HexFollows(c, p + 2, end)
  {
    AtIndex(c, p, [BACKSLASH, LETTERS[i]], 0);
    AtIndex(c, p, [BACKSLASH, LETTERS[i]], 1);
  }

  lemma ProperCode(c: seq<Byte>, p: nat, end: nat, h: seq<Byte>, cp: nat)
    requires Loose(Code(h, cp)) && At(c, p, CodeText(h)) && p + 1 < end < |c| && HexFollows(c, p, end)
    ensures UnitOk(Code(h, cp)) && |CodeText(h)| == 6 && HexFollows(c, p + 6, end)
  {
    hide HexFollows, At, IsHex4, AllHex;
    CodeFollowed(c, p, h, end);
  }

  lemma ProperPair(c: seq<Byte>, p: nat, end: nat, h: seq<Byte>, l: seq<Byte>, cp: nat)
    requires UnitOk(Pair(h, l, cp)) && At(c, p, CodeText(h) + CodeText(l)) && p + 7 < end < |c| && HexFollows(c, p, end)
    ensures |CodeText(h) + CodeText(l)| == 12 && HexFollows(c, p + 12, end)
  {
    hide HexFollows, At, IsHex4, AllHex;
    CodeLength(h, 0xD800 + (cp - 0x10000) / 0x400);
    CodeLength(l, 0xDC00 + (cp - 0x10000) % 0x400);
    AtParts(c, p, CodeText(h), CodeText(l));
    FourLong(h, l, cp);
    CodeFollowed(c, p, h, end);
    CodeFollowed(c, p + 6, l, end);
  }

  lemma FourLong(h: seq<Byte>, l: seq<Byte>, cp: nat)
    requires UnitOk(Pair(h, l, cp))
    ensures |h| == 4 && |l| == 4 && |CodeText(h) + CodeText(l)| == 12
  {
  }

  lemma CodeFollowed(c: seq<Byte>, p: nat, h: seq<Byte>, end: nat)
    requires |h| == 4 && At(c, p, CodeText(h)) && p + 1 < end < |c|
    ensures HexFollows(c, p, end) <==> p + 6 <= end && AllHex(h) && HexFollows(c, p + 6, end)
  {
    var t := CodeText(h);
    AtIndex(c, p, t, 0);
    AtIndex(c, p, t, 1);
    AtParts(c, p, [BACKSLASH, 0x75], h);
    assert c[p + 2..p + 6] == h;
  }

  lemma {:induction false} ProperUnits(c: seq<Byte>, p: nat, end: nat) returns (us: seq<Unit>)
    requires p <= end < |c| && c[end] == QUOTE && Unescape(c, p, end).Some? && HexFollows(c, p, end)
    requires Measure(c, p).Some? && Measure(c, p).value.end == end
    ensures UnitsOk(us) && AllLoose(us) && At(c, p, Text(us)) && Unescape(c, p, end) == Some(Bytes(us))
    ensures p + |Text(us)| == end
    decreases end - p
  {
    hide UnitText, UnitBytes, UnitOk, Loose, At, Round, Measure, HexFollows;
    if p == end {
      us := [];
      AtNothing(c, p);
    } else {
      var u := ProperUnit(c, p, end);
      UnitMeasured(c, p, u);
      var rest := ProperUnits(c, p + |UnitText(u)|, end);
      us := [u] + rest;
      assert us[1..] == rest;
      AtJoin(c, p, UnitText(u), Text(rest));
    }
  }

  lemma HexDigits(h: seq<Byte>, v: nat)
    requires IsHex4(h, v)
    ensures AllHex(h)
  {
    forall b | b in h ensures b in LOWER || b in UPPER {
      var i :| 0 <= i < 4 && h[i] == b;
      var d := if i == 0 then v / 16 / 16 / 16 else if i == 1 then v / 16 / 16 % 16 else if i == 2 then v / 16 % 16
        else v % 16;
      assert IsHex(h[i], d);
    }
  }

  lemma UnitFollowed(c: seq<Byte>, p: nat, u: Unit, end: nat)
    requires UnitOk(u) && Loose(u) && At(c, p, UnitText(u)) && p + |UnitText(u)| <= end < |c|
    requires HexFollows(c, p + |UnitText(u)|, end)
    ensures HexFollows(c, p, end)
  {
    hide At, IsHex4, AllHex;
    match u
    case Plain(b) => AtIndex(c, p, [b], 0);
    case Short(i) => ShortFollowed(c, p, end, i);
    case Code(h, cp) =>
      HexDigits(h, cp);
      CodeLength(h, cp);
      CodeFollowed(c, p, h, end);
    case Pair(h, l, cp) =>
      var x, y := 0xD800 + (cp - 0x10000) / 0x400, 0xDC00 + (cp - 0x10000) % 0x400;
      HexDigits(h, x);
      HexDigits(l, y);
      CodeLength(h, x);
      CodeLength(l, y);
      AtParts(c, p, CodeText(h), CodeText(l));
      CodeFollowed(c, p + 6, l, end);
      CodeFollowed(c, p, h, end);
  }

  lemma {:induction false} UnitsFollowed(c: seq<Byte>, p: nat, us: seq<Unit>, end: nat)
    requires UnitsOk(us) && AllLoose(us) && At(c, p, Text(us)) && end == p + |Text(us)| < |c|
    ensures HexFollows(c, p, end)
    decreases |us|
  {
    hide UnitText, UnitOk, Loose, At;
    if us != [] {
      AtParts(c, p, UnitText(us[0]), Text(us[1..]));
      UnitsFollowed(c, p + |UnitText(us[0])|, us[1..], end);
      UnitFollowed(c, p, us[0], end);
    }
  }

  // A string that cJSON.c accepts is a sequence of proper units, which stand for what it has
  // read, exactly if four hexadecimal digits follow every \u in it.
  lemma ProperIffHexFollows(tok: seq<Byte>, s: seq<Byte>)
    requires Literal(tok, s)
    ensures |tok| >= 2
    ensures HexFollows(tok, 1, |tok| - 1) <==>
      exists us :: UnitsOk(us) && AllLoose(us) && tok == [QUOTE] + Text(us) + [QUOTE] && s == CString(Bytes(us))
  {
    hide Text, Bytes, UnitsOk, AllLoose, At, HexFollows, Measure, Unescape, CString;
    var end := |tok| - 1;
    if HexFollows(tok, 1, end) {
      var us := ProperUnits(tok, 1, end);
      AtSlice(tok, 1, Text(us));
      assert tok == [tok[0]] + tok[1..end] + [tok[end]];
    }
    if us :| UnitsOk(us) && AllLoose(us) && tok == [QUOTE] + Text(us) + [QUOTE] && s == CString(Bytes(us)) {
      Quotes(Text(us));
      UnitsFollowed(tok, 1, us, end);
    }
  }

  // For instance, the eight bytes "\uzzzz" are read as the empty string.
  lemma LooseWitness(tok: seq<Byte>)
    requires tok == [QUOTE, BACKSLASH, 0x75, 0x7A, 0x7A, 0x7A, 0x7A, QUOTE]
    ensures Literal(tok, []) && !HexFollows(tok, 1, 7)
  {
    hide Idna.Utf8;
    assert Measure(tok, 7).Some?;
    assert Measure(tok, 5).Some? && Measure(tok, 5).value.end == 7;
    assert Measure(tok, 3).Some? && Measure(tok, 3).value.end == 7;
    assert Utf16(tok, 1, 7) == Some(Piece(6, Idna.Utf8(0)));
    NulIsZero();
    assert Unescape(tok, 7, 7) == Some([]);
    assert Unescape(tok, 1, 7) == Some([0] + []);
    assert tok[3..7] == [0x7A, 0x7A, 0x7A, 0x7A];
    assert 0x7A in tok[3..7] && 0x7A !in LOWER && 0x7A !in UPPER;
  }

  lemma NulIsZero()
    ensures Idna.Utf8(0) == [0]
  {
  }

  // ---------- What printing a string writes ----------

  function UnitOf(b: Byte): Unit {
    if b == QUOTE then Short(0) else if b == BACKSLASH then Short(1) else if b == 8 then Short(3)
    else if b == 12 then Short(4) else if b == 10 then Short(5) else if b == 13 then Short(6)
    else if b == 9 then Short(7)
    else if b < 32 then Code([0x30, 0x30, LOWER[b / 16], LOWER[b % 16]], b)
    else Plain(b)
  }

  lemma CodeOf(b: Byte)
    requires b < 32
    ensures var h := [0x30, 0x30, LOWER[b / 16], LOWER[b % 16]];
            IsHex4(h, b) && CodeText(h) == [BACKSLASH, 0x75, 0x30, 0x30, HexDigit(b / 16), HexDigit(b % 16)]
  {
  }

  // The escape sequence of two characters where there is one, four digits for the other
  // control characters, and every other byte as it is.
  lemma UnitOfMeaning(b: Byte)
    ensures var u := UnitOf(b);
            && UnitOk(u) && Loose(u) && UnitBytes(u) == [b] && Escaped(b) == UnitText(u)
            && (u.Plain? <==> b >= 32 && b != QUOTE && b != BACKSLASH)
            && (u.Short? <==> b in {QUOTE, BACKSLASH, 8, 9, 10, 12, 13})
            && (u.Code? ==> u.cp == b && u.h == [0x30, 0x30, LOWER[b / 16], LOWER[b % 16]])
  {
    if UnitOf(b).Code? {
      CodeOf(b);
      hide IsHex4, CodeText, HexDigit;
    }
  }

  function UnitsFor(s: seq<Byte>): seq<Unit> { if s == [] then [] else [UnitOf(s[0])] + UnitsFor(s[1..]) }

  lemma {:induction false} PrintedUnits(s: seq<Byte>)
    ensures var us := UnitsFor(s);
            && |us| == |s| && UnitsOk(us) && AllLoose(us) && EscapedAll(s) == Text(us) && Bytes(us) == s
            && (forall i :: 0 <= i < |s| ==> us[i] == UnitOf(s[i]))
  {
    if s != [] {
      UnitOfMeaning(s[0]);
      PrintedUnits(s[1..]);
      hide UnitOk, Loose, UnitBytes, UnitText, UnitOf;
      assert UnitsFor(s)[1..] == UnitsFor(s[1..]);
    }
  }

  // print_string_ptr writes one unit per byte, between quotes.
  lemma QuotedMeaning(s: seq<Byte>) returns (us: seq<Unit>)
    ensures UnitsOk(us) && AllLoose(us) && Quoted(s) == [QUOTE] + Text(us) + [QUOTE] && Bytes(us) == s && |us| == |s|
    ensures forall i :: 0 <= i < |s| ==>
              && (us[i].Plain? <==> s[i] >= 32 && s[i] != QUOTE && s[i] != BACKSLASH)
              && (us[i].Short? <==> s[i] in {QUOTE, BACKSLASH, 8, 9, 10, 12, 13})
              && (us[i].Code? ==> us[i].cp == s[i])
  {
    us := UnitsFor(s);
    PrintedUnits(s);
    forall i | 0 <= i < |s|
      ensures (us[i].Plain? <==> s[i] >= 32 && s[i] != QUOTE && s[i] != BACKSLASH)
      ensures (us[i].Short? <==> s[i] in {QUOTE, BACKSLASH, 8, 9, 10, 12, 13}) && (us[i].Code? ==> us[i].cp == s[i])
    {
      UnitOfMeaning(s[i]);
    }
    hide Text, Bytes, UnitOf, UnitOk, Loose, UnitsFor, EscapedAll;
  }

  // ---------- RFC 8259 ----------

  // Section 2: white space.
  predicate RfcBlank(w: seq<Byte>) { forall i :: 0 <= i < |w| ==> w[i] in {0x20, 0x09, 0x0A, 0x0D} }

  // Section 7: a string of units that stands for s, without the character U+0000, which ends
  // a string of cJSON.c.
  ghost predicate RfcString(tok: seq<Byte>, s: seq<Byte>) {
    exists us :: UnitsOk(us) && AllLoose(us) && tok == [QUOTE] + Text(us) + [QUOTE] && s == Bytes(us) && 0 !in s
  }

  ghost predicate Rfc(d: Doc)
    decreases d
  {
    match d
    case StrDoc(tok, s) => RfcString(tok, s)
    case ArrDoc(b, x) => RfcBlank(b) && RfcItems(x)
    case ObjDoc(b, x) => RfcBlank(b) && RfcMembers(x)
    case _ => true
  }

  ghost predicate RfcItems(x: ItemDocs)
    decreases x
  { x.NoItems? || (Rfc(x.value) && RfcBlank(x.after) && RfcBlank(x.before) && RfcItems(x.next)) }

  ghost predicate RfcMembers(x: MemberDocs)
    decreases x
  {
    x.NoMembers?
    || (&& RfcString(x.tok, x.key) && RfcBlank(x.colonBefore) && RfcBlank(x.colonAfter)
        && Rfc(x.value) && RfcBlank(x.after) && RfcBlank(x.before) && RfcMembers(x.next))
  }

  lemma RfcStringIsLiteral(tok: seq<Byte>, s: seq<Byte>)
    requires RfcString(tok, s)
    ensures Literal(tok, s)
  {
    var us :| UnitsOk(us) && AllLoose(us) && tok == [QUOTE] + Text(us) + [QUOTE] && s == Bytes(us) && 0 !in s;
    UnitsAreLiteral(us);
  }

  lemma {:induction false} RfcIsSound(d: Doc)
    requires Rfc(d)
    ensures Sound(d)
    decreases d, 1
  {
    match d
    case StrDoc(tok, s) => RfcStringIsLiteral(tok, s);
    case ArrDoc(_, x) => RfcItemsAreSound(x);
    case ObjDoc(_, x) => RfcMembersAreSound(x);
    case _ =>
  }

  lemma {:induction false} RfcItemsAreSound(x: ItemDocs)
    requires RfcItems(x)
    ensures SoundItems(x)
    decreases x, 0
  {
    if x.AnItem? {
      RfcIsSound(x.value);
      RfcItemsAreSound(x.next);
    }
  }

  lemma {:induction false} RfcMembersAreSound(x: MemberDocs)
    requires RfcMembers(x)
    ensures SoundMembers(x)
    decreases x, 0
  {
    if x.AMember? {
      RfcStringIsLiteral(x.tok, x.key);
      RfcIsSound(x.value);
      RfcMembersAreSound(x.next);
      hide Literal, RfcString;
    }
  }

  // Every JSON text of RFC 8259 without numbers and without U+0000, with any white space and
  // any escape sequences, is parsed to what it means, unless it is nested too deep.
  lemma RfcTextsAreParsed(w: seq<Byte>, d: Doc, z: seq<Byte>)
    requires RfcBlank(w) && Rfc(d) && RfcBlank(z)
    ensures Nesting(Mean(d)) <= NESTING_LIMIT ==> ParseText(w + Spell(d) + z, false) == Done(Mean(d))
    ensures Nesting(Mean(d)) > NESTING_LIMIT ==> ParseText(w + Spell(d) + z, false) == Failed(false)
    ensures Nesting(Mean(d)) <= NESTING_LIMIT ==> ParseText(w + Spell(d) + z + [0], true) == Done(Mean(d))
  {
    hide Rfc, Sound, Spell, SpellWhole, Mean, Nesting, ParseText;
    RfcIsSound(d);
    var x, y := Whole(false, w, d, z), Whole(false, w, d, z + [0]);
    WholeSpells(w, d, z);
    WholeSpells(w, d, z + [0]);
    Assoc(w + Spell(d), z, [0]);
    if Nesting(Mean(d)) <= NESTING_LIMIT {
      WholeAccepted(x, false);
      WholeAccepted(y, true);
    } else {
      WholeTooDeep(x, false);
    }
  }

  lemma WholeSpells(w: seq<Byte>, d: Doc, z: seq<Byte>)
    ensures SpellWhole(Whole(false, w, d, z)) == w + Spell(d) + z
  {
    hide Spell;
    assert [] + w == w;
  }
}
