// Strings in cJSON.c: print_string_ptr, which counts before it writes, and parse_string,
// which allocates from a first pass and fills in a second one.

module CJsonStrings {

  import Idna
  import opened Wrappers

  type Byte = Idna.Byte

  const QUOTE: Byte := 0x22
  const BACKSLASH: Byte := 0x5C

  // ---------- Printing ----------

  function HexDigit(v: nat): Byte
    requires v < 16
  { if v < 10 then 0x30 + v else 0x61 + (v - 10) }

  // The letter of a two-character escape sequence, or 0.
  function EscapeLetter(b: Byte): Byte {
    if b == QUOTE || b == BACKSLASH then b
    else if b == 8 then 0x62 else if b == 12 then 0x66 else if b == 10 then 0x6E else if b == 13 then 0x72
      else if b == 9 then 0x74
    else 0
  }

  function Escaped(b: Byte): (r: seq<Byte>)
    ensures 1 <= |r| <= 6
  {
    if EscapeLetter(b) != 0 then [BACKSLASH, EscapeLetter(b)]
    else if b < 32 then [BACKSLASH, 0x75, 0x30, 0x30, HexDigit(b / 16), HexDigit(b % 16)]
    else [b]
  }

  function EscapedAll(s: seq<Byte>): seq<Byte> { if s == [] then [] else Escaped(s[0]) + EscapedAll(s[1..]) }

  function Quoted(s: seq<Byte>): seq<Byte> { [QUOTE] + EscapedAll(s) + [QUOTE] }

  // ---------- Parsing ----------

  function HexValue(b: Byte): Option<nat> {
    if 0x30 <= b <= 0x39 then Some(b - 0x30)
    else if 0x41 <= b <= 0x46 then Some(10 + b - 0x41)
    else if 0x61 <= b <= 0x66 then Some(10 + b - 0x61)
    else None
  }

  // parse_hex4, which yields 0 for what is not four digits.
  function Hex4(c: seq<Byte>, p: nat): (r: nat)
    requires p + 4 <= |c|
    ensures r < 0x10000
  {
    var a, b, d, e := HexValue(c[p]), HexValue(c[p + 1]), HexValue(c[p + 2]), HexValue(c[p + 3]);
    if a.None? || b.None? || d.None? || e.None? then 0
      else a.value * 0x1000 + b.value * 0x100 + d.value * 0x10 + e.value
  }

  datatype Piece = Piece(len: nat, out: seq<Byte>)

  // utf16_literal_to_utf8 at p, where the string ends at end.
  function Utf16(c: seq<Byte>, p: nat, end: nat): (r: Option<Piece>)
    requires p <= end <= |c|
    ensures r.Some? ==> p + r.value.len <= end
    ensures r.Some? ==> (r.value.len == 6 && |r.value.out| <= 3) || (r.value.len == 12 && |r.value.out| == 4)
  {
    if end - p < 6 then None
    else
      var first := Hex4(c, p + 2);
      if 0xDC00 <= first <= 0xDFFF then None
      else if 0xD800 <= first <= 0xDBFF then
        if end - p < 12 || c[p + 6] != BACKSLASH || c[p + 7] != 0x75 then None
        else
          var second := Hex4(c, p + 8);
          if second < 0xDC00 || second > 0xDFFF then None
          else Some(Piece(12, Idna.Utf8(0x10000 + first % 0x400 * 0x400 + second % 0x400)))
      else Some(Piece(6, Idna.Utf8(first)))
  }

  // What a two-character escape sequence stands for.
  function Unescaped(b: Byte): Option<Byte> {
    if b == 0x62 then Some(8) else if b == 0x66 then Some(12) else if b == 0x6E then Some(10)
    else if b == 0x72 then Some(13) else if b == 0x74 then Some(9)
    else if b == QUOTE || b == BACKSLASH || b == 0x2F then Some(b)
    else None
  }

  // One round of the second pass. The character behind a backslash may be the closing quote.
  function Round(c: seq<Byte>, p: nat, end: nat): (r: Option<Piece>)
    requires p < end < |c|
    ensures r.Some? ==> r.value.len > 0
  {
    if c[p] != BACKSLASH then Some(Piece(1, [c[p]]))
    else if c[p + 1] == 0x75 then Utf16(c, p, end)
    else
      var b := Unescaped(c[p + 1]);
      if b.None? then None else Some(Piece(2, [b.value]))
  }

  // The second pass from p on.
  function Unescape(c: seq<Byte>, p: nat, end: nat): Option<seq<Byte>>
    requires end < |c|
    decreases end - p
  {
    if p >= end then Some([])
    else
      var r := Round(c, p, end);
      if r.None? then None
      else
        var rest := Unescape(c, p + r.value.len, end);
        if rest.None? then None else Some(r.value.out + rest.value)
  }

  // The first pass from q on: the position of the closing quote and the backslashes skipped.
  datatype Extent = Extent(end: nat, skipped: nat)

  function Measure(c: seq<Byte>, q: nat): (r: Option<Extent>)
    decreases |c| - q
    ensures r.Some? ==> q <= r.value.end < |c| && c[r.value.end] == QUOTE
  {
    if q >= |c| then None
    else if c[q] == QUOTE then Some(Extent(q, 0))
    else if c[q] != BACKSLASH then Measure(c, q + 1)
    else if q + 1 >= |c| then None
    else
      var r := Measure(c, q + 2);
      if r.None? then None else Some(Extent(r.value.end, r.value.skipped + 1))
  }

  // The text of a C string in a buffer.
  function CString(s: seq<Byte>): seq<Byte> { if s == [] || s[0] == 0 then [] else [s[0]] + CString(s[1..]) }

  datatype Parsed = Parsed(s: seq<Byte>, next: nat)

  // overread says that the code has read the byte behind the end of the buffer.
  datatype Parsing<T> = Done(value: T) | Failed(overread: bool)

  // parse_string at the offset o. At the end of the buffer it reads the byte behind it, and
  // fails whatever that byte is.
  function ParseString(c: seq<Byte>, o: nat): (r: Parsing<Parsed>)
    requires o <= |c|
    ensures r.Done? ==> o + 1 < r.value.next <= |c|
    ensures r == Failed(true) <==> o == |c|
  {
    if o == |c| then Failed(true)
    else if c[o] != QUOTE then Failed(false)
    else
      var m := Measure(c, o + 1);
      if m.None? then Failed(false)
      else
        var u := Unescape(c, o + 1, m.value.end);
        if u.None? then Failed(false) else Done(Parsed(CString(u.value), m.value.end + 1))
  }

  // ---------- The second pass stays within what the first has measured ----------

  // The positions in [a, b) at which the first pass from q sees an escape sequence begin.
  function Starts(c: seq<Byte>, q: nat, a: nat, b: nat): nat
    decreases |c| - q
  {
    if q >= |c| || q >= b || c[q] == QUOTE then 0
    else if c[q] != BACKSLASH then Starts(c, q + 1, a, b)
    else (if a <= q then 1 else 0) + Starts(c, q + 2, a, b)
  }

  // All of them, up to the closing quote.
  lemma {:induction false} StartsAll(c: seq<Byte>, q: nat, a: nat)
    requires Measure(c, q).Some? && a <= q
    ensures Starts(c, q, a, Measure(c, q).value.end) == Measure(c, q).value.skipped
    decreases |c| - q
  {
    if c[q] == QUOTE {
    } else if c[q] != BACKSLASH {
      StartsAll(c, q + 1, a);
    } else {
      StartsAll(c, q + 2, a);
    }
  }

  lemma {:induction false} StartsSplit(c: seq<Byte>, q: nat, a: nat, m: nat, b: nat)
    requires a <= m <= b
    ensures Starts(c, q, a, b) == Starts(c, q, a, m) + Starts(c, q, m, b)
    decreases |c| - q
  {
    if q < |c| && q < b && c[q] != QUOTE {
      if c[q] != BACKSLASH { StartsSplit(c, q + 1, a, m, b); } else { StartsSplit(c, q + 2, a, m, b); }
    }
  }

  // Escape sequences of the first pass do not overlap.
  lemma {:induction false} StartsSparse(c: seq<Byte>, q: nat, a: nat, b: nat)
    requires a <= b
    ensures 2 * Starts(c, q, a, b) <= b - a + 1
    ensures q >= a && q <= b ==> 2 * Starts(c, q, a, b) <= b - q + 1
    decreases |c| - q
  {
    if q < |c| && q < b && c[q] != QUOTE {
      StartsSparse(c, if c[q] != BACKSLASH then q + 1 else q + 2, a, b);
    }
  }

  lemma {:induction false} StartsAt(c: seq<Byte>, q: nat, p: nat)
    requires p < |c| && c[p] != BACKSLASH
    ensures Starts(c, q, p, p + 1) == 0
    decreases |c| - q
  {
    if q < |c| && q < p + 1 && c[q] != QUOTE {
      StartsAt(c, if c[q] != BACKSLASH then q + 1 else q + 2, p);
    }
  }

  // No escape sequence of the first pass begins just before the closing quote.
  lemma {:induction false} NoStartAtLast(c: seq<Byte>, q: nat)
    requires Measure(c, q).Some? && q < Measure(c, q).value.end
    ensures Starts(c, q, Measure(c, q).value.end - 1, Measure(c, q).value.end) == 0
    decreases |c| - q
  {
    var end := Measure(c, q).value.end;
    var next := if c[q] != BACKSLASH then q + 1 else q + 2;
    if next < end { NoStartAtLast(c, next); }
  }

  // What one round writes, and the escape sequences counted in what it reads.
  lemma RoundBound(c: seq<Byte>, q: nat, p: nat)
    requires Measure(c, q).Some? && q <= p < Measure(c, q).value.end && Round(c, p, Measure(c, q).value.end).Some?
    ensures var end := Measure(c, q).value.end; var r := Round(c, p, end).value;
            var stop := if p + r.len <= end then p + r.len else end;
            |r.out| + Starts(c, q, p, stop) <= stop - p
  {
    var end := Measure(c, q).value.end;
    var r := Round(c, p, end).value;
    var stop := if p + r.len <= end then p + r.len else end;
    StartsSparse(c, q, p, stop);
    if c[p] != BACKSLASH { StartsAt(c, q, p); }
    if p + r.len > end { NoStartAtLast(c, q); }
  }

  // Even when \u sequences put the two passes out of step, the second writes no more bytes
  // than the string has, less the backslashes counted by the first.
  lemma {:induction false} OutputBound(c: seq<Byte>, q: nat, p: nat)
    requires Measure(c, q).Some? && q <= p && Unescape(c, p, Measure(c, q).value.end).Some?
    ensures var end := Measure(c, q).value.end; var out := Unescape(c, p, end).value;
            |out| + Starts(c, q, p, end) <= if p <= end then end - p else 0
    decreases Measure(c, q).value.end - p
  {
    var end := Measure(c, q).value.end;
    if p < end {
      var r := Round(c, p, end).value;
      var stop := if p + r.len <= end then p + r.len else end;
      OutputBound(c, q, p + r.len);
      RoundBound(c, q, p);
      StartsSplit(c, q, p, stop, end);
      EmptyStarts(c, q, end, end);
    } else {
      EmptyStarts(c, q, p, end);
    }
  }

  lemma {:induction false} EmptyStarts(c: seq<Byte>, q: nat, a: nat, b: nat)
    requires b <= a
    ensures Starts(c, q, a, b) == 0
    decreases |c| - q
  {
    if q < |c| && q < b { EmptyStarts(c, if c[q] != BACKSLASH then q + 1 else q + 2, a, b); }
  }

  // The allocation of parse_string: the bytes and the NUL fit, with one byte to spare.
  lemma AllocationSuffices(c: seq<Byte>, o: nat)
    requires o < |c| && Measure(c, o + 1).Some? && Unescape(c, o + 1, Measure(c, o + 1).value.end).Some?
    ensures var m := Measure(c, o + 1).value; var room := m.end - o - m.skipped + 1;
            |Unescape(c, o + 1, m.end).value| + 2 <= room
  {
    OutputBound(c, o + 1, o + 1);
    StartsAll(c, o + 1, o + 1);
  }

  // ---------- Printing and parsing back ----------

  ghost predicate At(c: seq<Byte>, p: nat, t: seq<Byte>) {
    p + |t| <= |c| && forall i :: 0 <= i < |t| ==> c[p + i] == t[i]
  }

  lemma AtParts(c: seq<Byte>, p: nat, t: seq<Byte>, u: seq<Byte>)
    requires At(c, p, t + u)
    ensures At(c, p, t) && At(c, p + |t|, u)
  {
    forall i | 0 <= i < |t| ensures c[p + i] == t[i] { assert c[p + i] == (t + u)[i]; }
    forall i | 0 <= i < |u| ensures c[p + |t| + i] == u[i] { assert c[p + (|t| + i)] == (t + u)[|t| + i]; }
  }

  lemma AtIndex(c: seq<Byte>, p: nat, t: seq<Byte>, i: nat)
    requires At(c, p, t) && i < |t|
    ensures c[p + i] == t[i]
  {
  }

  lemma MeasureOne(c: seq<Byte>, p: nat, b: Byte)
    requires At(c, p, Escaped(b)) && Measure(c, p + |Escaped(b)|).Some?
    ensures Measure(c, p).Some? && Measure(c, p).value.end == Measure(c, p + |Escaped(b)|).value.end
  {
    AtIndex(c, p, Escaped(b), 0);
    if |Escaped(b)| == 6 {
      AtIndex(c, p, Escaped(b), 2);
      AtIndex(c, p, Escaped(b), 3);
      AtIndex(c, p, Escaped(b), 4);
      AtIndex(c, p, Escaped(b), 5);
      var e := Measure(c, p + 6).value.end;
      assert Measure(c, p + 5).Some? && Measure(c, p + 5).value.end == e;
      assert Measure(c, p + 4).Some? && Measure(c, p + 4).value.end == e;
      assert Measure(c, p + 3).Some? && Measure(c, p + 3).value.end == e;
      assert Measure(c, p + 2).Some? && Measure(c, p + 2).value.end == e;
    }
  }

  lemma {:induction false} MeasureAll(c: seq<Byte>, p: nat, s: seq<Byte>)
    requires At(c, p, EscapedAll(s) + [QUOTE])
    ensures Measure(c, p).Some? && Measure(c, p).value.end == p + |EscapedAll(s)|
    decreases |s|
  {
    if s == [] {
      AtIndex(c, p, EscapedAll(s) + [QUOTE], 0);
    } else {
      assert EscapedAll(s) + [QUOTE] == Escaped(s[0]) + (EscapedAll(s[1..]) + [QUOTE]);
      AtParts(c, p, Escaped(s[0]), EscapedAll(s[1..]) + [QUOTE]);
      MeasureAll(c, p + |Escaped(s[0])|, s[1..]);
      MeasureOne(c, p, s[0]);
    }
  }

  lemma HexBack(b: Byte)
    requires b < 32
    ensures HexValue(HexDigit(b / 16)) == Some(b / 16) && HexValue(HexDigit(b % 16)) == Some(b % 16)
  {
  }

  lemma RoundOne(c: seq<Byte>, p: nat, b: Byte, end: nat)
    requires At(c, p, Escaped(b)) && p + |Escaped(b)| <= end < |c|
    ensures Round(c, p, end) == Some(Piece(|Escaped(b)|, [b]))
  {
    AtIndex(c, p, Escaped(b), 0);
    if |Escaped(b)| > 1 { AtIndex(c, p, Escaped(b), 1); }
    if |Escaped(b)| == 6 {
      AtIndex(c, p, Escaped(b), 2);
      AtIndex(c, p, Escaped(b), 3);
      AtIndex(c, p, Escaped(b), 4);
      AtIndex(c, p, Escaped(b), 5);
      HexBack(b);
      assert Hex4(c, p + 2) == b / 16 * 0x10 + b % 16;
    }
  }

  lemma {:induction false} EscapedSplits(c: seq<Byte>, p: nat, s: seq<Byte>)
    requires s != [] && At(c, p, EscapedAll(s))
    ensures At(c, p, Escaped(s[0])) && At(c, p + |Escaped(s[0])|, EscapedAll(s[1..]))
    ensures |EscapedAll(s)| == |Escaped(s[0])| + |EscapedAll(s[1..])|
  {
    AtParts(c, p, Escaped(s[0]), EscapedAll(s[1..]));
  }

  lemma UnescapeOne(c: seq<Byte>, p: nat, b: Byte, end: nat, rest: seq<Byte>)
    requires At(c, p, Escaped(b)) && p + |Escaped(b)| <= end < |c| && Unescape(c, p + |Escaped(b)|, end) == Some(rest)
    ensures Unescape(c, p, end) == Some([b] + rest)
  {
    RoundOne(c, p, b, end);
  }

  lemma {:induction false} UnescapeAll(c: seq<Byte>, p: nat, s: seq<Byte>, end: nat)
    requires At(c, p, EscapedAll(s)) && end == p + |EscapedAll(s)| < |c|
    ensures Unescape(c, p, end) == Some(s)
    decreases |s|
  {
    if s == [] {
      assert Unescape(c, p, end) == Some([]);
    } else {
      hide Unescape, Escaped, At;
      EscapedSplits(c, p, s);
      UnescapeAll(c, p + |Escaped(s[0])|, s[1..], end);
      UnescapeOne(c, p, s[0], end, s[1..]);
      assert [s[0]] + s[1..] == s;
    }
  }

  lemma {:induction false} CStringWhole(s: seq<Byte>)
    requires 0 !in s
    ensures CString(s) == s
  {
    if s != [] { CStringWhole(s[1..]); }
  }

  // A printed string, wherever it stands, is parsed back to the string.
  lemma QuotedRoundTrip(c: seq<Byte>, o: nat, s: seq<Byte>)
    requires At(c, o, Quoted(s)) && 0 !in s
    ensures ParseString(c, o) == Done(Parsed(s, o + |Quoted(s)|))
  {
    var end := o + 1 + |EscapedAll(s)|;
    QuotedMeasured(c, o, s);
    QuotedUnescaped(c, o, s, end);
    CStringWhole(s);
    ParseStringIs(c, o, end, s);
  }

  lemma QuotedMeasured(c: seq<Byte>, o: nat, s: seq<Byte>)
    requires At(c, o, Quoted(s))
    ensures c[o] == QUOTE && Measure(c, o + 1).Some? && Measure(c, o + 1).value.end == o + 1 + |EscapedAll(s)|
  {
    QuotedAt(c, o, s);
    MeasureAll(c, o + 1, s);
  }

  lemma QuotedUnescaped(c: seq<Byte>, o: nat, s: seq<Byte>, end: nat)
    requires At(c, o, Quoted(s)) && end == o + 1 + |EscapedAll(s)|
    ensures end < |c| && Unescape(c, o + 1, end) == Some(s)
  {
    assert At(c, o + 1, EscapedAll(s)) && end < |c| by { QuotedAt(c, o, s); }
    UnescapeAll(c, o + 1, s, end);
  }

  lemma ParseStringIs(c: seq<Byte>, o: nat, end: nat, s: seq<Byte>)
    requires o < end < |c| && c[o] == QUOTE && Measure(c, o + 1).Some? && Measure(c, o + 1).value.end == end
    requires Unescape(c, o + 1, end) == Some(s)
    ensures ParseString(c, o) == Done(Parsed(CString(s), end + 1))
  {
  }

  lemma QuotedAt(c: seq<Byte>, o: nat, s: seq<Byte>)
    requires At(c, o, Quoted(s))
    ensures c[o] == QUOTE && At(c, o + 1, EscapedAll(s) + [QUOTE]) && At(c, o + 1, EscapedAll(s))
      && o + 1 + |EscapedAll(s)| < |c|
  {
    var e := EscapedAll(s);
    assert Quoted(s) == [QUOTE] + (e + [QUOTE]);
    AtIndex(c, o, Quoted(s), 0);
    AtParts(c, o, [QUOTE], e + [QUOTE]);
    AtParts(c, o + 1, e, [QUOTE]);
  }

  // ---------- UTF-16 literals ----------

  lemma Surrogates(x: nat, first: nat, second: nat)
    requires x < 0x100000 && first == 0xD800 + x / 0x400 && second == 0xDC00 + x % 0x400
    ensures 0xD800 <= first <= 0xDBFF && 0xDC00 <= second <= 0xDFFF
    ensures first % 0x400 * 0x400 + second % 0x400 == x
  {
    var h, l := x / 0x400, x % 0x400;
    assert x == h * 0x400 + l && h < 0x400;
    assert (0xD800 + h) % 0x400 == h && (0xDC00 + l) % 0x400 == l;
  }

  // The hexadecimal digits at p write the scalar value cp: in one sequence up to U+FFFF, as
  // a surrogate pair above.
  ghost predicate Writes(c: seq<Byte>, p: nat, end: nat, cp: nat)
    requires p <= end <= |c|
  {
    && Idna.Scalar(cp)
    && if cp < 0x10000 then p + 6 <= end && Hex4(c, p + 2) == cp
       else
         && p + 12 <= end && c[p + 6] == BACKSLASH && c[p + 7] == 0x75
         && Hex4(c, p + 2) == 0xD800 + (cp - 0x10000) / 0x400 && Hex4(c, p + 8) == 0xDC00 + (cp - 0x10000) % 0x400
  }

  // A literal for a scalar value is turned into the bytes that section 3 of RFC 3629 gives it.
  lemma Utf16Meaning(c: seq<Byte>, p: nat, end: nat, cp: nat)
    requires p <= end <= |c| && Writes(c, p, end, cp)
    ensures Utf16(c, p, end) == Some(Piece(if cp < 0x10000 then 6 else 12, Idna.Utf8(cp)))
  {
    if cp >= 0x10000 {
      var first, second := Hex4(c, p + 2), Hex4(c, p + 8);
      Surrogates(cp - 0x10000, first, second);
      assert 0x10000 + first % 0x400 * 0x400 + second % 0x400 == cp;
    }
  }

  // A literal is refused exactly if it writes no scalar value.
  lemma Utf16Refused(c: seq<Byte>, p: nat, end: nat)
    requires p <= end <= |c|
    ensures Utf16(c, p, end).None? <==> forall cp :: !Writes(c, p, end, cp)
  {
    forall cp | Writes(c, p, end, cp) ensures Utf16(c, p, end).Some? {
      Utf16Meaning(c, p, end, cp);
    }
    if Utf16(c, p, end).Some? {
      var first := Hex4(c, p + 2);
      if 0xD800 <= first <= 0xDBFF {
        PairWrites(c, p, end);
      } else {
        assert Writes(c, p, end, first);
      }
    }
  }

  lemma PairWrites(c: seq<Byte>, p: nat, end: nat)
    requires p + 12 <= end <= |c| && c[p + 6] == BACKSLASH && c[p + 7] == 0x75
    requires 0xD800 <= Hex4(c, p + 2) <= 0xDBFF && 0xDC00 <= Hex4(c, p + 8) <= 0xDFFF
    ensures exists cp :: Writes(c, p, end, cp)
  {
    var h, l := Hex4(c, p + 2) - 0xD800, Hex4(c, p + 8) - 0xDC00;
    var x := h * 0x400 + l;
    assert x / 0x400 == h && x % 0x400 == l;
    assert Writes(c, p, end, 0x10000 + x);
  }

  // ---------- The program: parsing ----------

  // codepoint >>= 6, j times.
  function Shifted(cp: nat, j: nat): nat
    requires j <= 3
  { if j == 0 then cp else if j == 1 then cp / 0x40 else if j == 2 then cp / 0x1000 else cp / 0x40000 }

  lemma ShiftStep(cp: nat, j: nat)
    requires j < 3
    ensures Shifted(cp, j) / 0x40 == Shifted(cp, j + 1)
  {
  }

  lemma Utf8At(cp: nat, k: nat)
    requires Idna.Scalar(cp) && k < |Idna.Utf8(cp)|
    ensures 1 <= |Idna.Utf8(cp)| <= 4
    ensures |Idna.Utf8(cp)| == if cp < 0x80 then 1 else if cp < 0x800 then 2 else if cp < 0x10000 then 3 else 4
    ensures var u := Idna.Utf8(cp);
            if k > 0 then u[k] == 0x80 + Shifted(cp, |u| - 1 - k) % 0x40
            else u[k] == if |u| == 1 then cp
              else (if |u| == 2 then 0xC0 else if |u| == 3 then 0xE0 else 0xF0) + Shifted(cp, |u| - 1)
  {
  }

  lemma Filled(whole: seq<Byte>, head: seq<Byte>, u: seq<Byte>)
    requires |whole| == |head| + |u|
      && whole[..|head|] == head && forall k :: 0 <= k < |u| ==> whole[|head| + k] == u[k]
    ensures whole == head + u
  {
  }

  // The encoding loop of utf16_literal_to_utf8: the bytes of a code point, last one first.
  method PutUtf8(cp: nat, out: array<Byte>, pos: nat) returns (next: nat)
    requires Idna.Scalar(cp) && pos + |Idna.Utf8(cp)| <= out.Length
    modifies out
    ensures next == pos + |Idna.Utf8(cp)| && out[..next] == old(out[..pos]) + Idna.Utf8(cp)
  {
    ghost var u, head := Idna.Utf8(cp), out[..pos];
    Utf8At(cp, 0);
    var codepoint := cp;
    var length := if cp < 0x80 then 1 else if cp < 0x800 then 2 else if cp < 0x10000 then 3 else 4;
    var mark := if length == 1 then 0 else if length == 2 then 0xC0 else if length == 3 then 0xE0 else 0xF0;
    var position := length - 1;
    while position > 0
      invariant 0 <= position < length == |u| && codepoint == Shifted(cp, length - 1 - position)
      invariant forall k :: position < k < length ==> out[pos + k] == u[k]
      invariant out[..pos] == head
    {
      Utf8At(cp, position);
      ShiftStep(cp, length - 1 - position);
      out[pos + position] := 0x80 + codepoint % 0x40;
      codepoint := codepoint / 0x40;
      position := position - 1;
    }
    out[pos] := if length > 1 then codepoint + mark else codepoint % 0x80;
    next := pos + length;
    Filled(out[..next], head, u);
  }

  // utf16_literal_to_utf8; a length of 0 stands for failure.
  method Utf16ToUtf8(c: seq<Byte>, p: nat, end: nat, out: array<Byte>, pos: nat) returns (length: nat, next: nat)
    requires p <= end <= |c|
    requires Utf16(c, p, end).Some? ==> pos + |Utf16(c, p, end).value.out| <= out.Length
    modifies out
    ensures length == 0 <==> Utf16(c, p, end).None?
    ensures length != 0 ==> var r := Utf16(c, p, end).value;
      length == r.len && next == pos + |r.out| && out[..next] == old(out[..pos]) + r.out
  {
    length, next := 0, pos;
    if end - p < 6 { return; }
    var first := Hex4(c, p + 2);
    if first >= 0xDC00 && first <= 0xDFFF { return; }
    var codepoint;
    if first >= 0xD800 && first <= 0xDBFF {
      var second_sequence := p + 6;
      if end - second_sequence < 6 { return; }
      if c[second_sequence] != BACKSLASH || c[second_sequence + 1] != 0x75 { return; }
      var second := Hex4(c, second_sequence + 2);
      if second < 0xDC00 || second > 0xDFFF { return; }
      codepoint := 0x10000 + first % 0x400 * 0x400 + second % 0x400;
      length := 12;
    } else {
      codepoint := first;
      length := 6;
    }
    next := PutUtf8(codepoint, out, pos);
  }

  // The first pass of parse_string.
  method MeasurePass(c: seq<Byte>, o: nat) returns (ok: bool, end: nat, skipped: nat)
    requires o < |c|
    ensures ok <==> Measure(c, o + 1).Some?
    ensures ok ==> Measure(c, o + 1) == Some(Extent(end, skipped))
  {
    end, skipped := o + 1, 0;
    ghost var goal := Measure(c, o + 1);
    while end < |c| && c[end] != QUOTE
      invariant o + 1 <= end <= |c|
      invariant goal
        == (var m := Measure(c, end); if m.None? then None else Some(Extent(m.value.end, m.value.skipped + skipped)))
    {
      if c[end] == BACKSLASH {
        if end + 1 >= |c| { return false, 0, 0; }
        skipped := skipped + 1;
        end := end + 1;
      }
      end := end + 1;
    }
    ok := end < |c|;
  }

  // How much has been written when the second pass stands at p.
  ghost predicate Within(c: seq<Byte>, q: nat, p: nat, written: nat)
    requires Measure(c, q).Some?
  {
    var end := Measure(c, q).value.end;
    var stop := if p <= end then p else end;
    q <= p && written + Starts(c, q, q, stop) <= stop - q
  }

  // The next round keeps within the allocation, and there is room for it.
  lemma NextWithin(c: seq<Byte>, q: nat, p: nat, written: nat)
    requires Measure(c, q).Some? && p < Measure(c, q).value.end && Within(c, q, p, written)
    requires Round(c, p, Measure(c, q).value.end).Some?
    ensures var r := Round(c, p, Measure(c, q).value.end).value;
            Within(c, q, p + r.len, written + |r.out|)
              && written + |r.out| <= Measure(c, q).value.end - q - Measure(c, q).value.skipped
  {
    var end := Measure(c, q).value.end;
    var r := Round(c, p, end).value;
    var stop := if p + r.len <= end then p + r.len else end;
    RoundBound(c, q, p);
    StartsSplit(c, q, q, p, stop);
    StartsSplit(c, q, q, stop, end);
    StartsSparse(c, q, stop, end);
    EmptyStarts(c, q, end, end);
    StartsAll(c, q, q);
  }

  // One round of the second pass of parse_string, writing to out at pos.
  method UnescapeRound(c: seq<Byte>, p: nat, end: nat, out: array<Byte>, pos: nat)
    returns (ok: bool, length: nat, next: nat)
    requires p < end < |c| && (Round(c, p, end).Some? ==> pos + |Round(c, p, end).value.out| <= out.Length)
    modifies out
    ensures ok <==> Round(c, p, end).Some?
    ensures ok ==> var r := Round(c, p, end).value;
      length == r.len && next == pos + |r.out| && out[..next] == old(out[..pos]) + r.out
  {
    ok, length, next := true, 2, pos;
    if c[p] != BACKSLASH {
      out[pos] := c[p];
      length, next := 1, pos + 1;
    } else if c[p + 1] == 0x75 {
      length, next := Utf16ToUtf8(c, p, end, out, pos);
      ok := length != 0;
    } else {
      var b := Unescaped(c[p + 1]);
      if b.None? { return false, 0, pos; }
      out[pos] := b.value;
      next := pos + 1;
    }
  }

  // goal is the outcome of the whole pass, done what has been written when it stands at p.
  ghost predicate Progress(c: seq<Byte>, p: nat, end: nat, goal: Option<seq<Byte>>, done: seq<Byte>)
    requires end < |c|
  {
    goal == var u := Unescape(c, p, end); if u.None? then None else Some(done + u.value)
  }

  lemma ProgressStart(c: seq<Byte>, p: nat, end: nat)
    requires end < |c|
    ensures Progress(c, p, end, Unescape(c, p, end), [])
  {
    var u := Unescape(c, p, end);
    if u.Some? { assert [] + u.value == u.value; }
  }

  lemma ProgressStep(c: seq<Byte>, p: nat, end: nat, goal: Option<seq<Byte>>, done: seq<Byte>)
    requires p < end < |c| && Progress(c, p, end, goal, done)
    ensures var r := Round(c, p, end);
            if r.None? then goal.None? else Progress(c, p + r.value.len, end, goal, done + r.value.out)
  {
    var r := Round(c, p, end);
    if r.Some? {
      var rest := Unescape(c, p + r.value.len, end);
      if rest.Some? { assert (done + r.value.out) + rest.value == done + (r.value.out + rest.value); }
    }
  }

  lemma ProgressEnd(c: seq<Byte>, p: nat, end: nat, goal: Option<seq<Byte>>, done: seq<Byte>)
    requires end < |c| && end <= p && Progress(c, p, end, goal, done)
    ensures goal == Some(done)
  {
    assert done + [] == done;
  }

  // The second pass of parse_string into an allocation that the first has measured. Every
  // store lies within it, whatever the input.
  method UnescapePass(c: seq<Byte>, o: nat, end: nat, skipped: nat, output: array<Byte>) returns (ok: bool, pos: nat)
    requires o < |c| && Measure(c, o + 1) == Some(Extent(end, skipped))
    requires skipped <= end - o - 1 && output.Length == end - o - skipped + 1
    modifies output
    ensures ok <==> Unescape(c, o + 1, end).Some?
    ensures ok ==> pos < output.Length && output[pos] == 0 && output[..pos] == Unescape(c, o + 1, end).value
  {
    var p := o + 1;
    pos := 0;
    ghost var goal := Unescape(c, o + 1, end);
    EmptyStarts(c, o + 1, o + 1, o + 1);
    ProgressStart(c, o + 1, end);
    assert output[..0] == [];
    while p < end
      invariant o + 1 <= p && pos <= end - (o + 1) - skipped && Within(c, o + 1, p, pos)
      invariant Progress(c, p, end, goal, output[..pos])
      decreases end - p
    {
      ok, p, pos := UnescapeNext(c, o, end, skipped, output, p, pos, goal);
      if !ok { return; }
    }
    ProgressEnd(c, p, end, goal, output[..pos]);
    output[pos] := 0;
    ok := true;
  }

  // One iteration of the second pass.
  method UnescapeNext(c: seq<Byte>, o: nat, end: nat, skipped: nat, output: array<Byte>, p: nat, pos: nat,
    ghost goal: Option<seq<Byte>>)
    returns (ok: bool, p': nat, pos': nat)
    requires o < p < end && Measure(c, o + 1) == Some(Extent(end, skipped)) && output.Length >= end - (o + 1) - skipped
    requires pos <= end - (o + 1) - skipped && Within(c, o + 1, p, pos) && Progress(c, p, end, goal, output[..pos])
    modifies output
    ensures !ok ==> goal.None?
    ensures ok ==>
      p < p' && pos' <= end - (o + 1) - skipped && Within(c, o + 1, p', pos')
      && Progress(c, p', end, goal, output[..pos'])
  {
    ProgressStep(c, p, end, goal, output[..pos]);
    if Round(c, p, end).Some? { NextWithin(c, o + 1, p, pos); }
    var length;
    ok, length, pos' := UnescapeRound(c, p, end, output, pos);
    p' := p + length;
  }

  // parse_string.
  method ParseStringAt(c: seq<Byte>, o: nat) returns (r: Parsing<Parsed>)
    requires o <= |c|
    ensures r == ParseString(c, o)
  {
    if o == |c| { return Failed(true); }
    if c[o] != QUOTE { return Failed(false); }
    var ok, end, skipped := MeasurePass(c, o);
    if !ok { return Failed(false); }
    StartsAll(c, o + 1, o + 1);
    StartsSparse(c, o + 1, o + 1, end);
    var allocation_length := end - o - skipped;
    var output := new Byte[allocation_length + 1];
    var pos;
    ok, pos := UnescapePass(c, o, end, skipped, output);
    if !ok { return Failed(false); }
    r := Done(Parsed(CString(output[..pos]), end + 1));
  }

  // ---------- The program: printing ----------

  lemma {:induction false} EscapedAppend(s: seq<Byte>, b: Byte)
    ensures EscapedAll(s + [b]) == EscapedAll(s) + Escaped(b)
  {
    if s == [] {
      assert (s + [b])[1..] == [];
    } else {
      assert (s + [b])[1..] == s[1..] + [b];
      EscapedAppend(s[1..], b);
    }
  }

  lemma EscapedNext(s: seq<Byte>, i: nat)
    requires i < |s|
    ensures EscapedAll(s[..i + 1]) == EscapedAll(s[..i]) + Escaped(s[i])
  {
    assert s[..i + 1] == s[..i] + [s[i]];
    EscapedAppend(s[..i], s[i]);
  }

  lemma {:induction false} EscapedSplit(s: seq<Byte>, i: nat)
    requires i <= |s|
    ensures |EscapedAll(s[..i])| + |s| - i <= |EscapedAll(s)|
    decreases |s| - i
  {
    if i == |s| {
      assert s[..i] == s;
    } else {
      EscapedNext(s, i);
      EscapedSplit(s, i + 1);
    }
  }

  lemma {:induction false} NothingEscaped(s: seq<Byte>)
    ensures |EscapedAll(s)| >= |s| && (|EscapedAll(s)| == |s| ==> EscapedAll(s) == s)
  {
    if s != [] { NothingEscaped(s[1..]); }
  }

  lemma {:induction false} EscapedHasNoNul(s: seq<Byte>)
    requires 0 !in s
    ensures 0 !in EscapedAll(s)
  {
    if s != [] {
      assert s[0] != 0;
      EscapedHasNoNul(s[1..]);
    }
  }

  // The counting pass: how many characters escaping adds.
  method CountEscapes(s: seq<Byte>) returns (escapes: nat)
    ensures |s| + escapes == |EscapedAll(s)|
  {
    escapes := 0;
    for i := 0 to |s|
      invariant i + escapes == |EscapedAll(s[..i])|
    {
      EscapedNext(s, i);
      var b := s[i];
      if b == QUOTE || b == BACKSLASH || b == 8 || b == 12 || b == 10 || b == 13 || b == 9 {
        escapes := escapes + 1;
      } else if b < 32 {
        escapes := escapes + 5;
      }
    }
    assert s[..|s|] == s;
  }

  // One character of the writing pass. sprintf stores a NUL behind its text.
  method PutEscaped(out: array<Byte>, pos: nat, b: Byte) returns (next: nat)
    requires pos + |Escaped(b)| < out.Length
    modifies out
    ensures next == pos + |Escaped(b)| && out[..next] == old(out[..pos]) + Escaped(b)
  {
    next := pos;
    if b > 31 && b != QUOTE && b != BACKSLASH {
      out[next] := b;
    } else {
      out[next] := BACKSLASH;
      next := next + 1;
      if b == BACKSLASH {
        out[next] := BACKSLASH;
      } else if b == QUOTE {
        out[next] := QUOTE;
      } else if b == 8 {
        out[next] := 0x62;
      } else if b == 12 {
        out[next] := 0x66;
      } else if b == 10 {
        out[next] := 0x6E;
      } else if b == 13 {
        out[next] := 0x72;
      } else if b == 9 {
        out[next] := 0x74;
      } else {
        out[next], out[next + 1], out[next + 2] := 0x75, 0x30, 0x30;
        out[next + 3], out[next + 4], out[next + 5] := HexDigit(b / 16), HexDigit(b % 16), 0;
        next := next + 4;
      }
    }
    next := next + 1;
  }

  // The writing pass: exactly as many bytes as were counted.
  method WriteEscapes(out: array<Byte>, pos: nat, s: seq<Byte>) returns (next: nat)
    requires pos + |EscapedAll(s)| < out.Length
    modifies out
    ensures next == pos + |EscapedAll(s)| && out[..next] == old(out[..pos]) + EscapedAll(s)
  {
    next := pos;
    ghost var head := out[..pos];
    EscapedSplit(s, 0);
    for i := 0 to |s|
      invariant next == pos + |EscapedAll(s[..i])| && next + |s| - i < out.Length
      invariant out[..next] == head + EscapedAll(s[..i])
    {
      EscapedNext(s, i);
      EscapedSplit(s, i + 1);
      next := PutEscaped(out, next, s[i]);
      assert head + EscapedAll(s[..i]) + Escaped(s[i]) == head + EscapedAll(s[..i + 1]);
    }
    assert s[..|s|] == s;
  }

  const INT_MAX: nat := 0x7FFF_FFFF

  // What NULL prints like.
  function OrEmpty(input: Option<seq<Byte>>): seq<Byte> { if input.None? then [] else input.value }

  // printbuffer, with a buffer that is not empty. Allocations succeed.
  class PrintBuffer {
    var buffer: array<Byte>
    var offset: nat
    var depth: nat
    const noalloc: bool
    const format: bool

    constructor (buffer: array<Byte>, noalloc: bool, format: bool)
      requires buffer.Length > 0
      ensures this.buffer == buffer && Base([]) && depth == 0 && this.noalloc == noalloc && this.format == format
    {
      this.buffer, offset, depth, this.noalloc, this.format := buffer, 0, 0, noalloc, format;
    }

    // The text t has been written and counted in offset.
    ghost predicate Base(t: seq<Byte>)
      reads this, buffer
    { offset == |t| < buffer.Length && buffer[..offset] == t }

    // The text t has been written, with a NUL behind it; offset does not count all of it yet.
    ghost predicate Holds(t: seq<Byte>)
      reads this, buffer
    { offset <= |t| < buffer.Length && buffer[..|t|] == t && buffer[|t|] == 0 && 0 !in t[offset..] }

    // Whether ensure finds or makes room.
    ghost predicate Room(needed: nat)
      reads this, buffer
    {
      && offset < buffer.Length && needed <= INT_MAX
      && (needed + offset + 1 <= buffer.Length || (!noalloc && needed + offset + 1 <= INT_MAX))
    }

    // ensure
    method Ensure(needed: nat) returns (ok: bool)
      requires buffer.Length > 0
      modifies this`buffer
      ensures ok <==> old(Room(needed))
      ensures ok ==> offset + needed < buffer.Length && buffer[..offset] == old(buffer[..offset])
      ensures ok ==> old(offset < buffer.Length) && buffer[..offset + 1] == old(buffer[..offset + 1])
      ensures ok ==> buffer.Length == if needed + offset + 1 <= old(buffer.Length) then old(buffer.Length)
                else if needed + offset + 1 <= INT_MAX / 2 then 2 * (needed + offset + 1) else INT_MAX
      ensures buffer == old(buffer) || fresh(buffer)
      ensures !ok ==> buffer == old(buffer)
    {
      if offset >= buffer.Length { return false; }
      if needed > INT_MAX { return false; }
      var total := needed + offset + 1;
      if total <= buffer.Length { return true; }
      if noalloc { return false; }
      var newsize;
      if total > INT_MAX / 2 {
        if total <= INT_MAX { newsize := INT_MAX; } else { return false; }
      } else {
        newsize := total * 2;
      }
      var newbuffer := new Byte[newsize];
      var source, count := buffer, offset + 1;
      for i := 0 to count
        invariant buffer == source && forall k :: 0 <= k < i ==> newbuffer[k] == source[k]
      {
        newbuffer[i] := source[i];
      }
      buffer := newbuffer;
      assert buffer[..offset + 1] == old(buffer[..offset + 1]);
      ok := true;
    }

    // update_offset
    method UpdateOffset(ghost t: seq<Byte>)
      requires Holds(t)
      modifies this`offset
      ensures Base(t)
    {
      var p := offset;
      while buffer[p] != 0
        invariant offset <= p <= |t|
        decreases |t| - p
      {
        assert p < |t| && buffer[..|t|][p] == t[p];
        p := p + 1;
      }
      offset := p;
    }

    // The two quotes for NULL.
    method PrintEmpty(ghost t: seq<Byte>) returns (ok: bool)
      requires Base(t)
      modifies this`buffer, buffer
      ensures ok <==> old(Room(|Quoted([])| + 1))
      ensures ok ==> Holds(t + Quoted([])) && (buffer == old(buffer) || fresh(buffer))
      ensures !ok ==> Base(t) && buffer == old(buffer)
    {
      assert Quoted([]) == [QUOTE, QUOTE];
      ok := Ensure(3);
      if !ok { return; }
      PutBytes(buffer, offset, [QUOTE, QUOTE]);
      buffer[offset + 2] := 0;
      assert (t + Quoted([]))[offset..] == Quoted([]);
    }

    // print_string_ptr on a C string or NULL: one call of ensure for exactly the counted
    // length, two quotes and a NUL.
    method PrintString(input: Option<seq<Byte>>, ghost t: seq<Byte>) returns (ok: bool)
      requires Base(t) && 0 !in OrEmpty(input)
      modifies this`buffer, buffer
      ensures ok <==> old(Room(|Quoted(OrEmpty(input))| + 1))
      ensures ok ==> Holds(t + Quoted(OrEmpty(input))) && (buffer == old(buffer) || fresh(buffer))
      ensures !ok ==> Base(t) && buffer == old(buffer)
    {
      if input.None? {
        ok := PrintEmpty(t);
        return;
      }
      var s := input.value;
      NothingEscaped(s);
      EscapedHasNoNul(s);
      var escapes := CountEscapes(s);
      var length := |s| + escapes;
      ok := Ensure(length + 3);
      if !ok { return; }
      WriteQuoted(buffer, offset, s, escapes);
      ghost var e := EscapedAll(s);
      assert t + Quoted(s) == (t + [QUOTE]) + e + [QUOTE];
      assert (t + Quoted(s))[offset..] == Quoted(s);
    }
  }

  // memcpy and strcpy without its NUL.
  method PutBytes(out: array<Byte>, pos: nat, s: seq<Byte>)
    requires pos + |s| <= out.Length
    modifies out
    ensures out[..pos + |s|] == old(out[..pos]) + s
  {
    for i := 0 to |s|
      invariant out[..pos + i] == old(out[..pos]) + s[..i]
    {
      out[pos + i] := s[i];
    }
    assert s[..|s|] == s;
  }

  // The stores of print_string_ptr at pos.
  method WriteQuoted(out: array<Byte>, pos: nat, s: seq<Byte>, escapes: nat)
    requires |s| + escapes == |EscapedAll(s)| && pos + |s| + escapes + 2 < out.Length
    modifies out
    ensures out[..pos + |Quoted(s)|] == old(out[..pos]) + Quoted(s) && out[pos + |Quoted(s)|] == 0
  {
    ghost var head := out[..pos];
    var length := |s| + escapes;
    out[pos] := QUOTE;
    assert out[..pos + 1] == head + [QUOTE];
    if escapes == 0 {
      NothingEscaped(s);
      PutBytes(out, pos + 1, s);
    } else {
      var next := WriteEscapes(out, pos + 1, s);
      assert next == pos + 1 + length;
    }
    assert out[..pos + 1 + length] == head + [QUOTE] + EscapedAll(s);
    out[pos + length + 1] := QUOTE;
    out[pos + length + 2] := 0;
    assert head + Quoted(s) == head + [QUOTE] + EscapedAll(s) + [QUOTE];
  }
}
