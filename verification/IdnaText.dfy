// Which bytes the UTF-8 decoder of idna.c accepts. It reads every well-formed sequence, and
// some ill-formed ones: it does not look at the top bits of each continuation byte, and takes
// the first byte of a longer sequence for a shorter one at the end of the text.

module IdnaTexts {

  import opened Wrappers
  import opened Idna

  // Section 3 of RFC 3629: the length that a first byte announces.
  function Announced(a: Byte): nat { if a < 0x80 then 1 else if a < 0xE0 then 2 else if a < 0xF0 then 3 else 4 }

  // The bytes from p to e have the length that the first one announces, and the others are
  // continuation bytes.
  ghost predicate Proper(s: seq<Byte>, p: nat, e: nat) {
    p < e <= |s| && e - p == Announced(s[p]) && forall i :: p < i < e ==> 0x80 <= s[i] < 0xC0
  }

  // Some scalar value is encoded from p on.
  ghost predicate WellFormedAt(s: seq<Byte>, p: nat)
    requires p <= |s|
  { exists c: nat :: Scalar(c) && Utf8(c) <= s[p..] }

  lemma ReadsWellFormed(s: seq<Byte>, p: nat, c: nat)
    requires p < |s| && Scalar(c) && Utf8(c) <= s[p..]
    ensures Decode1(s, p) == Char(Some(c), p + |Utf8(c)|) && Proper(s, p, p + |Utf8(c)|)
  {
    var u := Utf8(c);
    assert s == s[..p] + u + s[p + |u|..];
    Utf8RoundTrip(s[..p], c, s[p + |u|..]);
    assert forall i :: 0 <= i < |u| ==> s[p + i] == u[i];
    ProperUtf8(c);
  }

  lemma ProperUtf8(c: nat)
    requires Scalar(c)
    ensures |Utf8(c)| > 0 && |Utf8(c)| == Announced(Utf8(c)[0])
    ensures forall i :: 0 < i < |Utf8(c)| ==> 0x80 <= Utf8(c)[i] < 0xC0
  {
  }

  lemma TwoBytes(a: Byte, d: Byte)
    requires 0xC0 <= a < 0xE0 && 0x80 <= d < 0xC0
    ensures var r := Assembled(0, 0x80, 0x80 + a % 32, d, 0x80); r.Some? ==> Scalar(r.value) && Utf8(r.value) == [a, d]
  {
    var x, y := a - 0xC0, d - 0x80;
    assert a % 32 == x;
    AssembledTop(0, 0x80, 0x80 + x, d, 0x80);
    assert (x * 0x40 + y) / 0x40 == x && (x * 0x40 + y) % 0x40 == y;
  }

  // The two last groups of six bits.
  lemma Sextets(h: nat, y: nat, z: nat)
    requires y < 0x40 && z < 0x40
    ensures var v := h * 0x1000 + y * 0x40 + z;
            v / 0x1000 == h && v / 0x40 == h * 0x40 + y && v / 0x40 % 0x40 == y && v % 0x40 == z
  {
  }

  lemma ThreeBytes(a: Byte, c: Byte, d: Byte)
    requires 0xE0 <= a < 0xF0 && 0x80 <= c < 0xC0 && 0x80 <= d < 0xC0
    ensures var r := Assembled(0, 0x80 + a % 16, c, d, 0x800); r.Some? ==> Scalar(r.value) && Utf8(r.value) == [a, c, d]
  {
    hide Assembled;
    var x := a - 0xE0;
    assert a % 16 == x;
    AssembledTop(0, 0x80 + x, c, d, 0x800);
    Sextets(x, c - 0x80, d - 0x80);
  }

  lemma FourBytes(a: Byte, b: Byte, c: Byte, d: Byte)
    requires 0xF0 <= a < 0xF8 && 0x80 <= b < 0xC0 && 0x80 <= c < 0xC0 && 0x80 <= d < 0xC0
    ensures var r := Assembled(a % 8, b, c, d, 0x10000); r.Some? ==> Scalar(r.value) && Utf8(r.value) == [a, b, c, d]
  {
    hide Assembled;
    var w, x := a - 0xF0, b - 0x80;
    assert a % 8 == w;
    AssembledTop(w, b, c, d, 0x10000);
    Sextets(w * 0x40 + x, c - 0x80, d - 0x80);
    Top(w, x, c - 0x80, d - 0x80);
  }

  lemma Top(w: nat, x: nat, y: nat, z: nat)
    requires x < 0x40 && y < 0x40 && z < 0x40
    ensures (w * 0x40000 + x * 0x1000 + y * 0x40 + z) / 0x40000 == w && (w * 0x40 + x) % 0x40 == x
  {
  }

  lemma ProperIsWellFormed(s: seq<Byte>, p: nat)
    requires p < |s| && Decode1(s, p).cp.Some? && Proper(s, p, Decode1(s, p).next)
    ensures var r := Decode1(s, p); Scalar(r.cp.value) && Utf8(r.cp.value) == s[p..r.next]
  {
    hide Assembled;
    hide Utf8;
    var r := Decode1(s, p);
    var a := s[p];
    if a < 0x80 {
      OneByte(a);
      assert s[p..r.next] == [a];
    } else if a < 0xE0 {
      TwoBytes(a, s[p + 1]);
      assert s[p..r.next] == [a, s[p + 1]];
    } else if a < 0xF0 {
      ThreeBytes(a, s[p + 1], s[p + 2]);
      assert s[p..r.next] == [a, s[p + 1], s[p + 2]];
    } else {
      FourBytes(a, s[p + 1], s[p + 2], s[p + 3]);
      assert s[p..r.next] == [a, s[p + 1], s[p + 2], s[p + 3]];
    }
  }

  lemma OneByte(a: Byte)
    requires a < 0x80
    ensures Scalar(a) && Utf8(a) == [a]
  {
  }

  // The decoder accepts a sequence that has the announced length and proper continuation
  // bytes exactly if it is well-formed, and then reads the value that is encoded.
  lemma ProperIffWellFormed(s: seq<Byte>, p: nat)
    requires p < |s|
    ensures var r := Decode1(s, p); WellFormedAt(s, p) <==> r.cp.Some? && Proper(s, p, r.next)
    ensures var r := Decode1(s, p); WellFormedAt(s, p) ==> Scalar(r.cp.value) && Utf8(r.cp.value) == s[p..r.next]
  {
    var r := Decode1(s, p);
    if WellFormedAt(s, p) {
      var c: nat :| Scalar(c) && Utf8(c) <= s[p..];
      ReadsWellFormed(s, p, c);
      ProperIsWellFormed(s, p);
    }
    if r.cp.Some? && Proper(s, p, r.next) {
      ProperIsWellFormed(s, p);
      assert s[p..r.next] <= s[p..];
    }
  }

  // Each sequence of an accepted text is proper.
  ghost predicate AllProper(s: seq<Byte>, p: nat)
    requires p <= |s|
    decreases |s| - p
  { p == |s| || (Proper(s, p, Decode1(s, p).next) && AllProper(s, Decode1(s, p).next)) }

  lemma {:induction false} Utf8IsRead(s: seq<Byte>, p: nat, cps: seq<nat>)
    requires p <= |s| && (forall i :: 0 <= i < |cps| ==> Scalar(cps[i])) && s[p..] == Utf8All(cps)
    ensures All(s, p) == Some(cps) && AllProper(s, p)
    decreases |s| - p
  {
    hide Decode1, Scalar, Utf8;
    if cps == [] {
      assert p == |s|;
    } else {
      ProperUtf8(cps[0]);
      ReadsWellFormed(s, p, cps[0]);
      var e := p + |Utf8(cps[0])|;
      assert s[e..] == s[p..][e - p..] == Utf8All(cps[1..]);
      Utf8IsRead(s, e, cps[1..]);
      assert cps == [cps[0]] + cps[1..];
    }
  }

  lemma {:induction false} ProperIsUtf8(s: seq<Byte>, p: nat)
    requires p <= |s| && All(s, p).Some? && AllProper(s, p)
    ensures var cps := All(s, p).value; (forall i :: 0 <= i < |cps| ==> Scalar(cps[i])) && s[p..] == Utf8All(cps)
    decreases |s| - p
  {
    hide Decode1, Scalar, Utf8;
    AllScalar(s, p);
    if p < |s| {
      var r := Decode1(s, p);
      ProperIsWellFormed(s, p);
      ProperIsUtf8(s, r.next);
      assert All(s, p).value[1..] == All(s, r.next).value;
      assert s[p..] == s[p..r.next] + s[r.next..];
    }
  }

  // A whole text is UTF-8 exactly if it is accepted and each of its sequences is proper; what
  // is read then is what is encoded.
  lemma TextIffWellFormed(s: seq<Byte>, cps: seq<nat>)
    requires forall i :: 0 <= i < |cps| ==> Scalar(cps[i])
    ensures s == Utf8All(cps) <==> All(s, 0) == Some(cps) && AllProper(s, 0)
  {
    assert s[0..] == s;
    if s == Utf8All(cps) { Utf8IsRead(s, 0, cps); }
    if All(s, 0) == Some(cps) && AllProper(s, 0) { ProperIsUtf8(s, 0); }
  }

  // Two witnesses: bytes that are no continuation bytes, and a sequence that is cut off.
  lemma LooseContinuation(s: seq<Byte>)
    requires s == [0xE1, 0x41, 0x41]
    ensures Decode1(s, 0) == Char(Some(0x1041), 3) && !WellFormedAt(s, 0)
  {
    hide WellFormedAt, Utf8, Assembled;
    LooseValue();
    ProperIffWellFormed(s, 0);
  }

  lemma LooseValue()
    ensures Assembled(0, 0x80 + 0xE1 % 16, 0x41, 0x41, 0x800) == Some(0x1041)
  {
  }

  lemma CutOff(s: seq<Byte>)
    requires s == [0xE2, 0x81]
    ensures Decode1(s, 0) == Char(Some(0x81), 2) && !WellFormedAt(s, 0)
  {
    hide WellFormedAt, Utf8, Assembled;
    CutOffValue();
    ProperIffWellFormed(s, 0);
  }

  lemma CutOffValue()
    ensures Assembled(0, 0x80, 0x80 + 0xE2 % 32, 0x81, 0x80) == Some(0x81)
  {
    hide Assembled;
    assert 0xE2 % 32 == 2;
    AssembledTop(0, 0x80, 0x82, 0x81, 0x80);
  }
}
