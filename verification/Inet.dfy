// libuv's inet.c: IPv4 and IPv6 addresses as text and back. Text is the part of a C string
// before its NUL.

module Inet {

  import opened Wrappers

  datatype Rc = Ok | Enospc

  // ---------- Digits ----------

  function Digit(d: nat): char
    requires d < 16
  { if d < 10 then '0' + d as char else 'a' + (d - 10) as char }

  function DigitVal(c: char): Option<nat> { if '0' <= c <= '9' then Some((c - '0') as nat) else None }

  // strchr in xdigits_l, then in xdigits_u.
  function HexVal(c: char): Option<nat> {
    if '0' <= c <= '9' then Some((c - '0') as nat)
    else if 'a' <= c <= 'f' then Some(10 + (c - 'a') as nat)
    else if 'A' <= c <= 'F' then Some(10 + (c - 'A') as nat)
    else None
  }

  // "%u" of a byte and "%x" of a word.
  function Dec(v: nat): (r: string)
    ensures r != "" && (v < 10 ==> |r| == 1) && (v < 100 ==> |r| <= 2) && (v < 1000 ==> |r| <= 3)
  {
    (if v < 10 then "" else Dec(v / 10)) + [Digit(v % 10)]
  }

  function Hex(v: nat): (r: string)
    ensures r != "" && (v < 0x10 ==> |r| == 1) && (v < 0x100 ==> |r| <= 2) && (v < 0x1000 ==> |r| <= 3)
      && (v < 0x10000 ==> |r| <= 4)
  {
    (if v < 16 then "" else Hex(v / 16)) + [Digit(v % 16)]
  }

  // ---------- IPv4 ----------

  // Octets, each with a dot behind it.
  function Dotted(b: seq<nat>): string {
    if b == [] then "" else Dotted(b[..|b| - 1]) + (Dec(b[|b| - 1]) + ".")
  }

  function Text4(b: seq<nat>): string
    requires |b| == 4
  { Dec(b[0]) + "." + Dec(b[1]) + "." + Dec(b[2]) + "." + Dec(b[3]) }

  // The loop of inet_pton4: out holds the octets begun so far, saw that the last one has a digit.
  function Scan4(s: string, out: seq<nat>, saw: bool): (r: Option<seq<nat>>)
    requires |out| <= 4 && (saw ==> out != [])
    ensures r.Some? ==> |r.value| == 4
  {
    if s == "" then (if |out| < 4 then None else Some(out))
    else
      var d := DigitVal(s[0]);
      if d.Some? then
        var last := if saw then out[|out| - 1] else 0;
        var nw := last * 10 + d.value;
        if (saw && last == 0) || nw > 255 then None
        else if saw then Scan4(s[1..], out[..|out| - 1] + [nw], true)
        else if |out| + 1 > 4 then None
        else Scan4(s[1..], out + [nw], true)
      else if s[0] == '.' && saw then (if |out| == 4 then None else Scan4(s[1..], out, false))
      else None
  }

  lemma {:induction false} OctetsAreBytes(s: string, out: seq<nat>, saw: bool)
    requires |out| <= 4 && (saw ==> out != []) && (forall i :: 0 <= i < |out| ==> out[i] < 256)
      && Scan4(s, out, saw).Some?
    ensures forall i :: 0 <= i < 4 ==> Scan4(s, out, saw).value[i] < 256
  {
    if s != "" {
      var d := DigitVal(s[0]);
      if d.Some? && saw {
        OctetsAreBytes(s[1..], out[..|out| - 1] + [out[|out| - 1] * 10 + d.value], true);
      } else if d.Some? {
        OctetsAreBytes(s[1..], out + [d.value], true);
      } else {
        OctetsAreBytes(s[1..], out, false);
      }
    }
  }

  function Parse4(s: string): Option<seq<nat>> { Scan4(s, [], false) }

  // The text that has led to a state of the loop.
  function Consumed(out: seq<nat>, saw: bool): string
    requires saw ==> out != []
  { if saw then Dotted(out[..|out| - 1]) + Dec(out[|out| - 1]) else Dotted(out) }

  lemma DottedEnd(p: seq<nat>, v: nat)
    ensures Dotted(p + [v]) == Dotted(p) + (Dec(v) + ".")
  {
    assert (p + [v])[..|p|] == p;
  }

  lemma {:induction false} Dotted3(x: nat, y: nat, z: nat)
    ensures Dotted([x, y, z]) == Dec(x) + "." + Dec(y) + "." + Dec(z) + "."
  {
    hide Dec;
    assert Dotted([]) == "" && [] + [x] == [x] && [x] + [y] == [x, y] && [x, y] + [z] == [x, y, z];
    DottedEnd([], x);
    DottedEnd([x], y);
    DottedEnd([x, y], z);
  }

  lemma Consumed4(b: seq<nat>)
    requires |b| == 4
    ensures Consumed(b, true) == Text4(b)
  {
    hide Dec;
    hide Dotted;
    Dotted3(b[0], b[1], b[2]);
    assert b[..3] == [b[0], b[1], b[2]];
  }

  lemma DecGrows(v: nat, c: char)
    requires v > 0 && DigitVal(c).Some?
    ensures Dec(v * 10 + DigitVal(c).value) == Dec(v) + [c]
  {
    var w := v * 10 + DigitVal(c).value;
    assert w / 10 == v && w % 10 == DigitVal(c).value;
    assert Digit(w % 10) == c;
  }

  lemma ConsumedGrows(p: seq<nat>, v: nat, c: char)
    requires v > 0 && DigitVal(c).Some?
    ensures Consumed(p + [v * 10 + DigitVal(c).value], true) == Consumed(p + [v], true) + [c]
  {
    var w := v * 10 + DigitVal(c).value;
    DecGrows(v, c);
    assert (p + [v])[..|p|] == p && (p + [w])[..|p|] == p;
    assert Dotted(p) + (Dec(v) + [c]) == (Dotted(p) + Dec(v)) + [c];
  }

  lemma ConsumedBegins(out: seq<nat>, c: char)
    requires DigitVal(c).Some?
    ensures Consumed(out + [DigitVal(c).value], true) == Consumed(out, false) + [c]
  {
    var n := out + [DigitVal(c).value];
    assert n[..|out|] == out;
    assert Dec(DigitVal(c).value) == [c];
  }

  lemma ConsumedDot(out: seq<nat>)
    requires out != []
    ensures Consumed(out, false) == Consumed(out, true) + "."
  {
    var p := out[..|out| - 1];
    assert out == p + [out[|out| - 1]];
    assert Dotted(p) + (Dec(out[|out| - 1]) + ".") == (Dotted(p) + Dec(out[|out| - 1])) + ".";
  }

  lemma {:induction false} AcceptedIsCanonical(s: string, out: seq<nat>, saw: bool)
    requires |out| <= 4 && (saw ==> out != []) && (!saw ==> |out| < 4) && Scan4(s, out, saw).Some?
    ensures Consumed(out, saw) + s == Text4(Scan4(s, out, saw).value)
  {
    hide Dec;
    if s == "" {
      Consumed4(out);
      assert Consumed(out, saw) + s == Consumed(out, saw);
    } else {
      var c, d := s[0], DigitVal(s[0]);
      var more := Consumed(out, saw) + [c];
      assert Consumed(out, saw) + s == more + s[1..];
      if d.Some? && saw {
        var p, last := out[..|out| - 1], out[|out| - 1];
        assert out == p + [last];
        ConsumedGrows(p, last, c);
        AcceptedIsCanonical(s[1..], p + [last * 10 + d.value], true);
      } else if d.Some? {
        ConsumedBegins(out, c);
        AcceptedIsCanonical(s[1..], out + [d.value], true);
      } else {
        ConsumedDot(out);
        AcceptedIsCanonical(s[1..], out, false);
      }
    }
  }

  lemma ScanDigit4(c: char, rest: string, out: seq<nat>)
    requires |out| < 4 && DigitVal(c).Some?
    ensures Scan4([c] + rest, out, false) == Scan4(rest, out + [DigitVal(c).value], true)
  {
    assert ([c] + rest)[1..] == rest;
  }

  lemma ScanMore4(c: char, rest: string, out: seq<nat>, v: nat)
    requires |out| < 4 && DigitVal(c).Some? && v > 0 && v * 10 + DigitVal(c).value < 256
    ensures Scan4([c] + rest, out + [v], true) == Scan4(rest, out + [v * 10 + DigitVal(c).value], true)
  {
    assert ([c] + rest)[1..] == rest;
    assert (out + [v])[..|out|] == out;
  }

  lemma {:induction false} ScanDec4(v: nat, rest: string, out: seq<nat>)
    requires v < 256 && |out| < 4
    ensures Scan4(Dec(v) + rest, out, false) == Scan4(rest, out + [v], true)
  {
    var c := Digit(v % 10);
    if v < 10 {
      ScanDigit4(c, rest, out);
      assert Dec(v) + rest == [c] + rest;
    } else {
      ScanDec4(v / 10, [c] + rest, out);
      ScanMore4(c, rest, out, v / 10);
      assert Dec(v) + rest == Dec(v / 10) + ([c] + rest);
    }
  }

  lemma ScanDot4(rest: string, out: seq<nat>)
    requires 0 < |out| < 4
    ensures Scan4("." + rest, out, true) == Scan4(rest, out, false)
  {
    assert ("." + rest)[1..] == rest;
  }

  lemma ScanOctet4(v: nat, rest: string, out: seq<nat>)
    requires v < 256 && |out| < 3
    ensures Scan4(Dec(v) + "." + rest, out, false) == Scan4(rest, out + [v], false)
  {
    assert Dec(v) + "." + rest == Dec(v) + ("." + rest);
    ScanDec4(v, "." + rest, out);
    ScanDot4(rest, out + [v]);
  }

  lemma CanonicalIsAccepted(b: seq<nat>)
    requires |b| == 4 && b[0] < 256 && b[1] < 256 && b[2] < 256 && b[3] < 256
    ensures Parse4(Text4(b)) == Some(b)
  {
    var s3 := Dec(b[3]);
    var s2 := Dec(b[2]) + "." + s3;
    var s1 := Dec(b[1]) + "." + s2;
    assert Text4(b) == Dec(b[0]) + "." + s1;
    ScanOctet4(b[0], s1, []);
    ScanOctet4(b[1], s2, [b[0]]);
    ScanOctet4(b[2], s3, [b[0], b[1]]);
    ScanDec4(b[3], "", [b[0], b[1], b[2]]);
    assert s3 + "" == s3;
    assert [] + [b[0]] == [b[0]] && [b[0]] + [b[1]] == [b[0], b[1]] && [b[0], b[1]] + [b[2]] == [b[0], b[1], b[2]];
    assert [b[0], b[1], b[2]] + [b[3]] == b;
  }

  // inet_pton4 accepts exactly the texts that inet_ntop4 writes, with the bytes they stand for.
  lemma Text4BothWays(s: string, b: seq<nat>)
    ensures Parse4(s) == Some(b) <==> |b| == 4 && (forall i :: 0 <= i < 4 ==> b[i] < 256) && s == Text4(b)
  {
    if Parse4(s) == Some(b) {
      AcceptedIsCanonical(s, [], false);
      OctetsAreBytes(s, [], false);
      assert Consumed([], false) == "" && "" + s == s;
    }
    if |b| == 4 && forall i :: 0 <= i < 4 ==> b[i] < 256 { CanonicalIsAccepted(b); }
  }

  // ---------- IPv6 text to bytes ----------

  // The state of inet_pton6: the bytes written, colonp, curtok and the group being read.
  datatype Group = Group(out: seq<nat>, colonp: Option<nat>, tok: string, seen: nat, val: nat)

  function Push(g: Group): Group {
    g.(out := g.out + [g.val / 256 % 256, g.val % 256], seen := 0, val := 0)
  }

  datatype Step = Go(g: Group) | Stop(g: Group) | Fail

  // One iteration of the main loop on character c with the given text behind it.
  function Step6(c: char, rest: string, g: Group): Step {
    var d := HexVal(c);
    if d.Some? then
      if g.seen + 1 > 4 then Fail else Go(g.(seen := g.seen + 1, val := g.val * 16 + d.value))
    else if c == ':' then
      if g.seen == 0 then
        if g.colonp.Some? then Fail else Go(g.(tok := rest, colonp := Some(|g.out|)))
      else if rest == "" || |g.out| + 2 > 16 then Fail
      else Go(Push(g).(tok := rest))
    else if c == '.' && |g.out| + 4 <= 16 then
      var b := Parse4(g.tok);
      if b.Some? then Stop(g.(out := g.out + b.value, seen := 0)) else Fail
    else Fail
  }

  // The main loop, up to the end of the text or to the break.
  function Scan6(s: string, g: Group): Option<Group> {
    if s == "" then Some(g)
    else
      match Step6(s[0], s[1..], g)
      case Go(h) => Scan6(s[1..], h)
      case Stop(h) => Some(h)
      case Fail => None
  }

  function Zeros(n: nat): (r: seq<nat>) { seq(n, _ => 0) }

  // What follows the main loop.
  function Finish6(g: Group): Option<seq<nat>> {
    if g.seen > 0 && |g.out| + 2 > 16 then None
    else
      var out := if g.seen > 0 then Push(g).out else g.out;
      if g.colonp.Some? && g.colonp.value <= |out| then
        if |out| >= 16 then None
        else Some(out[..g.colonp.value] + Zeros(16 - |out|) + out[g.colonp.value..])
      else if |out| != 16 then None else Some(out)
  }

  function Begin6(s: string): Group { Group([], None, s, 0, 0) }

  function Parse6(s: string): Option<seq<nat>> {
    if s != "" && s[0] == ':' && (|s| < 2 || s[1] != ':') then None
    else
      var t := if s != "" && s[0] == ':' then s[1..] else s;
      var g := Scan6(t, Begin6(t));
      if g.Some? then Finish6(g.value) else None
  }

  // ---------- Bytes to IPv6 text ----------

  // A run of words, none if base is negative.
  datatype Run = Run(base: int, len: nat)

  type Words = w: seq<nat> | |w| == 8 && forall i :: 0 <= i < 8 ==> w[i] < 0x10000 witness [0, 0, 0, 0, 0, 0, 0, 0]

  function WordAt(a: seq<nat>, i: nat): nat
    requires 2 * i + 1 < |a|
  { a[2 * i] * 256 + a[2 * i + 1] }

  predicate Inside(r: Run, i: int) { 0 <= r.base <= i < r.base + r.len }

  predicate ZeroRun(w: Words, base: int, len: int) {
    0 <= base && len > 0 && base + len <= 8 && forall i :: base <= i < base + len ==> w[i] == 0
  }

  // Sections 4.2.2 and 4.2.3 of RFC 5952: the leftmost of the longest runs of at least two.
  ghost predicate IsBest(w: Words, r: Run) {
    && (r.base >= 0 ==> r.len >= 2 && ZeroRun(w, r.base, r.len))
    && (forall b, l :: l >= 2 && ZeroRun(w, b, l) ==> r.base >= 0 && (l < r.len || (l == r.len && r.base <= b)))
  }

  // The test for an embedded IPv4 address at word 6.
  predicate Embedded(w: Words, r: Run) {
    r.base == 0 && (r.len == 6 || (r.len == 7 && w[7] != 1) || (r.len == 5 && w[5] == 0xffff))
  }

  // The text from word i on.
  function Tail6(w: Words, r: Run, i: nat): string
    requires i <= 8
    decreases 8 - i
  {
    if i == 8 then (if r.base >= 0 && r.base + r.len == 8 then ":" else "")
    else if Inside(r, i) then (if i == r.base then ":" else "") + Tail6(w, r, i + 1)
    else (if i != 0 then ":" else "") + Word6(w, r, i)
  }

  function Word6(w: Words, r: Run, i: nat): string
    requires i < 8
    decreases 8 - i, 0
  {
    if i == 6 && Embedded(w, r) then Text4([w[6] / 256, w[6] % 256, w[7] / 256, w[7] % 256])
    else Hex(w[i]) + Tail6(w, r, i + 1)
  }

  function Text6(w: Words, r: Run): string { Tail6(w, r, 0) }

  function WordsOf(a: seq<nat>): Words
    requires |a| == 16 && forall i :: 0 <= i < 16 ==> a[i] < 256
  {
    [WordAt(a, 0), WordAt(a, 1), WordAt(a, 2), WordAt(a, 3), WordAt(a, 4), WordAt(a, 5), WordAt(a, 6), WordAt(a, 7)]
  }

  // ---------- The round trip ----------

  // The bytes of the words below i that are not in the run.
  function Bytes(w: Words, r: Run, i: nat): seq<nat>
    requires i <= 8
  {
    if i == 0 then [] else Bytes(w, r, i - 1) + (if Inside(r, i - 1) then [] else [w[i - 1] / 256, w[i - 1] % 256])
  }

  lemma {:induction false} ScanHex(v: nat, rest: string, g: Group)
    requires g.seen == 0 && g.val == 0 && v < 0x10000
    ensures Scan6(Hex(v) + rest, g) == Scan6(rest, g.(seen := |Hex(v)|, val := v))
  {
    ScanHexDigits(v, rest, g);
  }

  lemma Scan6Step(c: char, rest: string, g: Group)
    ensures Scan6([c] + rest, g)
      == (match Step6(c, rest, g) case Go(h) => Scan6(rest, h) case Stop(h) => Some(h) case Fail => None)
  {
    assert ([c] + rest)[1..] == rest;
  }

  lemma {:induction false} ScanHexDigits(v: nat, rest: string, g: Group)
    requires g.seen == 0 && g.val == 0 && |Hex(v)| <= 4
    ensures Scan6(Hex(v) + rest, g) == Scan6(rest, g.(seen := |Hex(v)|, val := v))
  {
    var c := Digit(v % 16);
    if v < 16 {
      assert Hex(v) + rest == [c] + rest;
      Scan6Step(c, rest, g);
    } else {
      assert Hex(v) + rest == Hex(v / 16) + ([c] + rest);
      ScanHexDigits(v / 16, [c] + rest, g);
      Scan6Step(c, rest, g.(seen := |Hex(v / 16)|, val := v / 16));
    }
  }

  // The bytes of all words.
  function AllBytes(w: Words): seq<nat> { Bytes(w, Run(-1, 0), 8) }

  ghost predicate RunOk(w: Words, r: Run) { r.base >= 0 ==> r.len >= 1 && ZeroRun(w, r.base, r.len) }

  function Colon(r: Run, i: int): Option<nat> { if r.base >= 0 && r.base + r.len < i then Some(2 * r.base) else None }

  // The state of the parser when the text from word i on is left.
  ghost predicate Before(w: Words, r: Run, i: nat, g: Group)
    requires i <= 8
  {
    if i > 0 && !Inside(r, i - 1)
    then g.out == Bytes(w, r, i - 1) && g.seen == |Hex(w[i - 1])| && g.val == w[i - 1] && g.colonp == Colon(r, i)
    else g.out == Bytes(w, r, i) && g.seen == 0 && g.val == 0 && g.colonp == None
  }

  lemma {:induction false} BytesLength(w: Words, r: Run, i: nat)
    requires RunOk(w, r) && i <= 8
    ensures |Bytes(w, r, i)|
      == (if r.base < 0 || i <= r.base then 2 * i else if i <= r.base + r.len then 2 * r.base else 2 * (i - r.len))
  {
    if i > 0 { BytesLength(w, r, i - 1); }
  }

  // The words of the run, put back as zeros, complete the bytes.
  lemma {:induction false} BytesFill(w: Words, r: Run, i: nat)
    requires RunOk(w, r) && i <= 8
    ensures r.base < 0 || i <= r.base ==> Bytes(w, Run(-1, 0), i) == Bytes(w, r, i)
    ensures r.base >= 0 && r.base <= i <= r.base + r.len ==>
      Bytes(w, Run(-1, 0), i) == Bytes(w, r, i) + Zeros(2 * (i - r.base))
    ensures r.base >= 0 && i >= r.base + r.len ==>
      |Bytes(w, r, i)| >= 2 * r.base &&
      Bytes(w, Run(-1, 0), i) == Bytes(w, r, i)[..2 * r.base] + Zeros(2 * r.len) + Bytes(w, r, i)[2 * r.base..]
  {
    BytesLength(w, r, i);
    if i > 0 {
      BytesLength(w, r, i - 1);
      BytesFill(w, r, i - 1);
      if r.base >= 0 && r.base <= i - 1 < r.base + r.len {
        assert w[i - 1] == 0;
        assert Zeros(2 * (i - r.base)) == Zeros(2 * (i - 1 - r.base)) + [0, 0];
      }
    }
  }

  lemma FinishAll(w: Words, r: Run, g: Group)
    requires RunOk(w, r) && g.out == Bytes(w, r, 8) && g.seen == 0
      && g.colonp == (if r.base >= 0 then Some(2 * r.base) else None)
    ensures Finish6(g) == Some(AllBytes(w))
  {
    BytesLength(w, r, 8);
    BytesFill(w, r, 8);
  }

  lemma {:induction false} RunTail(w: Words, r: Run, i: nat)
    requires RunOk(w, r) && r.base >= 0 && r.base < i <= r.base + r.len
    ensures Tail6(w, r, i) != "" && Tail6(w, r, i)[0] == ':' && Tail6(w, r, i) == Tail6(w, r, r.base + r.len)
    decreases 8 - i
  {
    if i < r.base + r.len { RunTail(w, r, i + 1); }
  }

  lemma {:induction false} Separator(w: Words, r: Run, i: nat, g: Group, t: string)
    requires RunOk(w, r) && 0 < i < 8 && !Inside(r, i) && Before(w, r, i, g) && t != ""
    ensures Scan6(":" + t, g) == Scan6(t, Group(Bytes(w, r, i), Colon(r, i + 1), t, 0, 0))
  {
    hide Parse4;
    hide Hex;
    hide Scan4;
    hide ZeroRun;
    BytesLength(w, r, i);
    BytesLength(w, r, i - 1);
    Scan6Step(':', t, g);
  }

  lemma PushBefore(w: Words, r: Run, g: Group, t: string)
    requires RunOk(w, r) && r.base > 0 && Before(w, r, r.base, g) && t != ""
    ensures Before(w, r, r.base + 1, Push(g).(tok := t)) && Scan6([':'] + t, g) == Scan6(t, Push(g).(tok := t))
  {
    BytesLength(w, r, r.base - 1);
    Scan6Step(':', t, g);
  }

  lemma RunBegins(w: Words, r: Run, g: Group) returns (h: Group)
    requires RunOk(w, r) && r.base > 0 && Before(w, r, r.base, g)
    ensures Before(w, r, r.base + 1, h) && Scan6(Tail6(w, r, r.base), g) == Scan6(Tail6(w, r, r.base + 1), h)
  {
    var t := Tail6(w, r, r.base + 1);
    RunTail(w, r, r.base + 1);
    h := Push(g).(tok := t);
    PushBefore(w, r, g, t);
  }

  // The decimal digits of an octet, read as if they were hexadecimal.
  function DecAsHex(v: nat): nat { (if v < 10 then 0 else DecAsHex(v / 10) * 16) + v % 10 }

  lemma {:induction false} ScanDec6(v: nat, rest: string, g: Group)
    requires g.seen == 0 && g.val == 0 && |Dec(v)| <= 4
    ensures Scan6(Dec(v) + rest, g) == Scan6(rest, g.(seen := |Dec(v)|, val := DecAsHex(v)))
  {
    var c := Digit(v % 10);
    if v < 10 {
      assert Dec(v) + rest == [c] + rest;
      Scan6Step(c, rest, g);
    } else {
      assert Dec(v) + rest == Dec(v / 10) + ([c] + rest);
      ScanDec6(v / 10, [c] + rest, g);
      Scan6Step(c, rest, g.(seen := |Dec(v / 10)|, val := DecAsHex(v / 10)));
    }
  }

  lemma Text4Splits(b: seq<nat>)
    requires |b| == 4
    ensures Text4(b) == Dec(b[0]) + (['.'] + (Dec(b[1]) + "." + Dec(b[2]) + "." + Dec(b[3])))
  {
  }

  lemma ScanDot6(b: seq<nat>, t: string, g: Group)
    requires Parse4(g.tok) == Some(b) && |g.out| + 4 <= 16
    ensures Scan6(['.'] + t, g) == Some(g.(out := g.out + b, seen := 0))
  {
    Scan6Step('.', t, g);
  }

  lemma ScanEmbedded(b: seq<nat>, g: Group)
    requires |b| == 4 && b[0] < 256 && b[1] < 256 && b[2] < 256 && b[3] < 256
    requires g.seen == 0 && g.val == 0 && g.tok == Text4(b) && |g.out| + 4 <= 16
    ensures var h := Scan6(Text4(b), g);
      h.Some? && h.value.seen == 0 && h.value.out == g.out + b && h.value.colonp == g.colonp
  {
    CanonicalIsAccepted(b);
    Text4Splits(b);
    var t := Dec(b[1]) + "." + Dec(b[2]) + "." + Dec(b[3]);
    ScanDec6(b[0], ['.'] + t, g);
    ScanDot6(b, t, g.(seen := |Dec(b[0])|, val := DecAsHex(b[0])));
  }

  // A word that is not in the run, after its separator.
  lemma WordScanned(w: Words, r: Run, i: nat, g: Group)
    requires i < 8 && !Inside(r, i) && !(i == 6 && Embedded(w, r))
    requires g.out == Bytes(w, r, i) && g.colonp == Colon(r, i + 1) && g.seen == 0 && g.val == 0
    ensures Word6(w, r, i) != ""
    ensures var h := g.(seen := |Hex(w[i])|, val := w[i]);
            Before(w, r, i + 1, h) && Scan6(Word6(w, r, i), g) == Scan6(Tail6(w, r, i + 1), h)
  {
    ScanHex(w[i], Tail6(w, r, i + 1), g);
  }

  lemma LastScanned(w: Words, r: Run, g: Group)
    requires RunOk(w, r) && Before(w, r, 8, g)
    ensures var h := Scan6(Tail6(w, r, 8), g); h.Some? && Finish6(h.value) == Some(AllBytes(w))
  {
    BytesLength(w, r, 8);
    BytesLength(w, r, 7);
    if Inside(r, 7) {
      Scan6Step(':', "", g);
      assert Tail6(w, r, 8) == [':'] + "";
      FinishAll(w, r, g.(tok := "", colonp := Some(|g.out|)));
    } else {
      FinishAll(w, r, Push(g));
    }
  }

  lemma EmbeddedScanned(w: Words, r: Run, g: Group)
    requires RunOk(w, r) && Embedded(w, r) && !Inside(r, 6) && g.tok == Word6(w, r, 6)
    requires g.out == Bytes(w, r, 6) && g.colonp == Colon(r, 7) && g.seen == 0 && g.val == 0
    ensures var h := Scan6(Word6(w, r, 6), g); h.Some? && Finish6(h.value) == Some(AllBytes(w))
  {
    var b := [w[6] / 256, w[6] % 256, w[7] / 256, w[7] % 256];
    BytesLength(w, r, 6);
    ScanEmbedded(b, g);
    var h := Scan6(Word6(w, r, 6), g).value;
    assert Bytes(w, r, 8) == Bytes(w, r, 6) + [w[6] / 256, w[6] % 256] + [w[7] / 256, w[7] % 256];
    FinishAll(w, r, h);
  }

  lemma TailSplits(w: Words, r: Run, i: nat)
    requires i < 8
    ensures !Inside(r, i) ==> Tail6(w, r, i) == (if i != 0 then [':'] else "") + Word6(w, r, i)
    ensures Inside(r, i) && i != r.base ==> Tail6(w, r, i) == Tail6(w, r, i + 1)
  {
  }

  lemma InsideSkips(w: Words, r: Run, i: nat, g: Group)
    requires i < 8 && Before(w, r, i, g) && Inside(r, i) && i != r.base
    ensures Before(w, r, i + 1, g)
  {
  }

  lemma RestScanned(w: Words, r: Run, i: nat, g: Group) returns (h: Group)
    requires RunOk(w, r) && i < 8 && Before(w, r, i, g) && !Inside(r, i) && !(i == 6 && Embedded(w, r))
    ensures Before(w, r, i + 1, h) && Scan6(Tail6(w, r, i), g) == Scan6(Tail6(w, r, i + 1), h)
  {
    var t := Word6(w, r, i);
    TailSplits(w, r, i);
    if i > 0 {
      var k := Group(Bytes(w, r, i), Colon(r, i + 1), t, 0, 0);
      h := k.(seen := |Hex(w[i])|, val := w[i]);
      WordScanned(w, r, i, k);
      Separator(w, r, i, g, t);
    } else {
      h := g.(seen := |Hex(w[i])|, val := w[i]);
      WordScanned(w, r, i, g);
      assert "" + t == t;
    }
  }

  lemma EmbeddedTail(w: Words, r: Run, g: Group)
    requires RunOk(w, r) && Before(w, r, 6, g) && !Inside(r, 6) && Embedded(w, r)
    ensures var h := Scan6(Tail6(w, r, 6), g); h.Some? && Finish6(h.value) == Some(AllBytes(w))
  {
    var t := Word6(w, r, 6);
    Separator(w, r, 6, g, t);
    EmbeddedScanned(w, r, Group(Bytes(w, r, 6), Colon(r, 7), t, 0, 0));
  }

  // From any word on, the parser turns the rest of the text into the rest of the bytes.
  lemma {:induction false} TailScanned(w: Words, r: Run, i: nat, g: Group)
    requires RunOk(w, r) && i <= 8 && Before(w, r, i, g) && (i == 0 ==> !Inside(r, 0))
    ensures var h := Scan6(Tail6(w, r, i), g); h.Some? && Finish6(h.value) == Some(AllBytes(w))
    decreases 8 - i
  {
    if i == 8 {
      LastScanned(w, r, g);
    } else if i == 6 && Embedded(w, r) && !Inside(r, i) {
      EmbeddedTail(w, r, g);
    } else {
      var h := g;
      if !Inside(r, i) {
        h := RestScanned(w, r, i, g);
      } else if i == r.base {
        h := RunBegins(w, r, g);
      } else {
        TailSplits(w, r, i);
        InsideSkips(w, r, i, g);
      }
      TailScanned(w, r, i + 1, h);
    }
  }

  lemma {:induction false} HexHead(v: nat)
    ensures HexVal(Hex(v)[0]).Some?
  {
    if v >= 16 { HexHead(v / 16); }
  }

  lemma BestIsOk(w: Words, r: Run)
    requires IsBest(w, r)
    ensures RunOk(w, r)
  {
  }

  lemma AllBytesOf(a: seq<nat>)
    requires |a| == 16 && forall i :: 0 <= i < 16 ==> a[i] < 256
    ensures AllBytes(WordsOf(a)) == a
  {
    BytesUpTo(a, 8);
  }

  lemma {:induction false} BytesUpTo(a: seq<nat>, i: nat)
    requires |a| == 16 && (forall k :: 0 <= k < 16 ==> a[k] < 256) && i <= 8
    ensures Bytes(WordsOf(a), Run(-1, 0), i) == a[..2 * i]
  {
    if i > 0 {
      BytesUpTo(a, i - 1);
      assert WordsOf(a)[i - 1] == WordAt(a, i - 1);
      assert a[..2 * i] == a[..2 * (i - 1)] + [a[2 * i - 2], a[2 * i - 1]];
    }
  }

  lemma Parse6Colons(t: string)
    requires t != "" && t[0] == ':'
    ensures Parse6([':'] + t) == (var g := Scan6(t, Begin6(t)); if g.Some? then Finish6(g.value) else None)
  {
    assert ([':'] + t)[1..] == t;
  }

  lemma ParseText6(w: Words, r: Run)
    requires RunOk(w, r)
    ensures Parse6(Text6(w, r)) == Some(AllBytes(w))
  {
    if Inside(r, 0) {
      var t := Tail6(w, r, 1);
      RunTail(w, r, 1);
      Parse6Colons(t);
      assert Before(w, r, 1, Begin6(t));
      TailScanned(w, r, 1, Begin6(t));
    } else {
      ParseHexFirst(w, r);
    }
  }

  lemma ParseHexFirst(w: Words, r: Run)
    requires RunOk(w, r) && !Inside(r, 0)
    ensures Parse6(Text6(w, r)) == Some(AllBytes(w))
  {
    var s := Text6(w, r);
    HexHead(w[0]);
    TailSplits(w, r, 0);
    assert s[0] == Hex(w[0])[0];
    TailScanned(w, r, 0, Begin6(s));
  }

  // The round trip: inet_pton6 turns the text that inet_ntop6 writes for 16 bytes back into
  // those bytes, whatever they are, with or without an embedded IPv4 address.
  lemma RoundTrip6(a: seq<nat>, r: Run)
    requires |a| == 16 && (forall i :: 0 <= i < 16 ==> a[i] < 256) && IsBest(WordsOf(a), r)
    ensures Parse6(Text6(WordsOf(a), r)) == Some(a)
  {
    BestIsOk(WordsOf(a), r);
    ParseText6(WordsOf(a), r);
    AllBytesOf(a);
  }

  // There is one best run, so the text of an address is determined.
  lemma BestIsUnique(w: Words, r: Run, q: Run)
    requires IsBest(w, r) && IsBest(w, q)
    ensures r == q || (r.base < 0 && q.base < 0)
  {
  }

  lemma {:induction false} TailFits(w: Words, r: Run, i: nat)
    requires RunOk(w, r) && i <= 8
    ensures |Tail6(w, r, i)| <= 5 * (8 - i) + 6 - (if i == 0 then 1 else 0)
    decreases 8 - i
  {
    if i < 8 {
      TailFits(w, r, i + 1);
    }
  }

  // The text and its NUL fit the buffer of UV__INET6_ADDRSTRLEN bytes.
  lemma Text6Fits(w: Words, r: Run)
    requires IsBest(w, r)
    ensures |Text6(w, r)| + 1 <= 46
  {
    BestIsOk(w, r);
    TailFits(w, r, 0);
  }

  // ---------- The program ----------

  // What the search of inet_ntop6 knows after i words.
  ghost predicate Searched(w: Words, i: nat, cur: Run, best: Run)
    requires i <= 8
  {
    && -1 <= cur.base && -1 <= best.base
    && (cur.base >= 0 ==>
       cur.len >= 1 && cur.base + cur.len == i && ZeroRun(w, cur.base, cur.len)
       && (cur.base > 0 ==> w[cur.base - 1] != 0))
    && (cur.base < 0 && i > 0 ==> w[i - 1] != 0)
    && var done := if cur.base < 0 then i else cur.base;
       && (best.base >= 0 ==> best.base + best.len <= done && ZeroRun(w, best.base, best.len))
       && (forall b, l :: ZeroRun(w, b, l) && b + l <= done ==>
          best.base >= 0 && (l < best.len || (l == best.len && best.base <= b)))
  }

  lemma RunEnds(w: Words, i: nat, cur: Run, best: Run, next: Run)
    requires i <= 8 && (i < 8 ==> w[i] != 0) && cur.base >= 0 && Searched(w, i, cur, best)
    requires next == if best.base == -1 || cur.len > best.len then cur else best
    ensures next.base >= 0 && next.base + next.len <= i && ZeroRun(w, next.base, next.len)
    ensures forall b, l :: ZeroRun(w, b, l) && b + l <= i ==> l < next.len || (l == next.len && next.base <= b)
  {
    forall b, l | ZeroRun(w, b, l) && b + l <= i ensures l < next.len || (l == next.len && next.base <= b) {
    }
  }

  // The search for the run of zeros.
  method FindRun(w: Words) returns (best: Run)
    ensures IsBest(w, best) && -1 <= best.base
  {
    best := Run(-1, 0);
    var cur := Run(-1, 0);
    for i := 0 to 8
      invariant Searched(w, i, cur, best)
    {
      if w[i] == 0 {
        cur := if cur.base == -1 then Run(i, 1) else cur.(len := cur.len + 1);
      } else if cur.base != -1 {
        var next := if best.base == -1 || cur.len > best.len then cur else best;
        RunEnds(w, i, cur, best, next);
        best := next;
        cur := cur.(base := -1);
        assert forall b, l :: ZeroRun(w, b, l) && b + l <= i + 1 ==> b + l <= i;
      } else {
        assert forall b, l :: ZeroRun(w, b, l) && b + l <= i + 1 ==> b + l <= i;
      }
    }
    if cur.base != -1 {
      var next := if best.base == -1 || cur.len > best.len then cur else best;
      RunEnds(w, 8, cur, best, next);
      best := next;
    }
    if best.base != -1 && best.len < 2 {
      best := best.(base := -1);
    }
  }

  // uv__strscpy of a text t with its NUL that fits.
  method Strscpy(d: array<char>, s: seq<char>, n: nat, ghost t: string)
    requires s == t + ['\0'] && '\0' !in t && |t| < n <= d.Length
    modifies d
    ensures d[..|t| + 1] == t + ['\0'] && d[|t| + 1..] == old(d[|t| + 1..])
  {
    for i := 0 to n
      invariant i <= |t| && d[..i] == t[..i]
      invariant forall k :: i <= k < d.Length ==> d[k] == old(d[k])
    {
      d[i] := s[i];
      assert i < |t| ==> s[i] == t[i] && t[i] in t;
      if s[i] == '\0' {
        assert t[..i] == t && d[..i + 1] == t + ['\0'];
        return;
      }
      assert t[..i + 1] == t[..i] + [t[i]];
    }
  }

  // A text in a destination of the given size.
  twostate predicate Written(r: Rc, t: string, dst: array<char>, size: nat)
    reads dst
  {
    && (r == Enospc <==> |t| + 1 > size)
    && (if r == Enospc then dst[..] == old(dst[..])
        else |t| < dst.Length && dst[..|t| + 1] == t + ['\0'] && dst[|t| + 1..] == old(dst[|t| + 1..]))
  }

  // inet_ntop4: the text must be shorter than the destination.
  method Ntop4(src: seq<nat>, dst: array<char>, size: nat) returns (r: Rc)
    requires |src| == 4 && (forall i :: 0 <= i < 4 ==> src[i] < 256) && size <= dst.Length
    modifies dst
    ensures Written(r, Text4(src), dst, size)
  {
    var tmp := Dec(src[0]) + "." + Dec(src[1]) + "." + Dec(src[2]) + "." + Dec(src[3]);
    var l := |tmp|;
    if l <= 0 || l >= size {
      return Enospc;
    }
    Foreign4(src, '\0');
    Strscpy(dst, tmp + ['\0'], size, Text4(src));
    return Ok;
  }

  // Characters stored at tp, which moves on.
  method Put(tmp: array<char>, tp: nat, s: string) returns (next: nat)
    requires tp + |s| <= tmp.Length
    modifies tmp
    ensures next == tp + |s| && tmp[..next] == old(tmp[..tp]) + s
  {
    for k := 0 to |s|
      invariant tmp[..tp + k] == old(tmp[..tp]) + s[..k]
    {
      tmp[tp + k] := s[k];
      assert s[..k + 1] == s[..k] + [s[k]];
    }
    assert s[..|s|] == s;
    next := tp + |s|;
  }

  // The words of the address, byte by byte.
  method ReadWords(src: seq<nat>) returns (words: Words)
    requires |src| == 16 && forall i :: 0 <= i < 16 ==> src[i] < 256
    ensures words == WordsOf(src)
  {
    words := [0, 0, 0, 0, 0, 0, 0, 0];
    for i := 0 to 16
      invariant forall k :: 0 <= k < 8 ==>
        words[k] == if i <= 2 * k then 0 else if i == 2 * k + 1 then src[2 * k] * 256 else WordAt(src, k)
    {
      assert i / 2 * 2 == i - i % 2;
      words := words[i / 2 := words[i / 2] + (if i % 2 == 0 then src[i] * 256 else src[i])];
    }
  }

  // inet_ntop6.
  method Ntop6(src: seq<nat>, dst: array<char>, size: nat) returns (r: Rc)
    requires |src| == 16 && (forall i :: 0 <= i < 16 ==> src[i] < 256) && size <= dst.Length
    modifies dst
    ensures exists best :: IsBest(WordsOf(src), best) && Written(r, Text6(WordsOf(src), best), dst, size)
  {
    hide IsBest;
    hide WordsOf;
    hide Text6;
    hide Foreign;
    var words := ReadWords(src);
    var best := FindRun(words);
    var tmp := new char[46];
    var tp := WriteText6(words, best, tmp);
    ghost var t := Text6(words, best);
    tmp[tp] := '\0';
    assert tmp[..tp] == t;
    tp := tp + 1;
    if tp > size {
      return Enospc;
    }
    ForeignText(words, best, '\0');
    assert tmp[..tp] == t + ['\0'];
    Strscpy(dst, tmp[..tp], size, t);
    return Ok;
  }

  // What the formatting loop writes for word i, and whether it stops there.
  function Piece(w: Words, r: Run, i: nat): string
    requires i < 8
  {
    if Inside(r, i) then (if i == r.base then ":" else "")
    else (if i != 0 then ":" else "")
         + (if i == 6 && Embedded(w, r) then Text4([w[6] / 256, w[6] % 256, w[7] / 256, w[7] % 256]) else Hex(w[i]))
  }

  predicate StopsAt(w: Words, r: Run, i: nat) { i == 6 && Embedded(w, r) && !Inside(r, 6) }

  lemma TailIsPieces(w: Words, r: Run, i: nat, done: string)
    requires i < 8
    ensures done + Tail6(w, r, i) == done + Piece(w, r, i) + (if StopsAt(w, r, i) then "" else Tail6(w, r, i + 1))
  {
    hide Hex, Text4;
    TailSplits(w, r, i);
  }

  // One iteration of the formatting loop.
  method PutWord(words: Words, best: Run, i: nat, tmp: array<char>, tp: nat) returns (next: nat, stop: bool)
    requires i < 8 && -1 <= best.base && tp + |Piece(words, best, i)| <= tmp.Length
    modifies tmp
    ensures next == tp + |Piece(words, best, i)| && tmp[..next] == old(tmp[..tp]) + Piece(words, best, i)
    ensures stop <==> StopsAt(words, best, i)
  {
    hide Hex, Text4, Embedded;
    next, stop := tp, false;
    if best.base != -1 && best.base <= i < best.base + best.len {
      if i == best.base { next := Put(tmp, next, ":"); }
      return;
    }
    if i != 0 { next := Put(tmp, next, ":"); }
    var word: string;
    if i == 6 && Embedded(words, best) {
      word := Text4([words[6] / 256, words[6] % 256, words[7] / 256, words[7] % 256]);
      stop := true;
    } else {
      word := Hex(words[i]);
    }
    assert Piece(words, best, i) == (if i != 0 then ":" else "") + word;
    next := Put(tmp, next, word);
  }

  method WriteText6(words: Words, best: Run, tmp: array<char>) returns (tp: nat)
    requires IsBest(words, best) && -1 <= best.base && tmp.Length == 46
    modifies tmp
    ensures tp < 46 && tmp[..tp] == Text6(words, best)
  {
    Text6Fits(words, best);
    tp := 0;
    for i := 0 to 8
      invariant tp <= 46 && tmp[..tp] + Tail6(words, best, i) == Text6(words, best)
    {
      TailIsPieces(words, best, i, tmp[..tp]);
      var stop;
      tp, stop := PutWord(words, best, i, tmp, tp);
      if stop {
        assert tmp[..tp] + "" == tmp[..tp];
        assert best.base + best.len != 8;
        break;
      }
    }
    if best.base != -1 && best.base + best.len == 8 { tp := Put(tmp, tp, ":"); }
  }

  // inet_pton4, with None for UV_EINVAL.
  method Pton4(src: string) returns (r: Option<seq<nat>>)
    ensures r == Parse4(src)
  {
    var sawDigit, octets := false, 0;
    var tmp := new nat[4];
    var tp, pos := 0, 0;
    tmp[tp] := 0;
    assert src[0..] == src;
    while pos < |src|
      invariant pos <= |src| && octets <= 4 && (sawDigit ==> octets > 0)
      invariant tp == (if sawDigit then octets - 1 else octets) && tp < 4 && (!sawDigit ==> tmp[tp] == 0)
      invariant Scan4(src[pos..], tmp[..octets], sawDigit) == Parse4(src)
    {
      var ch := src[pos];
      assert src[pos..][1..] == src[pos + 1..];
      ghost var out := tmp[..octets];
      pos := pos + 1;
      var pch := DigitVal(ch);
      if pch.Some? {
        var nw := tmp[tp] * 10 + pch.value;
        if sawDigit && tmp[tp] == 0 { return None; }
        if nw > 255 { return None; }
        tmp[tp] := nw;
        if !sawDigit {
          octets := octets + 1;
          if octets > 4 { return None; }
          sawDigit := true;
          assert tmp[..octets] == out + [nw];
        } else {
          assert tmp[..octets] == out[..octets - 1] + [nw];
        }
      } else if ch == '.' && sawDigit {
        if octets == 4 { return None; }
        tp := tp + 1;
        tmp[tp] := 0;
        sawDigit := false;
        assert tmp[..octets] == out;
      } else {
        return None;
      }
    }
    if octets < 4 { return None; }
    assert tmp[..octets] == tmp[..];
    return Some(tmp[..]);
  }

  // The shift of the bytes behind colonp to the end of the buffer.
  method Shift(tmp: array<nat>, colonp: nat, tp: nat)
    requires colonp <= tp < 16 && tmp.Length == 16 && forall k :: tp <= k < 16 ==> tmp[k] == 0
    modifies tmp
    ensures tmp[..] == old(tmp[..colonp]) + Zeros(16 - tp) + old(tmp[colonp..tp])
  {
    var n := tp - colonp;
    for i := 1 to n + 1
      invariant forall k :: 0 <= k < tp - (i - 1) ==> tmp[k] == old(tmp[k])
      invariant forall k :: 16 - (i - 1) <= k < 16 ==> tmp[k] == old(tmp[k - (16 - tp)])
      invariant forall k :: tp - (i - 1) <= k < 16 - (i - 1) ==> tmp[k] == 0
    {
      tmp[16 - i] := tmp[colonp + n - i];
      tmp[colonp + n - i] := 0;
    }
  }

  // The two bytes of a group.
  method PutGroup(tmp: array<nat>, tp: nat, val: nat)
    requires tp + 2 <= 16 && tmp.Length == 16
    modifies tmp
    ensures tmp[..tp + 2] == old(tmp[..tp]) + [val / 256 % 256, val % 256]
    ensures forall k :: tp + 2 <= k < 16 ==> tmp[k] == old(tmp[k])
  {
    tmp[tp] := val / 256 % 256;
    tmp[tp + 1] := val % 256;
  }

  method PutAddress(tmp: array<nat>, tp: nat, b: seq<nat>)
    requires tp + 4 <= 16 && tmp.Length == 16 && |b| == 4
    modifies tmp
    ensures tmp[..tp + 4] == old(tmp[..tp]) + b
    ensures forall k :: tp + 4 <= k < 16 ==> tmp[k] == old(tmp[k])
  {
    tmp[tp], tmp[tp + 1], tmp[tp + 2], tmp[tp + 3] := b[0], b[1], b[2], b[3];
  }

  lemma Scan6At(src: string, pos: nat, g: Group)
    requires pos < |src|
    ensures Scan6(src[pos..], g) == (match Step6(src[pos], src[pos + 1..], g)
                                     case Go(h) => Scan6(src[pos + 1..], h) case Stop(h) => Some(h) case Fail => None)
  {
    assert src[pos..] == [src[pos]] + src[pos + 1..];
    Scan6Step(src[pos], src[pos + 1..], g);
  }

  datatype Outcome = Continue | Break | Return

  // The body of the main loop of inet_pton6 on the character before pos.
  method LoopBody6(src: string, pos: nat, tmp: array<nat>, curtok: nat, tp: nat, colonp: Option<nat>, seen: nat,
    val: nat)
    returns (next: Outcome, curtok': nat, tp': nat, colonp': Option<nat>, seen': nat, val': nat)
    requires tmp.Length == 16 && 0 < pos <= |src| && curtok <= |src| && tp <= 16
    modifies tmp
    ensures curtok' <= |src| && tp <= tp' <= 16 && (forall k :: tp' <= k < 16 ==> tmp[k] == old(tmp[k]))
    ensures colonp' == colonp || colonp' == Some(tp)
    ensures var g := Group(tmp[..tp'], colonp', src[curtok'..], seen', val');
            Step6(src[pos - 1], src[pos..], Group(old(tmp[..tp]), colonp, src[curtok..], seen, val))
            == (match next case Continue => Go(g) case Break => Stop(g) case Return => Fail)
  {
    next, curtok', tp', colonp', seen', val' := Return, curtok, tp, colonp, seen, val;
    var ch := src[pos - 1];
    var pch := HexVal(ch);
    if pch.Some? {
      val' := val * 16 + pch.value;
      seen' := seen + 1;
      if seen' <= 4 { next := Continue; }
    } else if ch == ':' {
      curtok' := pos;
      if seen == 0 {
        if colonp.None? { next, colonp' := Continue, Some(tp); }
      } else if pos < |src| && tp + 2 <= 16 {
        PutGroup(tmp, tp, val);
        next, tp', seen', val' := Continue, tp + 2, 0, 0;
      }
    } else if ch == '.' && tp + 4 <= 16 {
      var b := Pton4(src[curtok..]);
      if b.Some? {
        PutAddress(tmp, tp, b.value);
        next, tp', seen' := Break, tp + 4, 0;
      }
    }
  }

  // The main loop of inet_pton6 over src; the result is what it leaves for the end.
  method ScanLoop6(src: string, tmp: array<nat>) returns (ok: bool, tp: nat, colonp: Option<nat>, seen: nat, val: nat)
    requires tmp.Length == 16 && forall k :: 0 <= k < 16 ==> tmp[k] == 0
    modifies tmp
    ensures ok <==> Scan6(src, Begin6(src)).Some?
    ensures ok ==> tp <= 16 && (colonp.Some? ==> colonp.value <= tp) && forall k :: tp <= k < 16 ==> tmp[k] == 0
    ensures ok ==> var g := Scan6(src, Begin6(src)).value;
                   tmp[..tp] == g.out && colonp == g.colonp && seen == g.seen && val == g.val
  {
    ok, tp, colonp, seen, val := true, 0, None, 0, 0;
    var curtok, pos := 0, 0;
    ghost var goal := Scan6(src, Begin6(src));
    assert src[0..] == src && tmp[..0] == [];
    while pos < |src|
      invariant 0 <= pos <= |src| && 0 <= curtok <= |src| && tp <= 16 && (colonp.Some? ==> colonp.value <= tp)
      invariant forall k :: tp <= k < 16 ==> tmp[k] == 0
      invariant Scan6(src[pos..], Group(tmp[..tp], colonp, src[curtok..], seen, val)) == goal
    {
      Scan6At(src, pos, Group(tmp[..tp], colonp, src[curtok..], seen, val));
      pos := pos + 1;
      var next;
      next, curtok, tp, colonp, seen, val := LoopBody6(src, pos, tmp, curtok, tp, colonp, seen, val);
      if next.Return? {
        ok := false;
        return;
      }
      if next.Break? { return; }
    }
  }

  // What follows the loop.
  method End6(tmp: array<nat>, start: nat, colonp: Option<nat>, seen: nat, val: nat) returns (ok: bool)
    requires tmp.Length == 16 && start <= 16
      && (colonp.Some? ==> colonp.value <= start) && forall k :: start <= k < 16 ==> tmp[k] == 0
    modifies tmp
    ensures var f := Finish6(Group(old(tmp[..start]), colonp, "", seen, val));
      if ok then f == Some(tmp[..]) else f == None
  {
    var tp := start;
    if seen > 0 {
      if tp + 2 > 16 { return false; }
      PutGroup(tmp, tp, val);
      tp := tp + 2;
    }
    if colonp.Some? {
      if tp == 16 { return false; }
      ghost var out := tmp[..tp];
      assert out[..colonp.value] == tmp[..colonp.value] && out[colonp.value..] == tmp[colonp.value..tp];
      Shift(tmp, colonp.value, tp);
      tp := 16;
    }
    if tp != 16 { return false; }
    assert colonp.None? ==> tmp[..tp] == tmp[..];
    return true;
  }

  lemma FinishIgnores(g: Group, tok: string, val: nat)
    requires g.seen > 0 ==> val == g.val
    ensures Finish6(g) == Finish6(g.(tok := tok, val := val))
  {
  }

  // inet_pton6, with None for UV_EINVAL.
  method Pton6(src: string) returns (r: Option<seq<nat>>)
    ensures r == Parse6(src)
  {
    var s := src;
    if s != "" && s[0] == ':' {
      s := s[1..];
      if s == "" || s[0] != ':' { return None; }
    }
    var tmp := new nat[16](_ => 0);
    var ok, tp, colonp, seen, val := ScanLoop6(s, tmp);
    if !ok { return None; }
    FinishIgnores(Scan6(s, Begin6(s)).value, "", val);
    ok := End6(tmp, tp, colonp, seen, val);
    if !ok { return None; }
    return Some(tmp[..]);
  }

  // The text before the first '%'.
  function Address(s: string): string { if s == "" || s[0] == '%' then "" else [s[0]] + Address(s[1..]) }

  lemma {:induction false} AddressAt(s: string, p: nat)
    requires p <= |s| && '%' !in s[..p] && (p == |s| || s[p] == '%')
    ensures Address(s) == s[..p]
  {
    if p > 0 {
      assert s[..p] == [s[0]] + s[1..][..p - 1];
      assert s[0] in s[..p];
      AddressAt(s[1..], p - 1);
    }
  }

  // uv_inet_pton for AF_INET6: a zone behind '%' is cut off, a longer address refused.
  method UvPton6(src: string) returns (r: Option<seq<nat>>)
    ensures r == if '%' in src && |Address(src)| > 45 then None else Parse6(Address(src))
  {
    var p := 0;
    while p < |src| && src[p] != '%'
      invariant p <= |src| && '%' !in src[..p]
    {
      p := p + 1;
    }
    AddressAt(src, p);
    if p == |src| {
      assert src[..p] == src;
      r := Pton6(src);
    } else if p > 45 {
      r := None;
    } else {
      r := Pton6(src[..p]);
    }
  }

  // The text of an address keeps its meaning with any zone behind it.
  lemma RoundTrip6Zone(a: seq<nat>, r: Run, zone: string)
    requires |a| == 16 && (forall i :: 0 <= i < 16 ==> a[i] < 256) && IsBest(WordsOf(a), r)
    ensures var t := Text6(WordsOf(a), r);
      |t| <= 45 && Parse6(Address(t + "%" + zone)) == Some(a) && Parse6(Address(t)) == Some(a)
  {
    var w := WordsOf(a);
    var t := Text6(w, r);
    RoundTrip6(a, r);
    Text6Fits(w, r);
    ForeignTail(w, r, 0, '%');
    AddressOf(t, zone);
  }

  lemma AddressOf(t: string, zone: string)
    requires '%' !in t
    ensures Address(t + "%" + zone) == t && Address(t) == t
  {
    var s := t + "%" + zone;
    assert s[..|t|] == t && s[|t|] == '%';
    AddressAt(s, |t|);
    assert t[..|t|] == t;
    AddressAt(t, |t|);
  }

  lemma ForeignText(w: Words, r: Run, c: char)
    requires HexVal(c).None? && c != '.' && c != ':'
    ensures c !in Text6(w, r)
  {
    ForeignTail(w, r, 0, c);
  }

  // A character that no address contains.
  predicate Foreign(c: char) { HexVal(c).None? && c != '.' && c != ':' }

  lemma {:induction false} ForeignHex(v: nat, c: char)
    requires Foreign(c)
    ensures c !in Hex(v)
  {
    if v >= 16 { ForeignHex(v / 16, c); }
  }

  lemma {:induction false} ForeignDec(v: nat, c: char)
    requires Foreign(c)
    ensures c !in Dec(v)
  {
    if v >= 10 { ForeignDec(v / 10, c); }
  }

  lemma Foreign4(b: seq<nat>, c: char)
    requires |b| == 4 && Foreign(c)
    ensures c !in Text4(b)
  {
    ForeignDec(b[0], c);
    ForeignDec(b[1], c);
    ForeignDec(b[2], c);
    ForeignDec(b[3], c);
  }

  lemma {:induction false} ForeignTail(w: Words, r: Run, i: nat, c: char)
    requires i <= 8 && Foreign(c)
    ensures c !in Tail6(w, r, i)
    decreases 8 - i
  {
    if i < 8 {
      ForeignTail(w, r, i + 1, c);
      ForeignHex(w[i], c);
      Foreign4([w[6] / 256, w[6] % 256, w[7] / 256, w[7] % 256], c);
      TailIsPieces(w, r, i, "");
      assert "" + Tail6(w, r, i) == Tail6(w, r, i) && "" + Piece(w, r, i) == Piece(w, r, i);
    }
  }
}
