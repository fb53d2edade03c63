// libuv's idna.c: host names to ASCII, with the encoder of RFC 3492 (Punycode). The decoder
// here is written from section 6.2 of that RFC and is not part of libuv.

module Idna {

  import opened Wrappers

  const MAX: nat := 0xFFFF_FFFF

  // ---------- RFC 3492: parameters, digits, bias adaptation (sections 5, 6.1) ----------

  function Threshold(k: nat, bias: nat): (t: nat)
    ensures 1 <= t <= 26
  { if k <= bias then 1 else if k >= bias + 26 then 26 else k - bias }

  function Digit(v: nat): char
    requires v < 36
  { if v < 26 then 'a' + v as char else '0' + (v - 26) as char }

  function DigitVal(c: char): Option<nat> {
    if 'a' <= c <= 'z' then Some((c - 'a') as nat)
    else if 'A' <= c <= 'Z' then Some((c - 'A') as nat)
    else if '0' <= c <= '9' then Some(26 + (c - '0') as nat)
    else None
  }

  function Shrink(delta: nat, k: nat): nat {
    if delta > 455 then Shrink(delta / 35, k + 36) else k + 36 * delta / (delta + 38)
  }

  function Damped(delta: nat, firsttime: bool): nat { if firsttime then delta / 700 else delta / 2 }

  function Adapt(delta: nat, numpoints: nat, firsttime: bool): nat
    requires numpoints > 0
  {
    var d := Damped(delta, firsttime);
    Shrink(d + d / numpoints, 0)
  }

  // ---------- RFC 3492 itself: section 5, section 6.1 and the decoder of section 6.2 ----------

  const BASE: nat := 36
  const TMIN: nat := 1
  const TMAX: nat := 26
  const SKEW: nat := 38
  const DAMP: nat := 700
  const INITIAL_BIAS: nat := 72
  const INITIAL_N: nat := 128

  function RfcThreshold(k: nat, bias: nat): (t: nat)
    ensures t == Threshold(k, bias)
  { if k <= bias + TMIN then TMIN else if k >= bias + TMAX then TMAX else k - bias }

  function RfcShrink(delta: nat, k: nat): (r: nat)
    ensures r == Shrink(delta, k)
  {
    if delta > (BASE - TMIN) * TMAX / 2 then RfcShrink(delta / (BASE - TMIN), k + BASE)
    else k + (BASE - TMIN + 1) * delta / (delta + SKEW)
  }

  function RfcDamped(delta: nat, firsttime: bool): (r: nat)
    ensures r == Damped(delta, firsttime)
  { if firsttime then delta / DAMP else delta / 2 }

  function RfcAdapt(delta: nat, numpoints: nat, firsttime: bool): (r: nat)
    requires numpoints > 0
    ensures r == Adapt(delta, numpoints, firsttime)
  {
    var d := RfcDamped(delta, firsttime);
    RfcShrink(d + d / numpoints, 0)
  }

  // A generalized variable-length integer: the new i, and the input behind the integer.
  function ReadInt(s: string, k: nat, bias: nat, i: int, w: int): (r: Option<(int, string)>)
    ensures r.Some? ==> |r.value.1| < |s|
  {
    if s == "" || DigitVal(s[0]).None? then None
    else
      var digit := DigitVal(s[0]).value;
      var t := RfcThreshold(k, bias);
      if digit < t then Some((i + digit * w, s[1..]))
      else ReadInt(s[1..], k + BASE, bias, i + digit * w, w * (BASE - t))
  }

  datatype Dec = Dec(n: nat, i: nat, bias: nat, out: seq<nat>)

  function Insert(s: seq<nat>, i: nat, x: nat): seq<nat>
    requires i <= |s|
  { s[..i] + [x] + s[i..] }

  // One round of the decoder, after its integer has moved i.
  function Place(d: Dec, i: int): Dec
    requires i >= d.i
  {
    var len := |d.out| + 1;
    var at := i % len;
    Dec(d.n + i / len, at + 1, RfcAdapt(i - d.i, len, d.i == 0), Insert(d.out, at, d.n + i / len))
  }

  lemma {:induction false} ReadGrows(s: string, k: nat, bias: nat, i: int, w: int)
    requires w >= 0
    ensures ReadInt(s, k, bias, i, w).Some? ==> ReadInt(s, k, bias, i, w).value.0 >= i
  {
    if s != "" && DigitVal(s[0]).Some? {
      var digit := DigitVal(s[0]).value;
      Times(digit, 0, w);
      Times(36 - Threshold(k, bias), 0, w);
      if digit >= Threshold(k, bias) { ReadGrows(s[1..], k + 36, bias, i + digit * w, w * (36 - Threshold(k, bias))); }
    }
  }

  function DecodeFrom(s: string, d: Dec): Option<Dec>
    decreases |s|
  {
    if s == "" then Some(d)
    else
      ReadGrows(s, 36, d.bias, d.i, 1);
      var r := ReadInt(s, BASE, d.bias, d.i, 1);
      if r.None? then None else DecodeFrom(r.value.1, Place(d, r.value.0))
  }

  // The last delimiter, or -1.
  function LastHyphen(s: string): (r: int)
    ensures -1 <= r < |s|
  { if s == "" then -1 else if s[|s| - 1] == '-' then |s| - 1 else LastHyphen(s[..|s| - 1]) }

  function CodePoints(s: string): seq<nat> { seq(|s|, j requires 0 <= j < |s| => s[j] as nat) }

  // The input must be basic code points. What is before the last delimiter is literal.
  function Decode(s: string): Option<seq<nat>> {
    var b := LastHyphen(s);
    var literal := if b > 0 then s[..b] else "";
    var digits := if b > 0 then s[b + 1..] else s;
    if exists j :: 0 <= j < |literal| && literal[j] as nat >= 128 then None
    else
      var d := DecodeFrom(digits, Dec(INITIAL_N, 0, INITIAL_BIAS, CodePoints(literal)));
      if d.None? then None else Some(d.value.out)
  }

  // ---------- The encoder of idna.c ----------

  lemma Divided(a: nat, y: nat)
    requires y >= 2
    ensures 0 <= a / y <= a && 0 <= a % y < y && a == (a / y) * y + a % y && (a > 0 ==> a / y < a)
  {
    var q, r := a / y, a % y;
    assert a == y * q + r;
    assert q >= 0 && y * q >= 2 * q by { Times(y, 2, q); }
  }

  lemma Times(x: int, y: int, z: int)
    requires x >= y && z >= 0
    ensures x * z >= y * z
  {
  }

  function EncodeInt(q: nat, k: nat, bias: nat): string {
    var t := Threshold(k, bias);
    if q < t then [Digit(q)]
    else
      Divided(q - t, 36 - t);
      [Digit(t + (q - t) % (36 - t))] + EncodeInt((q - t) / (36 - t), k + 36, bias)
  }

  datatype Enc = Enc(n: nat, delta: nat, bias: nat, h: nat, first: bool, out: string)

  function Emit(e: Enc): Enc {
    Enc(e.n, 0, Adapt(e.delta, e.h + 1, e.first), e.h + 1, false, e.out + EncodeInt(e.delta, 36, e.bias))
  }

  // The inner loop over the code points from p on; None for UV_E2BIG.
  function Scan(cps: seq<nat>, p: nat, e: Enc): (r: Option<Enc>)
    requires p <= |cps|
    ensures r.Some? ==> r.value.n == e.n
    decreases |cps| - p
  {
    if p == |cps| then Some(e)
    else if cps[p] < e.n then (if e.delta + 1 > MAX then None else Scan(cps, p + 1, e.(delta := e.delta + 1)))
    else if cps[p] > e.n then Scan(cps, p + 1, e)
    else Scan(cps, p + 1, Emit(e))
  }

  // How many code points are at least n, and the least of them.
  function Todo(cps: seq<nat>, n: nat): nat {
    if cps == [] then 0 else (if cps[0] >= n then 1 else 0) + Todo(cps[1..], n)
  }

  function Least(cps: seq<nat>, n: nat): (m: nat)
    requires Todo(cps, n) > 0
    ensures m >= n && m in cps && forall c :: c in cps && c >= n ==> m <= c
  {
    assert cps == [cps[0]] + cps[1..];
    if Todo(cps[1..], n) == 0 then
      NoneLeft(cps[1..], n);
      cps[0]
    else
      var m := Least(cps[1..], n);
      if n <= cps[0] < m then cps[0] else m
  }

  lemma {:induction false} NoneLeft(cps: seq<nat>, n: nat)
    ensures Todo(cps, n) == 0 <==> forall c :: c in cps ==> c < n
  {
    if cps != [] {
      NoneLeft(cps[1..], n);
      assert cps == [cps[0]] + cps[1..];
      if Todo(cps, n) == 0 {
        forall c | c in cps ensures c < n { assert c == cps[0] || c in cps[1..]; }
      } else {
        assert cps[0] in cps && forall c :: c in cps[1..] ==> c in cps;
      }
    }
  }

  lemma {:induction false} TodoFalls(cps: seq<nat>, n: nat, m: nat)
    requires n <= m
    ensures Todo(cps, m + 1) <= Todo(cps, n) && (m in cps ==> Todo(cps, m + 1) < Todo(cps, n))
  {
    if cps != [] {
      TodoFalls(cps[1..], n, m);
    }
  }

  // a times width, by additions.
  function Rows(a: nat, width: nat): nat { if a == 0 then 0 else Rows(a - 1, width) + width }

  lemma {:induction false} RowsTimes(a: nat, width: nat)
    ensures Rows(a, width) == a * width
  {
    if a > 0 { RowsTimes(a - 1, width); }
  }

  lemma {:induction false} RowsAdd(a: nat, b: nat, width: nat)
    ensures Rows(a + b, width) == Rows(a, width) + Rows(b, width)
  {
    if a > 0 { RowsAdd(a - 1, b, width); }
  }

  // The jump to the next code point m.
  function Jump(e: Enc, m: nat): Enc
    requires m >= e.n
  { e.(delta := e.delta + Rows(m - e.n, e.h + 1), n := m) }

  predicate JumpOverflows(e: Enc, m: nat)
    requires m >= e.n && e.delta <= MAX
  { m - e.n > (MAX - e.delta) / (e.h + 1) }

  // After the last occurrence of n, delta counts the smaller code points behind it.
  lemma {:induction false} ScanDelta(cps: seq<nat>, p: nat, e: Enc)
    requires p <= |cps| && Scan(cps, p, e).Some?
    ensures Scan(cps, p, e).value.delta <= e.delta + (|cps| - p)
    ensures e.n in cps[p..] ==> Scan(cps, p, e).value.delta < |cps| - p
    decreases |cps| - p
  {
    if p < |cps| {
      assert cps[p..] == [cps[p]] + cps[p + 1..];
      ScanDelta(cps, p + 1, if cps[p] < e.n then e.(delta := e.delta + 1) else if cps[p] == e.n then Emit(e) else e);
    }
  }

  lemma PassEnds(cps: seq<nat>, e: Enc)
    requires e.n in cps && |cps| <= MAX && Scan(cps, 0, e).Some?
    ensures Scan(cps, 0, e).value.delta + 1 <= MAX
  {
    ScanDelta(cps, 0, e);
    assert cps[0..] == cps;
  }

  // One round of the outer loop. For labels of at most MAX code points the increment behind
  // the pass cannot overflow, and the code does not check it.
  function AfterRound(cps: seq<nat>, e: Enc): (r: Option<Enc>)
    requires e.delta <= MAX && |cps| <= MAX && Todo(cps, e.n) > 0
    ensures r.Some? ==> r.value.delta <= MAX && Todo(cps, r.value.n) < Todo(cps, e.n)
  {
    var m := Least(cps, e.n);
    if JumpOverflows(e, m) then None
    else
      var s := Scan(cps, 0, Jump(e, m));
      if s.None? then None
      else
        TodoFalls(cps, e.n, m);
        PassEnds(cps, Jump(e, m));
        Some(s.value.(delta := s.value.delta + 1, n := m + 1))
  }

  // The outer loop.
  function Rounds(cps: seq<nat>, e: Enc): Option<Enc>
    requires e.delta <= MAX && |cps| <= MAX
    decreases Todo(cps, e.n)
  {
    if Todo(cps, e.n) == 0 then Some(e)
    else
      var next := AfterRound(cps, e);
      if next.None? then None else Rounds(cps, next.value)
  }

  // ---------- Integers round trip ----------

  lemma DigitBack(v: nat)
    requires v < 36
    ensures DigitVal(Digit(v)) == Some(v)
  {
  }

  lemma Horner(i: int, w: int, d: nat, a: nat, y: nat)
    ensures (i + d * w) + a * (w * y) == i + (d + a * y) * w
  {
    calc {
      d * w + a * (w * y);
      == d * w + (a * y) * w;
      == (d + a * y) * w;
    }
  }

  // The digit written and the quotient passed on.
  lemma DigitSplits(q: nat, t: nat) returns (d: nat, a: nat)
    requires 1 <= t <= 26 && t <= q
    ensures d == t + (q - t) % (36 - t) && a == (q - t) / (36 - t) && t <= d < 36 && a < q && q == d + a * (36 - t)
  {
    Divided(q - t, 36 - t);
    d, a := t + (q - t) % (36 - t), (q - t) / (36 - t);
  }

  lemma ReadStep(v: nat, rest: string, k: nat, bias: nat, i: int, w: int)
    requires v < 36
    ensures ReadInt([Digit(v)] + rest, k, bias, i, w)
            == if v < Threshold(k, bias) then Some((i + v * w, rest))
              else ReadInt(rest, k + 36, bias, i + v * w, w * (36 - Threshold(k, bias)))
  {
    DigitBack(v);
    assert ([Digit(v)] + rest)[1..] == rest;
  }

  lemma IntStep(d: nat, a: nat, more: string, rest: string, k: nat, bias: nat, i: int, w: int)
    requires Threshold(k, bias) <= d < 36
    requires var y := 36 - Threshold(k, bias);
      ReadInt(more, k + 36, bias, i + d * w, w * y) == Some((i + d * w + a * (w * y), rest))
    ensures ReadInt([Digit(d)] + more, k, bias, i, w) == Some((i + (d + a * (36 - Threshold(k, bias))) * w, rest))
  {
    ReadStep(d, more, k, bias, i, w);
    Horner(i, w, d, a, 36 - Threshold(k, bias));
  }

  lemma EncodeStep(q: nat, k: nat, bias: nat) returns (d: nat, a: nat)
    requires Threshold(k, bias) <= q
    ensures Threshold(k, bias) <= d < 36 && a < q && q == d + a * (36 - Threshold(k, bias))
    ensures EncodeInt(q, k, bias) == [Digit(d)] + EncodeInt(a, k + 36, bias)
  {
    d, a := DigitSplits(q, Threshold(k, bias));
  }

  lemma LastInt(q: nat, k: nat, bias: nat, rest: string, i: int, w: int)
    requires q < Threshold(k, bias)
    ensures ReadInt(EncodeInt(q, k, bias) + rest, k, bias, i, w) == Some((i + q * w, rest))
  {
    ReadStep(q, rest, k, bias, i, w);
  }

  lemma Rebracket(c: char, x: string, rest: string)
    ensures ([c] + x) + rest == [c] + (x + rest)
  {
  }

  lemma {:induction false} IntRoundTrip(q: nat, k: nat, bias: nat, rest: string, i: int, w: int)
    ensures ReadInt(EncodeInt(q, k, bias) + rest, k, bias, i, w) == Some((i + q * w, rest))
    decreases q
  {
    hide ReadInt, EncodeInt, Threshold, Digit;
    if q < Threshold(k, bias) {
      LastInt(q, k, bias, rest, i, w);
    } else {
      var d, a := EncodeStep(q, k, bias);
      var x, w' := EncodeInt(a, k + 36, bias), w * (36 - Threshold(k, bias));
      IntRoundTrip(a, k + 36, bias, rest, i + d * w, w');
      IntStep(d, a, x + rest, rest, k, bias, i, w);
      Rebracket(Digit(d), x, rest);
    }
  }

  // ---------- What the decoder has rebuilt ----------

  // The code points below n, and those equal to n at positions below p, among the first j.
  function Kept(cps: seq<nat>, n: nat, p: nat, j: nat): seq<nat>
    requires j <= |cps|
  {
    if j == 0 then []
      else Kept(cps, n, p, j - 1) + (if cps[j - 1] < n || (cps[j - 1] == n && j - 1 < p) then [cps[j - 1]] else [])
  }

  lemma {:induction false} KeptSame(cps: seq<nat>, n: nat, p: nat, n': nat, p': nat, j: nat)
    requires j <= |cps|
    requires forall k :: 0 <= k < j ==>
      (cps[k] < n || (cps[k] == n && k < p) <==> cps[k] < n' || (cps[k] == n' && k < p'))
    ensures Kept(cps, n, p, j) == Kept(cps, n', p', j)
  {
    if j > 0 { KeptSame(cps, n, p, n', p', j - 1); }
  }

  lemma {:induction false} KeptMonotone(cps: seq<nat>, n: nat, p: nat, i: nat, j: nat)
    requires i <= j <= |cps|
    ensures |Kept(cps, n, p, i)| <= |Kept(cps, n, p, j)| <= |Kept(cps, n, p, i)| + (j - i)
  {
    if i < j { KeptMonotone(cps, n, p, i, j - 1); }
  }

  lemma {:induction false} KeptInsert(cps: seq<nat>, n: nat, p: nat, j: nat)
    requires p < j <= |cps| && cps[p] == n
    ensures |Kept(cps, n, p, p)| <= |Kept(cps, n, p, j)|
    ensures Kept(cps, n, p + 1, j) == Insert(Kept(cps, n, p, j), |Kept(cps, n, p, p)|, n)
  {
    KeptMonotone(cps, n, p, p, j);
    KeptMonotone(cps, n, p, p, j - 1);
    if j == p + 1 {
      KeptSame(cps, n, p + 1, n, p, p);
    } else {
      KeptInsert(cps, n, p, j - 1);
    }
  }

  // Encoder and decoder agree: the decoder has rebuilt what is kept, and its position plus
  // delta is the position of the encoder, counted in steps of the decoder.
  ghost predicate Agree(cps: seq<nat>, e: Enc, p: nat, d: Dec, start: Dec)
    requires p <= |cps|
  {
    && DecodeFrom(e.out, start) == Some(d)
    && d.out == Kept(cps, e.n, p, |cps|) && e.h == |d.out| && d.bias == e.bias && (e.first <==> d.i == 0)
    && d.n <= e.n && d.i + e.delta == Rows(e.n - d.n, e.h + 1) + |Kept(cps, e.n, p, p)|
  }

  lemma {:induction false} ReadPrefix(s: string, x: string, k: nat, bias: nat, i: int, w: int)
    requires ReadInt(s, k, bias, i, w).Some?
    ensures var r := ReadInt(s, k, bias, i, w).value; ReadInt(s + x, k, bias, i, w) == Some((r.0, r.1 + x))
  {
    var digit := DigitVal(s[0]).value;
    assert (s + x)[1..] == s[1..] + x;
    if digit >= Threshold(k, bias) {
      ReadPrefix(s[1..], x, k + 36, bias, i + digit * w, w * (36 - Threshold(k, bias)));
    }
  }

  lemma {:induction false} DecodeAppend(s: string, x: string, start: Dec)
    requires DecodeFrom(s, start).Some?
    ensures DecodeFrom(s + x, start) == DecodeFrom(x, DecodeFrom(s, start).value)
    decreases |s|
  {
    if s == "" {
      assert s + x == x;
    } else {
      ReadGrows(s, 36, start.bias, start.i, 1);
      var r := ReadInt(s, 36, start.bias, start.i, 1).value;
      ReadPrefix(s, x, 36, start.bias, start.i, 1);
      DecodeAppend(r.1, x, Place(start, r.0));
    }
  }

  lemma DecodeOne(d: Dec, delta: nat)
    ensures DecodeFrom(EncodeInt(delta, 36, d.bias), d) == Some(Place(d, d.i + delta))
  {
    var s := EncodeInt(delta, 36, d.bias);
    IntRoundTrip(delta, 36, d.bias, "", d.i, 1);
    assert s + "" == s;
  }

  lemma {:induction false} RowsSplit(a: nat, width: nat, pos: nat)
    requires pos < width
    ensures (Rows(a, width) + pos) / width == a && (Rows(a, width) + pos) % width == pos
  {
    RowsTimes(a, width);
    DivMod(a, pos, width);
  }

  lemma DivMod(a: int, b: int, len: nat)
    requires 0 <= b < len && a >= 0
    ensures (a * len + b) / len == a && (a * len + b) % len == b
  {
    var x := a * len + b;
    var q, r := x / len, x % len;
    assert x == len * q + r && 0 <= r < len;
    if q < a { Times(a, q + 1, len); }
    if q > a { Times(q, a + 1, len); }
  }

  lemma EmitDecodes(e: Enc, d: Dec, start: Dec)
    requires DecodeFrom(e.out, start) == Some(d) && d.bias == e.bias
    ensures DecodeFrom(Emit(e).out, start) == Some(Place(d, d.i + e.delta))
  {
    DecodeOne(d, e.delta);
    DecodeAppend(e.out, EncodeInt(e.delta, 36, e.bias), start);
  }

  lemma KeptStep(cps: seq<nat>, n: nat, p: nat)
    requires p < |cps| && cps[p] == n
    ensures var pos := |Kept(cps, n, p, p)|; var all := Kept(cps, n, p, |cps|);
            pos <= |all| && Kept(cps, n, p + 1, |cps|) == Insert(all, pos, n) && |Kept(cps, n, p + 1, p + 1)| == pos + 1
  {
    KeptInsert(cps, n, p, |cps|);
    KeptSame(cps, n, p + 1, n, p, p);
  }

  lemma PlaceAt(d: Dec, delta: nat, a: nat, pos: nat)
    requires var len := |d.out| + 1; pos < len && (d.i + delta) / len == a && (d.i + delta) % len == pos
    ensures Place(d, d.i + delta)
      == Dec(d.n + a, pos + 1, Adapt(delta, |d.out| + 1, d.i == 0), Insert(d.out, pos, d.n + a))
  {
  }

  lemma EmitPlaces(cps: seq<nat>, e: Enc, p: nat, d: Dec, start: Dec)
    requires p < |cps| && cps[p] == e.n && Agree(cps, e, p, d, start)
    ensures Place(d, d.i + e.delta) == Dec(e.n, |Kept(cps, e.n, p, p)| + 1, Emit(e).bias, Kept(cps, e.n, p + 1, |cps|))
  {
    var pos := |Kept(cps, e.n, p, p)|;
    KeptStep(cps, e.n, p);
    RowsSplit(e.n - d.n, e.h + 1, pos);
    PlaceAt(d, e.delta, e.n - d.n, pos);
  }

  lemma EmitAgrees(cps: seq<nat>, e: Enc, p: nat, d: Dec, start: Dec) returns (d': Dec)
    requires p < |cps| && cps[p] == e.n && Agree(cps, e, p, d, start)
    ensures Agree(cps, Emit(e), p + 1, d', start)
  {
    EmitPlaces(cps, e, p, d, start);
    EmitDecodes(e, d, start);
    KeptStep(cps, e.n, p);
    d' := Dec(e.n, |Kept(cps, e.n, p, p)| + 1, Emit(e).bias, Kept(cps, e.n, p + 1, |cps|));
  }

  // Code points other than n change nothing but delta.
  lemma PassAgrees(cps: seq<nat>, e: Enc, p: nat, d: Dec, start: Dec)
    requires p < |cps| && cps[p] != e.n && Agree(cps, e, p, d, start)
    ensures Agree(cps, if cps[p] < e.n then e.(delta := e.delta + 1) else e, p + 1, d, start)
  {
    KeptSame(cps, e.n, p, e.n, p + 1, |cps|);
    KeptSame(cps, e.n, p, e.n, p + 1, p);
  }

  lemma {:induction false} ScanAgrees(cps: seq<nat>, e: Enc, p: nat, d: Dec, start: Dec) returns (d': Dec)
    requires p <= |cps| && Agree(cps, e, p, d, start) && Scan(cps, p, e).Some?
    ensures Agree(cps, Scan(cps, p, e).value, |cps|, d', start)
    decreases |cps| - p
  {
    if p == |cps| {
      d' := d;
    } else if cps[p] == e.n {
      d' := EmitAgrees(cps, e, p, d, start);
      d' := ScanAgrees(cps, Emit(e), p + 1, d', start);
    } else {
      PassAgrees(cps, e, p, d, start);
      d' := ScanAgrees(cps, if cps[p] < e.n then e.(delta := e.delta + 1) else e, p + 1, d, start);
    }
  }

  // From the end of one pass to the beginning of the next.
  lemma NextPassAgrees(cps: seq<nat>, e: Enc, d: Dec, start: Dec)
    requires Agree(cps, e, |cps|, d, start)
    ensures Agree(cps, e.(delta := e.delta + 1, n := e.n + 1), 0, d, start)
  {
    KeptSame(cps, e.n, |cps|, e.n + 1, 0, |cps|);
  }

  lemma JumpAgrees(cps: seq<nat>, e: Enc, m: nat, d: Dec, start: Dec)
    requires Agree(cps, e, 0, d, start) && m >= e.n && forall c :: c in cps && c >= e.n ==> m <= c
    ensures Agree(cps, Jump(e, m), 0, d, start)
  {
    assert forall k :: 0 <= k < |cps| ==> cps[k] in cps;
    KeptSame(cps, e.n, 0, m, 0, |cps|);
    RowsAdd(e.n - d.n, m - e.n, e.h + 1);
  }

  lemma RoundAgrees(cps: seq<nat>, e: Enc, d: Dec, start: Dec) returns (d': Dec)
    requires Agree(cps, e, 0, d, start) && e.delta <= MAX && |cps| <= MAX && Todo(cps, e.n) > 0
      && AfterRound(cps, e).Some?
    ensures Agree(cps, AfterRound(cps, e).value, 0, d', start)
  {
    var m := Least(cps, e.n);
    JumpAgrees(cps, e, m, d, start);
    d' := ScanAgrees(cps, Jump(e, m), 0, d, start);
    NextPassAgrees(cps, Scan(cps, 0, Jump(e, m)).value, d', start);
  }

  lemma {:induction false} RoundsAgree(cps: seq<nat>, e: Enc, d: Dec, start: Dec) returns (d': Dec)
    requires Agree(cps, e, 0, d, start) && e.delta <= MAX && |cps| <= MAX && Rounds(cps, e).Some?
    ensures DecodeFrom(Rounds(cps, e).value.out, start) == Some(d') && d'.out == cps
    decreases Todo(cps, e.n)
  {
    if Todo(cps, e.n) == 0 {
      NoneLeft(cps, e.n);
      assert forall k :: 0 <= k < |cps| ==> cps[k] in cps;
      KeptAll(cps, e.n, |cps|);
      d' := d;
    } else {
      d' := RoundAgrees(cps, e, d, start);
      d' := RoundsAgree(cps, AfterRound(cps, e).value, d', start);
    }
  }

  lemma {:induction false} KeptAll(cps: seq<nat>, n: nat, j: nat)
    requires j <= |cps| && forall k :: 0 <= k < j ==> cps[k] < n
    ensures Kept(cps, n, 0, j) == cps[..j]
  {
    if j > 0 { KeptAll(cps, n, j - 1); }
  }

  // ---------- One label ----------

  // The ASCII code points, in order.
  function Basic(cps: seq<nat>): string {
    if cps == [] then "" else (if cps[0] < 128 then [cps[0] as char] else "") + Basic(cps[1..])
  }

  function FirstEnc(cps: seq<nat>): Enc { Enc(128, 0, 72, |Basic(cps)|, true, "") }

  // The separator is written only behind ASCII characters.
  function Joined(a: string, out: string): string { a + (if a != "" then "-" else "") + out }

  // What uv__idna_toascii_label writes with enough room; None for UV_E2BIG.
  function Label(cps: seq<nat>): Option<string>
    requires |cps| <= MAX
  {
    var a := Basic(cps);
    if Todo(cps, 128) == 0 then Some(a)
    else
      var e := Rounds(cps, FirstEnc(cps));
      if e.None? then None else Some(['x', 'n', '-', '-'] + Joined(a, e.value.out))
  }

  predicate HasPrefix(s: string) { |s| >= 4 && s[0] == 'x' && s[1] == 'n' && s[2] == '-' && s[3] == '-' }

  // An ASCII label that begins with the prefix itself.
  predicate Prefixed(cps: seq<nat>) { Todo(cps, 128) == 0 && HasPrefix(Basic(cps)) }

  function DecodeLabel(s: string): Option<seq<nat>> { if HasPrefix(s) then Decode(s[4..]) else Some(CodePoints(s)) }

  lemma {:induction false} BasicIsKept(cps: seq<nat>, j: nat)
    requires j <= |cps|
    ensures CodePoints(Basic(cps[..j])) == Kept(cps, 128, 0, j)
  {
    if j > 0 {
      BasicIsKept(cps, j - 1);
      assert cps[..j] == cps[..j - 1] + [cps[j - 1]];
      BasicAppend(cps[..j - 1], cps[j - 1]);
    }
  }

  lemma {:induction false} BasicAppend(cps: seq<nat>, c: nat)
    ensures Basic(cps + [c]) == Basic(cps) + (if c < 128 then [c as char] else "")
  {
    if cps != [] {
      assert (cps + [c])[1..] == cps[1..] + [c];
      BasicAppend(cps[1..], c);
    }
  }

  lemma {:induction false} BasicIsBasic(cps: seq<nat>)
    ensures forall j :: 0 <= j < |Basic(cps)| ==> Basic(cps)[j] as nat < 128
    ensures |Basic(cps)| <= |cps|
    ensures Todo(cps, 128) == 0 ==> CodePoints(Basic(cps)) == cps
  {
    if cps != [] {
      BasicIsBasic(cps[1..]);
      if Todo(cps, 128) == 0 {
        var t := Basic(cps[1..]);
        assert CodePoints(t) == cps[1..];
        assert Basic(cps) == [cps[0] as char] + t;
        forall j | 0 <= j < |Basic(cps)| ensures CodePoints(Basic(cps))[j] == cps[j] {
          if j > 0 { assert CodePoints(t)[j - 1] == cps[1..][j - 1]; }
        }
      }
    }
  }

  lemma StartAgrees(cps: seq<nat>)
    ensures var e := FirstEnc(cps); var d := Dec(128, 0, 72, CodePoints(Basic(cps))); Agree(cps, e, 0, d, d)
  {
    BasicIsKept(cps, |cps|);
    assert cps[..|cps|] == cps;
  }

  // Digits are lower-case letters and decimal digits.
  predicate IsLower(s: string) { forall c :: c in s ==> 'a' <= c <= 'z' || '0' <= c <= '9' }

  lemma {:induction false} IntIsLower(q: nat, k: nat, bias: nat)
    ensures IsLower(EncodeInt(q, k, bias))
    decreases q
  {
    var t := Threshold(k, bias);
    if q >= t {
      Divided(q - t, 36 - t);
      IntIsLower((q - t) / (36 - t), k + 36, bias);
    }
  }

  lemma {:induction false} ScanIsLower(cps: seq<nat>, p: nat, e: Enc)
    requires p <= |cps| && IsLower(e.out) && Scan(cps, p, e).Some?
    ensures IsLower(Scan(cps, p, e).value.out)
    decreases |cps| - p
  {
    if p < |cps| {
      IntIsLower(e.delta, 36, e.bias);
      ScanIsLower(cps, p + 1, if cps[p] < e.n then e.(delta := e.delta + 1) else if cps[p] == e.n then Emit(e) else e);
    }
  }

  lemma {:induction false} RoundsAreLower(cps: seq<nat>, e: Enc)
    requires e.delta <= MAX && |cps| <= MAX && IsLower(e.out) && Rounds(cps, e).Some?
    ensures IsLower(Rounds(cps, e).value.out)
    decreases Todo(cps, e.n)
  {
    if Todo(cps, e.n) > 0 {
      ScanIsLower(cps, 0, Jump(e, Least(cps, e.n)));
      RoundsAreLower(cps, AfterRound(cps, e).value);
    }
  }

  lemma {:induction false} HyphenAt(a: string, out: string)
    requires '-' !in out
    ensures LastHyphen(a + "-" + out) == |a|
  {
    var s := a + "-" + out;
    if out != "" {
      assert s[..|s| - 1] == a + "-" + out[..|out| - 1];
      HyphenAt(a, out[..|out| - 1]);
    }
  }

  lemma {:induction false} NoHyphen(out: string)
    requires '-' !in out
    ensures LastHyphen(out) == -1
  {
    if out != "" { NoHyphen(out[..|out| - 1]); }
  }

  lemma DecodeJoined(a: string, out: string)
    requires '-' !in out && forall j :: 0 <= j < |a| ==> a[j] as nat < 128
    ensures var d := DecodeFrom(out, Dec(128, 0, 72, CodePoints(a)));
            Decode(Joined(a, out)) == if d.None? then None else Some(d.value.out)
  {
    var s := Joined(a, out);
    if a != "" {
      HyphenAt(a, out);
      assert s[..|a|] == a && s[|a| + 1..] == out;
    } else {
      NoHyphen(out);
      assert s == out;
    }
  }

  // The Punycode part of a label decodes to the label.
  lemma {:induction false} EncodedDecodes(cps: seq<nat>)
    requires |cps| <= MAX && Rounds(cps, FirstEnc(cps)).Some?
    ensures Decode(Joined(Basic(cps), Rounds(cps, FirstEnc(cps)).value.out)) == Some(cps)
  {
    var d := Dec(128, 0, 72, CodePoints(Basic(cps)));
    StartAgrees(cps);
    var end := RoundsAgree(cps, FirstEnc(cps), d, d);
    RoundsAreLower(cps, FirstEnc(cps));
    BasicIsBasic(cps);
    DecodeJoined(Basic(cps), Rounds(cps, FirstEnc(cps)).value.out);
  }

  lemma {:induction false} DecodeIsShort(s: string, d: Dec)
    requires DecodeFrom(s, d).Some?
    ensures |DecodeFrom(s, d).value.out| <= |d.out| + |s|
    decreases |s|
  {
    if s != "" {
      ReadGrows(s, 36, d.bias, d.i, 1);
      var r := ReadInt(s, 36, d.bias, d.i, 1).value;
      DecodeIsShort(r.1, Place(d, r.0));
    }
  }

  lemma PrefixDecodes(t: string)
    ensures DecodeLabel(['x', 'n', '-', '-'] + t) == Decode(t)
  {
    assert (['x', 'n', '-', '-'] + t)[4..] == t;
  }

  lemma AsciiRoundTrip(cps: seq<nat>)
    requires Todo(cps, 128) == 0
    ensures DecodeLabel(Basic(cps)) == Some(cps) <==> !HasPrefix(Basic(cps))
  {
    BasicIsBasic(cps);
    var out := Basic(cps);
    if HasPrefix(out) && Decode(out[4..]).Some? { ShortDecode(out[4..]); }
  }

  // The round trip of a label. It fails for exactly the labels of ASCII code points that
  // begin with "xn--" themselves, which are written as they are.
  lemma {:induction false} LabelRoundTrip(cps: seq<nat>)
    requires |cps| <= MAX && Label(cps).Some?
    ensures DecodeLabel(Label(cps).value) == Some(cps) <==> !Prefixed(cps)
  {
    if Todo(cps, 128) > 0 {
      EncodedDecodes(cps);
      PrefixDecodes(Joined(Basic(cps), Rounds(cps, FirstEnc(cps)).value.out));
    } else {
      AsciiRoundTrip(cps);
    }
  }

  // What a label looks like. Without other code points the ASCII ones are written as they
  // are; otherwise the prefix, the ASCII ones, a hyphen if there are any, and only lower-case
  // letters and decimal digits behind it.
  lemma LabelShape(cps: seq<nat>)
    requires |cps| <= MAX && Label(cps).Some?
    ensures (forall c :: c in cps ==> c < 128) ==> CodePoints(Label(cps).value) == cps
    ensures (exists c :: c in cps && c >= 128) ==>
      exists out :: IsLower(out)
        && Label(cps).value == "xn--" + Basic(cps) + (if exists c :: c in cps && c < 128 then "-" else "") + out
  {
    NoneLeft(cps, 128);
    BasicIsEmpty(cps);
    if Todo(cps, 128) > 0 {
      var out := EncodedShape(cps);
    } else {
      BasicIsBasic(cps);
    }
  }

  lemma EncodedShape(cps: seq<nat>) returns (out: string)
    requires |cps| <= MAX && Label(cps).Some? && Todo(cps, 128) > 0
    ensures IsLower(out) && Label(cps).value == "xn--" + Basic(cps) + (if Basic(cps) != "" then "-" else "") + out
  {
    RoundsAreLower(cps, FirstEnc(cps));
    out := Rounds(cps, FirstEnc(cps)).value.out;
    hide Rounds;
    hide Basic;
    assert ['x', 'n', '-', '-'] + Joined(Basic(cps), out)
      == "xn--" + Basic(cps) + (if Basic(cps) != "" then "-" else "") + out;
  }

  lemma {:induction false} BasicIsEmpty(cps: seq<nat>)
    ensures Basic(cps) != "" <==> exists c :: c in cps && c < 128
  {
    if cps != [] {
      BasicIsEmpty(cps[1..]);
      assert forall c :: c in cps <==> c == cps[0] || c in cps[1..];
      if cps[0] < 128 {
        assert cps[0] in cps && Basic(cps)[0] == cps[0] as char;
      } else {
        assert Basic(cps) == Basic(cps[1..]);
      }
    }
  }

  lemma ShortDecode(s: string)
    requires Decode(s).Some?
    ensures |Decode(s).value| <= |s|
  {
    var b := LastHyphen(s);
    var literal := if b > 0 then s[..b] else "";
    var digits := if b > 0 then s[b + 1..] else s;
    DecodeIsShort(digits, Dec(128, 0, 72, CodePoints(literal)));
  }

  // A label that fails: the five ASCII characters "xn--a".
  lemma PrefixedAsciiFails()
    ensures var cps := [120, 110, 45, 45, 97]; Label(cps).Some? && DecodeLabel(Label(cps).value) != Some(cps)
  {
    var cps := [120, 110, 45, 45, 97];
    NoneLeft(cps, 128);
    BasicIsBasic(cps);
    var out := Basic(cps);
    assert CodePoints(out)[0] == 120 && CodePoints(out)[1] == 110 && CodePoints(out)[2] == 45
      && CodePoints(out)[3] == 45;
    assert out[0] == 'x' && out[1] == 'n' && out[2] == '-' && out[3] == '-';
    AsciiRoundTrip(cps);
  }

  // ---------- When UV_E2BIG is returned ----------

  lemma QuotientTest(x: nat, y: nat, room: nat)
    requires y > 0
    ensures x > room / y <==> x * y > room
  {
    var q, r := room / y, room % y;
    assert room == y * q + r && 0 <= r < y;
    if x > q { Times(x, q + 1, y); } else { Times(q, x, y); }
  }

  // The test x > ~delta / y fails exactly if delta + x * y needs more than 32 bits.
  lemma JumpTest(e: Enc, m: nat)
    requires m >= e.n && e.delta <= MAX
    ensures JumpOverflows(e, m) <==> e.delta + (m - e.n) * (e.h + 1) > MAX
    ensures Jump(e, m).delta == e.delta + (m - e.n) * (e.h + 1)
  {
    RowsTimes(m - e.n, e.h + 1);
    QuotientTest(m - e.n, e.h + 1, MAX - e.delta);
  }

  // Bounds within which nothing overflows.
  predicate Small(cps: seq<nat>) { |cps| <= 3854 && forall c :: c in cps ==> c <= 0x10FFFF }

  lemma RowsBound(a: nat, width: nat)
    requires a <= 0x10FFFF && width <= 3855
    ensures Rows(a, width) + width <= MAX
  {
    RowsTimes(a, width);
    Times(0x10FFFF, a, width);
  }

  lemma DeltaBound(cps: seq<nat>, e: Enc, p: nat, d: Dec, start: Dec)
    requires Small(cps) && p <= |cps| && Agree(cps, e, p, d, start) && e.n <= 0x10FFFF
    ensures e.delta < MAX && (p < |cps| && cps[p] < e.n ==> e.delta + 1 <= MAX)
  {
    KeptMonotone(cps, e.n, p, 0, |cps|);
    KeptMonotone(cps, e.n, p, p, |cps|);
    RowsBound(e.n - d.n, e.h + 1);
  }

  lemma {:induction false} ScanFits(cps: seq<nat>, p: nat, e: Enc, d: Dec, start: Dec)
    requires Small(cps) && p <= |cps| && Agree(cps, e, p, d, start) && e.n <= 0x10FFFF
    ensures Scan(cps, p, e).Some?
    decreases |cps| - p
  {
    if p < |cps| {
      DeltaBound(cps, e, p, d, start);
      if cps[p] == e.n {
        var d' := EmitAgrees(cps, e, p, d, start);
        ScanFits(cps, p + 1, Emit(e), d', start);
      } else {
        PassAgrees(cps, e, p, d, start);
        ScanFits(cps, p + 1, if cps[p] < e.n then e.(delta := e.delta + 1) else e, d, start);
      }
    }
  }

  lemma JumpFits(cps: seq<nat>, e: Enc, m: nat, d: Dec, start: Dec)
    requires Small(cps) && Agree(cps, e, 0, d, start) && e.delta <= MAX
    requires m >= e.n && m in cps && forall c :: c in cps && c >= e.n ==> m <= c
    ensures !JumpOverflows(e, m) && Agree(cps, Jump(e, m), 0, d, start) && Jump(e, m).n <= 0x10FFFF
  {
    JumpAgrees(cps, e, m, d, start);
    DeltaBound(cps, Jump(e, m), 0, d, start);
    JumpTest(e, m);
  }

  lemma {:induction false} RoundsFit(cps: seq<nat>, e: Enc, d: Dec, start: Dec)
    requires Small(cps) && Agree(cps, e, 0, d, start) && e.delta <= MAX
    ensures Rounds(cps, e).Some?
    decreases Todo(cps, e.n)
  {
    if Todo(cps, e.n) > 0 {
      var m := Least(cps, e.n);
      JumpFits(cps, e, m, d, start);
      ScanFits(cps, 0, Jump(e, m), d, start);
      var d' := RoundAgrees(cps, e, d, start);
      RoundsFit(cps, AfterRound(cps, e).value, d', start);
    }
  }

  // No label of at most 3854 code points is refused with UV_E2BIG.
  lemma SmallLabelsFit(cps: seq<nat>)
    requires Small(cps)
    ensures Label(cps).Some?
  {
    StartAgrees(cps);
    var d := Dec(128, 0, 72, CodePoints(Basic(cps)));
    RoundsFit(cps, FirstEnc(cps), d, d);
  }

  // ---------- UTF-8 ----------

  type Byte = b: nat | b < 256

  // The result of uv__utf8_decode1: the code point, None for -1, and where *p points then.
  datatype Char = Char(cp: Option<nat>, next: nat)

  // 0x80 == (0xC0 & (b ^ c ^ d)), on the two top bits.
  predicate Continues(b: Byte, c: Byte, d: Byte) {
    (b / 128 + c / 128 + d / 128) % 2 == 1 && (b / 64 % 2 + c / 64 % 2 + d / 64 % 2) % 2 == 0
  }

  function Assembled(a: nat, b: Byte, c: Byte, d: Byte, min: nat): Option<nat> {
    var v := a * 0x40000 + b % 64 * 0x1000 + c % 64 * 0x40 + d % 64;
    if !Continues(b, c, d) || v < min || v > 0x10FFFF || 0xD800 <= v <= 0xDFFF then None else Some(v)
  }

  function DecodeSlow(s: seq<Byte>, p: nat, a: Byte): (r: Char)
    requires p <= |s| && a >= 128
    ensures p <= r.next <= |s|
  {
    var left := |s| - p;
    if a > 0xF7 then Char(None, p)
    else if left >= 3 && a > 0xEF then Char(Assembled(a % 8, s[p], s[p + 1], s[p + 2], 0x10000), p + 3)
    else if left >= 2 && a > 0xDF then Char(Assembled(0, 0x80 + a % 16, s[p], s[p + 1], 0x800), p + 2)
    else if left >= 1 && a > 0xBF then Char(Assembled(0, 0x80, 0x80 + a % 32, s[p], 0x80), p + 1)
    else Char(None, p)
  }

  function Decode1(s: seq<Byte>, p: nat): (r: Char)
    requires p < |s|
    ensures p < r.next <= |s|
  { if s[p] < 128 then Char(Some(s[p]), p + 1) else DecodeSlow(s, p + 1, s[p]) }

  // Section 3 of RFC 3629.
  predicate Scalar(c: nat) { c <= 0x10FFFF && !(0xD800 <= c <= 0xDFFF) }

  function Utf8(c: nat): seq<Byte>
    requires Scalar(c)
  {
    if c < 0x80 then [c]
    else if c < 0x800 then [0xC0 + c / 0x40, 0x80 + c % 0x40]
    else if c < 0x10000 then [0xE0 + c / 0x1000, 0x80 + c / 0x40 % 0x40, 0x80 + c % 0x40]
    else [0xF0 + c / 0x40000, 0x80 + c / 0x1000 % 0x40, 0x80 + c / 0x40 % 0x40, 0x80 + c % 0x40]
  }

  // Whatever the bytes, an accepted sequence stands for a scalar value.
  lemma AcceptedIsScalar(s: seq<Byte>, p: nat)
    requires p < |s| && Decode1(s, p).cp.Some?
    ensures Scalar(Decode1(s, p).cp.value)
  {
  }

  lemma AssembledTop(a: nat, b: Byte, c: Byte, d: Byte, min: nat)
    requires 0x80 <= b < 0xC0 && 0x80 <= c < 0xC0 && 0x80 <= d < 0xC0
    ensures var v := a * 0x40000 + (b - 0x80) * 0x1000 + (c - 0x80) * 0x40 + (d - 0x80);
            Assembled(a, b, c, d, min) == if v < min || !Scalar(v) then None else Some(v)
  {
    assert b / 128 == 1 && c / 128 == 1 && d / 128 == 1;
    assert b / 64 == 2 && c / 64 == 2 && d / 64 == 2;
  }

  lemma Utf8Two(c: nat)
    requires 0x80 <= c < 0x800
    ensures Assembled(0, 0x80, 0x80 + (0xC0 + c / 0x40) % 32, 0x80 + c % 0x40, 0x80) == Some(c)
  {
    var x, y := c / 0x40, c % 0x40;
    assert c == x * 0x40 + y && x < 32;
    assert (0xC0 + x) % 32 == x;
    AssembledTop(0, 0x80, 0x80 + x, 0x80 + y, 0x80);
  }

  lemma Utf8Three(c: nat)
    requires 0x800 <= c < 0x10000 && Scalar(c)
    ensures Assembled(0, 0x80 + (0xE0 + c / 0x1000) % 16, 0x80 + c / 0x40 % 0x40, 0x80 + c % 0x40, 0x800) == Some(c)
  {
    var x, y, z := c / 0x1000, c / 0x40 % 0x40, c % 0x40;
    assert c / 0x40 / 0x40 == x;
    assert c == x * 0x1000 + y * 0x40 + z && x < 16;
    assert (0xE0 + x) % 16 == x;
    AssembledTop(0, 0x80 + x, 0x80 + y, 0x80 + z, 0x800);
  }

  lemma Utf8Four(c: nat)
    requires 0x10000 <= c && Scalar(c)
    ensures Assembled((0xF0 + c / 0x40000) % 8, 0x80 + c / 0x1000 % 0x40, 0x80 + c / 0x40 % 0x40, 0x80 + c % 0x40,
      0x10000) == Some(c)
  {
    var w, x, y, z := c / 0x40000, c / 0x1000 % 0x40, c / 0x40 % 0x40, c % 0x40;
    assert c / 0x40 / 0x40 == c / 0x1000 && c / 0x1000 / 0x40 == w;
    assert c == w * 0x40000 + x * 0x1000 + y * 0x40 + z && w < 5;
    assert (0xF0 + w) % 8 == w;
    AssembledTop(w, 0x80 + x, 0x80 + y, 0x80 + z, 0x10000);
  }

  // A well-formed sequence is read as the code point that it encodes.
  lemma Utf8RoundTrip(pre: seq<Byte>, c: nat, post: seq<Byte>)
    requires Scalar(c)
    ensures Decode1(pre + Utf8(c) + post, |pre|) == Char(Some(c), |pre| + |Utf8(c)|)
  {
    var s := pre + Utf8(c) + post;
    if c < 0x80 {
    } else if c < 0x800 {
      Utf8Two(c);
    } else if c < 0x10000 {
      Utf8Three(c);
    } else {
      Utf8Four(c);
    }
  }

  // The code points of a label from position p on.
  function All(s: seq<Byte>, p: nat): Option<seq<nat>>
    requires p <= |s|
    decreases |s| - p
  {
    if p == |s| then Some([])
    else
      var u := Decode1(s, p);
      if u.cp.None? then None
      else
        var t := All(s, u.next);
        if t.None? then None else Some([u.cp.value] + t.value)
  }

  function Utf8All(cps: seq<nat>): seq<Byte>
    requires forall i :: 0 <= i < |cps| ==> Scalar(cps[i])
  { if cps == [] then [] else Utf8(cps[0]) + Utf8All(cps[1..]) }

  lemma {:induction false} WellFormedDecodes(pre: seq<Byte>, cps: seq<nat>)
    requires forall i :: 0 <= i < |cps| ==> Scalar(cps[i])
    ensures All(pre + Utf8All(cps), |pre|) == Some(cps)
    decreases |cps|
  {
    hide Decode1, Scalar, Utf8;
    if cps == [] {
      assert pre + Utf8All(cps) == pre;
    } else {
      var u, rest := Utf8(cps[0]), Utf8All(cps[1..]);
      assert pre + Utf8All(cps) == pre + u + rest;
      Utf8RoundTrip(pre, cps[0], rest);
      WellFormedDecodes(pre + u, cps[1..]);
      assert cps == [cps[0]] + cps[1..];
    }
  }

  lemma {:induction false} AllScalar(s: seq<Byte>, p: nat)
    requires p <= |s| && All(s, p).Some?
    ensures |All(s, p).value| <= |s| - p && forall c :: c in All(s, p).value ==> Scalar(c)
    decreases |s| - p
  {
    if p < |s| {
      AcceptedIsScalar(s, p);
      AllScalar(s, Decode1(s, p).next);
    }
  }

  // ---------- The program ----------

  // uv__utf8_decode1; cp is -1 for an error.
  method Utf8Decode1(s: seq<Byte>, p: nat) returns (cp: int, next: nat)
    requires p < |s|
    ensures var r := Decode1(s, p); next == r.next && (if r.cp.None? then cp == -1 else cp == r.cp.value)
  {
    var a: nat := s[p];
    next := p + 1;
    if a < 128 { return a, next; }
    if a > 0xF7 { return -1, next; }
    var b: Byte, c: Byte, d: Byte, min;
    if |s| - next >= 3 && a > 0xEF {
      min := 0x10000;
      a := a % 8;
      b, c, d, next := s[next], s[next + 1], s[next + 2], next + 3;
    } else if |s| - next >= 2 && a > 0xDF {
      min := 0x800;
      b, c, d, next := 0x80 + a % 16, s[next], s[next + 1], next + 2;
      a := 0;
    } else if |s| - next >= 1 && a > 0xBF {
      min := 0x80;
      b, c, d, next := 0x80, 0x80 + a % 32, s[next], next + 1;
      a := 0;
    } else {
      return -1, next;
    }
    if !Continues(b, c, d) { return -1, next; }
    b, c, d := b % 64, c % 64, d % 64;
    a := a * 0x40000 + b * 0x1000 + c * 0x40 + d;
    if a < min { return -1, next; }
    if a > 0x10FFFF { return -1, next; }
    if a >= 0xD800 && a <= 0xDFFF { return -1, next; }
    return a, next;
  }

  // The output pointers d and de. What does not fit is dropped; all is what was to be written.
  class Sink {
    const buf: array<char>
    var d: nat
    ghost var all: string

    ghost predicate Valid()
      reads this, buf
    { d == (if |all| <= buf.Length then |all| else buf.Length) && buf[..d] == all[..d] }

    constructor (buf: array<char>)
      ensures Valid() && this.buf == buf && all == ""
    {
      this.buf, d, all := buf, 0, "";
    }

    // if (*d < de) *(*d)++ = c
    method Put(c: char)
      requires Valid()
      modifies this, buf
      ensures Valid() && all == old(all) + [c]
    {
      if d < buf.Length {
        buf[d] := c;
        d := d + 1;
      }
      all := all + [c];
    }
  }

  function Pow(base: nat, k: nat): nat { if k == 0 then 1 else base * Pow(base, k - 1) }

  // One round of the digit loop: whether it breaks, else the digit written and the new q.
  method OneDigit(q: nat, k: nat, bias: nat, ghost left: nat) returns (stop: bool, digit: char, next: nat)
    requires q < Pow(10, left)
    ensures stop ==> EncodeInt(q, k, bias) == [digit] && next == q
    ensures !stop ==>
      EncodeInt(q, k, bias) == [digit] + EncodeInt(next, k + 36, bias) && left > 0
      && next < Pow(10, left - 1) && next < q
  {
    var t := 1;
    if k > bias { t := k - bias; }
    if t > 26 { t := 26; }
    if q < t { return true, Digit(q), q; }
    var x := q - t;
    var y := 36 - t;
    DigitStep(q, k, bias, x, y, left);
    next := x / y;
    t := t + x % y;
    return false, Digit(t), next;
  }

  // The digit loop. k stays below 36 * 12, far from overflow.
  method PutInt(sink: Sink, delta: nat, bias: nat)
    requires sink.Valid() && delta <= MAX
    modifies sink, sink.buf
    ensures sink.Valid() && sink.all == old(sink.all) + EncodeInt(delta, 36, bias)
  {
    var q, k := delta, 36;
    ghost var left := 10;
    MaxDigits();
    while true
      invariant sink.Valid() && 0 <= left <= 10 && 0 <= q < Pow(10, left) && 36 <= k == 36 * (11 - left)
      invariant sink.all + EncodeInt(q, k, bias) == old(sink.all) + EncodeInt(delta, 36, bias)
      decreases q
    {
      hide Pow, EncodeInt;
      ghost var done := sink.all;
      var stop, digit, next := OneDigit(q, k, bias, left);
      sink.Put(digit);
      if stop { break; }
      assert done + ([digit] + EncodeInt(next, k + 36, bias)) == sink.all + EncodeInt(next, k + 36, bias);
      q, k, left := next, k + 36, left - 1;
    }
  }

  lemma MaxDigits()
    ensures MAX < Pow(10, 10) && MAX < Pow(35, 7)
  {
    assert Pow(10, 2) == 100 && Pow(10, 4) == 10000;
    assert Pow(10, 6) == 1000000 && Pow(10, 8) == 100000000;
    assert Pow(35, 2) == 1225 && Pow(35, 4) == 1500625 && Pow(35, 6) == 1838265625;
  }

  lemma DigitStep(q: nat, k: nat, bias: nat, x: nat, y: nat, left: nat)
    requires Threshold(k, bias) <= q < Pow(10, left) && x == q - Threshold(k, bias) && y == 36 - Threshold(k, bias)
    ensures left > 0 && 0 <= x / y < Pow(10, left - 1) && x / y < q && 0 <= x % y && Threshold(k, bias) + x % y < 36
    ensures EncodeInt(q, k, bias) == [Digit(Threshold(k, bias) + x % y)] + EncodeInt(x / y, k + 36, bias)
  {
    Divided(x, y);
    assert Pow(10, 0) == 1;
    Times(y, 10, x / y);
  }

  // The bias adaptation at the end of an emission. The comment of the source is right that
  // no check is needed: delta has just been halved.
  method AdaptBias(emitted: nat, h: nat, first: bool) returns (bias: nat)
    requires emitted <= MAX && h > 0
    ensures bias == Adapt(emitted, h, first)
  {
    var delta: nat := emitted / 2;
    if first { delta := delta / 350; }
    DividedAny(delta, h);
    var sum := delta + delta / h;
    assert sum <= MAX;
    bias := ShrinkLoop(sum);
  }

  method ShrinkLoop(sum: nat) returns (bias: nat)
    requires sum <= MAX
    ensures bias == Shrink(sum, 0)
  {
    var delta := sum;
    bias := 0;
    ghost var left := 7;
    MaxDigits();
    while delta > 455
      invariant 0 <= left <= 7 && 0 <= delta < Pow(35, left) && bias == 36 * (7 - left)
      invariant Shrink(delta, bias) == Shrink(sum, 0)
    {
      assert Pow(35, 0) == 1;
      delta := delta / 35;
      bias := bias + 36;
      left := left - 1;
    }
    bias := bias + 36 * delta / (delta + 38);
  }

  lemma DividedAny(a: nat, y: nat)
    requires y > 0
    ensures 0 <= a / y <= a
  {
    if y >= 2 { Divided(a, y); }
  }

  lemma {:induction false} TodoAppend(cps: seq<nat>, c: nat, n: nat)
    ensures Todo(cps + [c], n) == Todo(cps, n) + (if c >= n then 1 else 0)
  {
    if cps != [] {
      assert (cps + [c])[1..] == cps[1..] + [c];
      TodoAppend(cps[1..], c, n);
    }
  }

  lemma {:induction false} TodoJump(cps: seq<nat>, n: nat, m: nat)
    requires n <= m && forall c :: c in cps && c >= n ==> m <= c
    ensures Todo(cps, n) == Todo(cps, m)
  {
    if cps != [] {
      assert cps[0] in cps && forall c :: c in cps[1..] ==> c in cps;
      TodoJump(cps[1..], n, m);
    }
  }

  lemma TodoSplits(cps: seq<nat>, j: nat, n: nat)
    requires j < |cps|
    ensures var here := Todo(cps[..j], n + 1) + Todo(cps[j..], n);
      var next := Todo(cps[..j + 1], n + 1) + Todo(cps[j + 1..], n);
            next == here - (if cps[j] == n then 1 else 0)
  {
    assert cps[..j + 1] == cps[..j] + [cps[j]] && cps[j..][1..] == cps[j + 1..];
    TodoAppend(cps[..j], cps[j], n + 1);
  }

  // Reading on: the tail of the code points loses its head.
  lemma AllStep(lab: seq<Byte>, p: nat, cps: seq<nat>, j: nat)
    requires p < |lab| && j <= |cps| && All(lab, p) == Some(cps[j..])
    ensures j < |cps| && Decode1(lab, p).cp == Some(cps[j]) && All(lab, Decode1(lab, p).next) == Some(cps[j + 1..])
  {
    assert cps[j..][1..] == cps[j + 1..];
  }

  lemma ReadOn(lab: seq<Byte>, p: nat, seen: seq<nat>)
    requires p < |lab| && Decode1(lab, p).cp.Some?
    ensures var u := Decode1(lab, p);
            && (All(lab, p).Some? <==> All(lab, u.next).Some?)
            && (All(lab, p).Some? ==> seen + All(lab, p).value == (seen + [u.cp.value]) + All(lab, u.next).value)
  {
  }

  // The first loop of uv__idna_toascii_label, which counts and rejects ill-formed labels.
  method CountLabel(lab: seq<Byte>) returns (ok: bool, h: nat, todo: nat)
    ensures ok <==> All(lab, 0).Some?
    ensures ok ==> h == |Basic(All(lab, 0).value)| && todo == Todo(All(lab, 0).value, 128)
  {
    var s := 0;
    ghost var seen: seq<nat> := [];
    h, todo := 0, 0;
    while s < |lab|
      invariant 0 <= s <= |lab| && h == |Basic(seen)| && todo == Todo(seen, 128)
      invariant All(lab, 0).Some? <==> All(lab, s).Some?
      invariant All(lab, s).Some? ==> All(lab, 0).value == seen + All(lab, s).value
    {
      var c, next := Utf8Decode1(lab, s);
      if c == -1 { return false, 0, 0; }
      ReadOn(lab, s, seen);
      BasicAppend(seen, c);
      TodoAppend(seen, c, 128);
      s, seen := next, seen + [c];
      if c < 128 { h := h + 1; } else { todo := todo + 1; }
    }
    assert seen + [] == seen;
    ok := true;
  }

  // The second loop, which stops behind the last ASCII character.
  method WriteBasic(lab: seq<Byte>, h: nat, sink: Sink, ghost cps: seq<nat>)
    requires sink.Valid() && All(lab, 0) == Some(cps) && h == |Basic(cps)|
    modifies sink, sink.buf
    ensures sink.Valid() && sink.all == old(sink.all) + Basic(cps)
  {
    var x, s := 0, 0;
    ghost var j := 0;
    assert cps[0..] == cps;
    while s < |lab|
      invariant 0 <= s <= |lab| && j <= |cps| && All(lab, s) == Some(cps[j..])
      invariant sink.Valid() && x == |Basic(cps[..j])| && sink.all == old(sink.all) + Basic(cps[..j])
    {
      AllStep(lab, s, cps, j);
      BasicAppend(cps[..j], cps[j]);
      assert cps[..j + 1] == cps[..j] + [cps[j]];
      var c, next := Utf8Decode1(lab, s);
      s, j := next, j + 1;
      if c > 127 { continue; }
      sink.Put(c as char);
      x := x + 1;
      if x == h {
        BasicSplits(cps, j);
        return;
      }
    }
    assert cps[..j] == cps;
  }

  lemma {:induction false} BasicSplits(cps: seq<nat>, j: nat)
    requires j <= |cps|
    ensures Basic(cps) == Basic(cps[..j]) + Basic(cps[j..])
  {
    if j > 0 {
      assert cps[..j][1..] == cps[1..][..j - 1] && cps[1..][j - 1..] == cps[j..];
      BasicSplits(cps[1..], j - 1);
    }
  }

  // The search for the next code point.
  method FindLeast(lab: seq<Byte>, n: nat, ghost cps: seq<nat>) returns (m: nat)
    requires All(lab, 0) == Some(cps) && Todo(cps, n) > 0
    ensures m == Least(cps, n)
  {
    m := MAX;
    var s := 0;
    ghost var j := 0;
    assert cps[0..] == cps;
    while s < |lab|
      invariant 0 <= s <= |lab| && j <= |cps| && All(lab, s) == Some(cps[j..])
      invariant forall k :: 0 <= k < j && cps[k] >= n ==> m <= cps[k]
      invariant m == MAX || (m in cps && m >= n)
    {
      AllStep(lab, s, cps, j);
      var c, next := Utf8Decode1(lab, s);
      s, j := next, j + 1;
      if c >= n && c < m { m := c; }
    }
    AllScalar(lab, 0);
    ghost var least := Least(cps, n);
    ghost var k :| 0 <= k < |cps| && cps[k] == least;
  }

  // The registers of the encoder.
  class Encoder {
    var n: nat
    var delta: nat
    var bias: nat
    var h: nat
    var first: bool
    var todo: nat
    ghost var out: string

    ghost function View(): Enc
      reads this
    { Enc(n, delta, bias, h, first, out) }

    constructor (h: nat, todo: nat)
      ensures View() == Enc(128, 0, 72, h, true, "") && this.todo == todo
    {
      n, delta, bias, first, out := 128, 0, 72, true, "";
      this.h, this.todo := h, todo;
    }

    // c == n: the integer is written and the state adapted.
    method EmitNext(sink: Sink)
      requires sink.Valid() && delta <= MAX && todo > 0
      modifies this, sink, sink.buf
      ensures View() == Emit(old(View())) && todo == old(todo) - 1
      ensures sink.Valid() && sink.all == old(sink.all) + EncodeInt(old(delta), 36, old(bias))
    {
      PutInt(sink, delta, bias);
      out := out + EncodeInt(delta, 36, bias);
      h := h + 1;
      bias := AdaptBias(delta, h, first);
      first := false;
      delta := 0;
      todo := todo - 1;
    }

    // What one character of the inner loop does; overflow stands for UV_E2BIG.
    method Character(c: nat, sink: Sink, ghost base: string) returns (overflow: bool)
      requires sink.Valid() && sink.all == base + out && delta <= MAX && (c == n ==> todo > 0)
      modifies this, sink, sink.buf
      ensures overflow <==> c < old(n) && old(delta) == MAX
      ensures !overflow ==> View() == (if c < old(n) then old(View()).(delta := old(delta) + 1)
        else if c == old(n) then Emit(old(View())) else old(View()))
      ensures !overflow ==> todo == old(todo) - (if c == old(n) then 1 else 0)
      ensures sink.Valid() && sink.all == base + out && delta <= MAX
    {
      overflow := false;
      if c < n {
        if delta == MAX { return true; }
        delta := delta + 1;
      }
      if c != n { return; }
      EmitNext(sink);
    }

    // The inner loop.
    method Pass(lab: seq<Byte>, sink: Sink, ghost cps: seq<nat>, ghost base: string) returns (ok: bool)
      requires All(lab, 0) == Some(cps) && todo == Todo(cps, n)
      requires sink.Valid() && sink.all == base + out && delta <= MAX
      modifies this, sink, sink.buf
      ensures ok <==> Scan(cps, 0, old(View())).Some?
      ensures ok ==> View() == Scan(cps, 0, old(View())).value && todo == Todo(cps, n + 1)
      ensures sink.Valid() && sink.all == base + out && delta <= MAX
    {
      var s := 0;
      ghost var j := 0;
      ghost var goal := Scan(cps, 0, View());
      assert cps[0..] == cps && Todo(cps[..0], n + 1) == 0;
      while s < |lab|
        invariant 0 <= s <= |lab| && j <= |cps| && All(lab, s) == Some(cps[j..])
        invariant Scan(cps, j, View()) == goal && n == old(n)
        invariant todo == Todo(cps[..j], n + 1) + Todo(cps[j..], n)
        invariant sink.Valid() && sink.all == base + out && delta <= MAX
      {
        AllStep(lab, s, cps, j);
        TodoSplits(cps, j, n);
        var c, next := Utf8Decode1(lab, s);
        s := next;
        var overflow := Character(c, sink, base);
        if overflow { return false; }
        j := j + 1;
      }
      assert cps[..j] == cps && cps[j..] == [];
      ok := true;
    }
  }

  // One round of the outer loop: the jump, the pass and the increments behind it.
  method EncodeRound(enc: Encoder, lab: seq<Byte>, sink: Sink, ghost cps: seq<nat>, ghost base: string)
    returns (ok: bool)
    requires All(lab, 0) == Some(cps) && |cps| <= MAX && enc.delta <= MAX && enc.todo == Todo(cps, enc.n) > 0
    requires sink.Valid() && sink.all == base + enc.out
    modifies enc, sink, sink.buf
    ensures var next := AfterRound(cps, old(enc.View())); (ok <==> next.Some?) && (ok ==> enc.View() == next.value)
    ensures ok ==> enc.todo == Todo(cps, enc.n)
    ensures sink.Valid() && sink.all == base + enc.out
  {
    var m := FindLeast(lab, enc.n, cps);
    var x := m - enc.n;
    var y := enc.h + 1;
    JumpTest(enc.View(), m);
    TodoJump(cps, enc.n, m);
    if x > (MAX - enc.delta) / y { return false; }
    Times(y, 0, x);
    enc.delta := enc.delta + x * y;
    enc.n := m;
    ghost var j := enc.View();
    ok := enc.Pass(lab, sink, cps, base);
    if !ok { return; }
    PassEnds(cps, j);
    enc.delta := enc.delta + 1;
    enc.n := enc.n + 1;
  }

  // The outer loop.
  method EncodeRest(enc: Encoder, lab: seq<Byte>, sink: Sink, ghost cps: seq<nat>, ghost base: string)
    returns (ok: bool)
    requires All(lab, 0) == Some(cps) && |cps| <= MAX && enc.delta <= MAX && enc.todo == Todo(cps, enc.n)
    requires sink.Valid() && sink.all == base + enc.out
    modifies enc, sink, sink.buf
    ensures ok <==> Rounds(cps, old(enc.View())).Some?
    ensures ok ==> sink.all == base + Rounds(cps, old(enc.View())).value.out
    ensures sink.Valid()
  {
    ghost var goal := Rounds(cps, enc.View());
    while enc.todo > 0
      invariant enc.delta <= MAX && enc.todo == Todo(cps, enc.n) && Rounds(cps, enc.View()) == goal
      invariant sink.Valid() && sink.all == base + enc.out
      decreases enc.todo
    {
      ok := EncodeRound(enc, lab, sink, cps, base);
      if !ok { return; }
    }
    ok := true;
  }

  datatype Rc = Length(n: nat) | Einval | E2big

  // What is written before the integers.
  function Head(cps: seq<nat>): string {
    if Todo(cps, 128) == 0 then Basic(cps) else ['x', 'n', '-', '-'] + Joined(Basic(cps), "")
  }

  lemma LabelIs(cps: seq<nat>, before: string)
    requires |cps| <= MAX
    ensures Todo(cps, 128) == 0 ==> Label(cps) == Some(Head(cps))
    ensures Todo(cps, 128) > 0 ==>
      var e := Rounds(cps, FirstEnc(cps));
      (Label(cps).Some? <==> e.Some?) && (e.Some? ==> (before + Head(cps)) + e.value.out == before + Label(cps).value)
  {
    if Rounds(cps, FirstEnc(cps)).Some? { HeadJoins(before, Basic(cps), Rounds(cps, FirstEnc(cps)).value.out); }
  }

  lemma HeadJoins(before: string, a: string, out: string)
    ensures (before + (['x', 'n', '-', '-'] + Joined(a, ""))) + out == before + (['x', 'n', '-', '-'] + Joined(a, out))
  {
    assert Joined(a, "") + out == Joined(a, out);
  }

  method PutPrefix(sink: Sink)
    requires sink.Valid()
    modifies sink, sink.buf
    ensures sink.Valid() && sink.all == old(sink.all) + ['x', 'n', '-', '-']
  {
    sink.Put('x');
    sink.Put('n');
    sink.Put('-');
    sink.Put('-');
  }

  // The prefix, the ASCII characters and the separator.
  method WriteHead(lab: seq<Byte>, h: nat, todo: nat, sink: Sink, ghost cps: seq<nat>)
    requires sink.Valid() && All(lab, 0) == Some(cps) && h == |Basic(cps)| && todo == Todo(cps, 128)
    modifies sink, sink.buf
    ensures sink.Valid() && sink.all == old(sink.all) + Head(cps)
  {
    ghost var before, a := sink.all, Basic(cps);
    if todo > 0 { PutPrefix(sink); }
    WriteBasic(lab, h, sink, cps);
    if todo == 0 { return; }
    assert sink.all == before + (['x', 'n', '-', '-'] + a);
    if h > 0 { sink.Put('-'); }
    assert sink.all == before + (['x', 'n', '-', '-'] + Joined(a, ""));
  }

  // uv__idna_toascii_label. The counters and the returned length are 32 bits wide, hence the
  // bound on the label.
  method ToAsciiLabel(lab: seq<Byte>, sink: Sink) returns (rc: Rc)
    requires sink.Valid() && |lab| <= 0x7FFF_FFFF
    modifies sink, sink.buf
    ensures sink.Valid()
    ensures All(lab, 0).None? ==> rc == Einval && sink.all == old(sink.all)
    ensures All(lab, 0).Some? ==>
      |All(lab, 0).value| <= MAX && (rc == E2big <==> Label(All(lab, 0).value).None?) && rc != Einval
    ensures rc.Length? ==> All(lab, 0).Some? && sink.all == old(sink.all) + Label(All(lab, 0).value).value
  {
    var ok, h, todo := CountLabel(lab);
    if !ok { return Einval; }
    AllScalar(lab, 0);
    ghost var cps := All(lab, 0).value;
    ghost var before := sink.all;
    WriteHead(lab, h, todo, sink, cps);
    LabelIs(cps, before);
    if todo == 0 { return Length(h); }
    var enc := new Encoder(h, todo);
    ok := EncodeRest(enc, lab, sink, cps, before + Head(cps));
    if !ok { return E2big; }
    rc := Length(0);
  }

  // ---------- Whole names ----------

  // '.', and the ideographic, fullwidth and halfwidth full stops.
  predicate IsDot(c: nat) { c == 0x2E || c == 0x3002 || c == 0xFF0E || c == 0xFF61 }

  // What uv__idna_toascii writes before the NUL, where cur is the label being collected.
  function Name(cps: seq<nat>, cur: seq<nat>): Option<string>
    requires |cps| + |cur| <= MAX
    decreases |cps|
  {
    if cps == [] then (if cur == [] then Some("") else Label(cur))
    else if !IsDot(cps[0]) then Name(cps[1..], cur + [cps[0]])
    else
      var a, b := Label(cur), Name(cps[1..], []);
      if a.None? || b.None? then None else Some(a.value + ['.'] + b.value)
  }

  // Splitting a name at its dots and decoding each label.
  function DecodeName(t: string, cur: string): Option<seq<nat>>
    decreases |t|
  {
    if t == "" then (if cur == "" then Some([]) else DecodeLabel(cur))
    else if t[0] != '.' then DecodeName(t[1..], cur + [t[0]])
    else
      var a, b := DecodeLabel(cur), DecodeName(t[1..], "");
      if a.None? || b.None? then None else Some(a.value + [0x2E] + b.value)
  }

  // What section 3.1 of RFC 3490 takes for a dot: U+002E, U+3002, U+FF0E and U+FF61.
  predicate RfcDot(c: nat) { c in [0x2E, 0x3002, 0xFF0E, 0xFF61] }

  // The name with every full stop written as '.'.
  function Normal(cps: seq<nat>): seq<nat> {
    if cps == [] then [] else [if RfcDot(cps[0]) then 0x2E else cps[0]] + Normal(cps[1..])
  }

  // No label consists of ASCII code points beginning with "xn--".
  predicate NoPrefixed(cps: seq<nat>, cur: seq<nat>)
    decreases |cps|
  {
    if cps == [] || RfcDot(cps[0])
    then !Prefixed(cur) && (cps == [] || NoPrefixed(cps[1..], []))
    else NoPrefixed(cps[1..], cur + [cps[0]])
  }

  lemma {:induction false} BasicHasNoDot(cps: seq<nat>)
    requires 0x2E !in cps
    ensures '.' !in Basic(cps)
  {
    if cps != [] {
      assert cps[0] in cps;
      BasicHasNoDot(cps[1..]);
    }
  }

  lemma LabelHasNoDot(cps: seq<nat>)
    requires |cps| <= MAX && Label(cps).Some? && 0x2E !in cps
    ensures '.' !in Label(cps).value && (cps != [] ==> Label(cps).value != "")
  {
    BasicHasNoDot(cps);
    BasicIsBasic(cps);
    if Todo(cps, 128) > 0 {
      RoundsAreLower(cps, FirstEnc(cps));
    } else if cps != [] {
      assert CodePoints(Basic(cps)) == cps;
    }
  }

  lemma {:induction false} DecodeNameLabel(x: string, rest: string, cur: string)
    requires '.' !in x
    ensures DecodeName(x + rest, cur) == DecodeName(rest, cur + x)
    decreases |x|
  {
    if x == "" {
      assert x + rest == rest && cur + x == cur;
    } else {
      assert (x + rest)[1..] == x[1..] + rest && x[0] in x;
      DecodeNameLabel(x[1..], rest, cur + [x[0]]);
      assert cur + [x[0]] + x[1..] == cur + x;
    }
  }

  // The round trip of a name, which holds exactly if no label of it consists of ASCII code
  // points beginning with "xn--".
  lemma NameRoundTrip(cps: seq<nat>)
    requires |cps| <= MAX && Name(cps, []).Some?
    ensures DecodeName(Name(cps, []).value, "") == Some(Normal(cps)) <==> NoPrefixed(cps, [])
  {
    NameFrom(cps, []);
    assert [] + Normal(cps) == Normal(cps);
  }

  // The same when cur has been collected already.
  lemma {:induction false} NameFrom(cps: seq<nat>, cur: seq<nat>)
    requires |cps| + |cur| <= MAX && Name(cps, cur).Some? && forall c :: c in cur ==> !IsDot(c)
    ensures DecodeName(Name(cps, cur).value, "") == Some(cur + Normal(cps)) <==> NoPrefixed(cps, cur)
    decreases |cps|
  {
    hide DecodeName, Label, Prefixed;
    if cps != [] && !IsDot(cps[0]) {
      NameFrom(cps[1..], cur + [cps[0]]);
      assert cur + [cps[0]] + Normal(cps[1..]) == cur + Normal(cps);
    } else if cps == [] {
      if cur == [] { EmptyName(); } else { LastLabel(cur); }
      assert cur + Normal(cps) == cur;
    } else {
      NameFrom(cps[1..], []);
      NameAtDot(cps, cur);
    }
  }

  lemma NameAtDot(cps: seq<nat>, cur: seq<nat>)
    requires |cps| + |cur| <= MAX && Name(cps, cur).Some? && (forall c :: c in cur ==> !IsDot(c))
    requires cps != [] && IsDot(cps[0])
    requires DecodeName(Name(cps[1..], []).value, "") == Some([] + Normal(cps[1..])) <==> NoPrefixed(cps[1..], [])
    ensures DecodeName(Name(cps, cur).value, "") == Some(cur + Normal(cps)) <==> NoPrefixed(cps, cur)
  {
    hide DecodeName, Label, Prefixed;
    FirstLabel(cur, Name(cps[1..], []).value, Normal(cps[1..]));
    assert [] + Normal(cps[1..]) == Normal(cps[1..]);
    assert cur + [0x2E] + Normal(cps[1..]) == cur + Normal(cps);
  }

  lemma EmptyName()
    ensures DecodeName("", "") == Some([]) && !Prefixed([])
  {
  }

  lemma LastLabel(cur: seq<nat>)
    requires |cur| <= MAX && Label(cur).Some? && 0x2E !in cur
    ensures DecodeName(Label(cur).value, "") == Some(cur) <==> !Prefixed(cur)
  {
    var x := Label(cur).value;
    LabelHasNoDot(cur);
    LabelRoundTrip(cur);
    DecodeNameLabel(x, "", "");
    assert x + "" == x && "" + x == x;
  }

  // A label that fails decodes to something shorter, so the dot behind it is out of place.
  lemma FirstLabel(cur: seq<nat>, rest: string, goal: seq<nat>)
    requires |cur| <= MAX && Label(cur).Some? && 0x2E !in cur
    ensures DecodeName(Label(cur).value + ['.'] + rest, "") == Some(cur + [0x2E] + goal)
            <==> !Prefixed(cur) && DecodeName(rest, "") == Some(goal)
  {
    var x := Label(cur).value;
    LabelHasNoDot(cur);
    LabelRoundTrip(cur);
    DecodeNameLabel(x, ['.'] + rest, "");
    assert x + ['.'] + rest == x + (['.'] + rest) && "" + x == x;
    assert (['.'] + rest)[1..] == rest;
    var a, b := DecodeLabel(x), DecodeName(rest, "");
    if a.Some? && b.Some? {
      if Prefixed(cur) { PrefixedIsShort(cur); }
      Parted(a.value, b.value, cur, goal);
    }
  }

  lemma PrefixedIsShort(cps: seq<nat>)
    requires |cps| <= MAX && Prefixed(cps) && DecodeLabel(Label(cps).value).Some?
    ensures |DecodeLabel(Label(cps).value).value| < |cps|
  {
    BasicIsBasic(cps);
    ShortDecode(Basic(cps)[4..]);
  }

  // Two texts with a first dot each.
  lemma Parted(a: seq<nat>, b: seq<nat>, cur: seq<nat>, goal: seq<nat>)
    requires 0x2E !in cur && |a| <= |cur|
    ensures a + [0x2E] + b == cur + [0x2E] + goal <==> a == cur && b == goal
  {
    var s, t := a + [0x2E] + b, cur + [0x2E] + goal;
    assert s[|a|] == 0x2E;
    assert |a| < |cur| ==> t[|a|] == cur[|a|] && cur[|a|] in cur;
    if s == t {
      assert a == s[..|a|] && cur == t[..|cur|];
      assert b == s[|a| + 1..] && goal == t[|cur| + 1..];
    }
  }

  // The bytes from p to e are read as exactly the code points cur.
  ghost predicate Reads(s: seq<Byte>, p: nat, e: nat, cur: seq<nat>)
    requires p <= e <= |s|
    decreases e - p
  {
    if p == e then cur == []
    else
      var u := Decode1(s, p);
      u.next <= e && cur != [] && u.cp == Some(cur[0]) && Reads(s, u.next, e, cur[1..])
  }

  lemma {:induction false} ReadsMore(s: seq<Byte>, p: nat, e: nat, cur: seq<nat>)
    requires p <= e < |s| && Reads(s, p, e, cur) && Decode1(s, e).cp.Some?
    ensures Reads(s, p, Decode1(s, e).next, cur + [Decode1(s, e).cp.value])
    decreases e - p
  {
    var c := Decode1(s, e).cp.value;
    if p < e {
      ReadsMore(s, Decode1(s, p).next, e, cur[1..]);
      assert (cur + [c])[1..] == cur[1..] + [c];
    } else {
      assert (cur + [c])[1..] == [];
    }
  }

  // A character is read alike in a part that contains it.
  lemma DecodePart(s: seq<Byte>, k: nat, e: nat, p: nat)
    requires k <= p < e <= |s| && Decode1(s, p).cp.Some? && Decode1(s, p).next <= e
    ensures var u := Decode1(s, p); Decode1(s[k..e], p - k) == Char(u.cp, u.next - k)
  {
    var t := s[k..e];
    assert t[p - k] == s[p];
    var u := Decode1(s, p);
    assert forall i :: p <= i < u.next ==> t[i - k] == s[i];
  }

  lemma {:induction false} ReadsAll(s: seq<Byte>, k: nat, p: nat, e: nat, cur: seq<nat>)
    requires k <= p <= e <= |s| && Reads(s, p, e, cur)
    ensures All(s[k..e], p - k) == Some(cur) && |cur| <= e - p
    decreases e - p
  {
    if p < e {
      DecodePart(s, k, e, p);
      ReadsAll(s, k, Decode1(s, p).next, e, cur[1..]);
      assert cur == [cur[0]] + cur[1..];
    }
  }

  // What is left to write when the label cur has been read.
  ghost predicate Left(s: seq<Byte>, si: nat, cur: seq<nat>, done: string, start: string)
    requires si <= |s| && |s| <= 0x7FFF_FFFF
  {
    && (All(s, 0).Some? <==> All(s, si).Some?)
    && (All(s, 0).Some? ==>
          && |All(s, 0).value| <= MAX && |All(s, si).value| + |cur| <= MAX
          && var whole := Name(All(s, 0).value, []); var rest := Name(All(s, si).value, cur);
             (whole.Some? <==> rest.Some?) && (whole.Some? ==> start + whole.value == done + rest.value))
  }

  lemma LeftStart(s: seq<Byte>, start: string)
    requires |s| <= 0x7FFF_FFFF
    ensures Left(s, 0, [], start, start)
  {
    if All(s, 0).Some? { AllScalar(s, 0); }
  }

  lemma LeftChar(s: seq<Byte>, si: nat, cur: seq<nat>, done: string, start: string)
    requires si < |s| <= 0x7FFF_FFFF && Left(s, si, cur, done, start)
    requires Decode1(s, si).cp.Some? && !IsDot(Decode1(s, si).cp.value)
    ensures Left(s, Decode1(s, si).next, cur + [Decode1(s, si).cp.value], done, start)
  {
  }

  lemma LeftDot(s: seq<Byte>, si: nat, cur: seq<nat>, done: string, start: string)
    requires si < |s| <= 0x7FFF_FFFF && |cur| <= MAX && Left(s, si, cur, done, start)
    requires Decode1(s, si).cp.Some? && IsDot(Decode1(s, si).cp.value)
    ensures Label(cur).None? && All(s, 0).Some? ==> |All(s, 0).value| <= MAX && Name(All(s, 0).value, []).None?
    ensures Label(cur).Some? ==> Left(s, Decode1(s, si).next, [], done + Label(cur).value + ['.'], start)
  {
    if All(s, 0).Some? && Label(cur).Some? {
      var rest := All(s, Decode1(s, si).next).value;
      if Name(rest, []).Some? {
        assert done + (Label(cur).value + ['.'] + Name(rest, []).value)
          == (done + Label(cur).value + ['.']) + Name(rest, []).value;
      }
    }
  }

  lemma LeftEnd(s: seq<Byte>, cur: seq<nat>, done: string, start: string)
    requires |s| <= 0x7FFF_FFFF && |cur| <= MAX && Left(s, |s|, cur, done, start)
    ensures All(s, 0).Some? && |All(s, 0).value| <= MAX
    ensures var name := Name(All(s, 0).value, []);
            if cur == [] then name.Some? && start + name.value == done
            else (name.Some? <==> Label(cur).Some?) && (name.Some? ==> start + name.value == done + Label(cur).value)
  {
    assert done + "" == done;
  }

  // The label from lab to e, which has been read as cur.
  method PutLabel(s: seq<Byte>, lab: nat, e: nat, sink: Sink, ghost cur: seq<nat>) returns (rc: Rc)
    requires sink.Valid() && lab <= e <= |s| <= 0x7FFF_FFFF && Reads(s, lab, e, cur)
    modifies sink, sink.buf
    ensures sink.Valid() && |cur| <= MAX && rc != Einval && (rc == E2big <==> Label(cur).None?)
    ensures rc.Length? ==> sink.all == old(sink.all) + Label(cur).value && sink.d >= old(sink.d)
  {
    ReadsAll(s, lab, lab, e, cur);
    rc := ToAsciiLabel(s[lab..e], sink);
  }

  lemma LabelGrows(s: seq<Byte>, lab: nat, e: nat, cur: seq<nat>)
    requires lab <= e < |s| && Reads(s, lab, e, cur) && Decode1(s, e).cp.Some?
    ensures var u := Decode1(s, e); Reads(s, lab, u.next, cur + [u.cp.value]) && |cur| + 1 <= |s|
  {
    ReadsMore(s, lab, e, cur);
    ReadsAll(s, lab, lab, Decode1(s, e).next, cur + [Decode1(s, e).cp.value]);
  }

  // uv__idna_toascii, with the bound on the length that ToAsciiLabel needs.
  method ToAscii(s: seq<Byte>, sink: Sink) returns (rc: Rc)
    requires sink.Valid() && |s| <= 0x7FFF_FFFF
    modifies sink, sink.buf
    ensures sink.Valid()
    ensures All(s, 0).None? ==> !rc.Length?
    ensures All(s, 0).Some? ==>
      |All(s, 0).value| <= MAX && rc != Einval && (rc == E2big <==> Name(All(s, 0).value, []).None?)
    ensures rc.Length? ==>
      sink.all == old(sink.all) + Name(All(s, 0).value, []).value + ['\0'] && rc.n == sink.d - old(sink.d)
  {
    ghost var start := sink.all;
    var ds := sink.d;
    var lab, si := 0, 0;
    ghost var cur: seq<nat> := [];
    LeftStart(s, start);
    while si < |s|
      invariant 0 <= lab <= si <= |s| && Reads(s, lab, si, cur) && |cur| <= |s|
      invariant sink.Valid() && Left(s, si, cur, sink.all, start) && ds <= sink.d
    {
      var st := si;
      var c, next := Utf8Decode1(s, si);
      if c == -1 {
        assert All(s, 0).None?;
        return Einval;
      }
      si := next;
      if !IsDot(c) {
        LabelGrows(s, lab, st, cur);
        LeftChar(s, st, cur, sink.all, start);
        cur := cur + [c];
      } else {
        LeftDot(s, st, cur, sink.all, start);
        rc := PutLabel(s, lab, st, sink, cur);
        if !rc.Length? { return; }
        sink.Put('.');
        lab, cur := si, [];
      }
    }
    LeftEnd(s, cur, sink.all, start);
    if lab < |s| {
      rc := PutLabel(s, lab, |s|, sink, cur);
      if !rc.Length? { return; }
    }
    sink.Put('\0');
    rc := Length(sink.d - ds);
  }
}
