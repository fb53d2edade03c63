// What the texts of inet.c mean: a grammar of IPv6 addresses in terms of digits and groups,
// against which inet_pton6 and inet_ntop6 of module Inet are proved.

module InetTexts {

  import opened Wrappers
  import opened Inet

  const LOWER: string := "0123456789abcdef"
  const UPPER: string := "0123456789ABCDEF"

  // A hexadecimal digit of either case.
  predicate IsDigit(c: char, v: nat) { v < 16 && (c == LOWER[v] || c == UPPER[v]) }

  // Digits that spell v, the last one the least significant.
  predicate Spells(t: string, v: nat) {
    if t == "" then v == 0 else IsDigit(t[|t| - 1], v % 16) && Spells(t[..|t| - 1], v / 16)
  }

  // Between colons: a group of hexadecimal digits, or an IPv4 address.
  datatype Part = Word(text: string, v: nat) | V4(b: seq<nat>)

  predicate PartOk(p: Part) {
    match p
    case Word(t, v) => 1 <= |t| <= 4 && Spells(t, v)
    case V4(b) => |b| == 4 && forall i :: 0 <= i < 4 ==> b[i] < 256
  }

  function PartText(p: Part): string
    requires PartOk(p)
  { if p.Word? then p.text else Text4(p.b) }

  function PartBytes(p: Part): seq<nat> { if p.Word? then [p.v / 256, p.v % 256] else p.b }

  predicate PartsOk(ps: seq<Part>) { forall i :: 0 <= i < |ps| ==> PartOk(ps[i]) }

  function Join(ps: seq<Part>): string
    requires PartsOk(ps)
  {
    if ps == [] then "" else if |ps| == 1 then PartText(ps[0]) else PartText(ps[0]) + ":" + Join(ps[1..])
  }

  function BytesOf(ps: seq<Part>): seq<nat> {
    if ps == [] then [] else PartBytes(ps[0]) + BytesOf(ps[1..])
  }

  // Groups, and perhaps a gap of zeros that is written as two colons.
  datatype Address = Address(front: seq<Part>, gap: bool, back: seq<Part>)

  // An IPv4 address is the last part of all; a gap stands for at least two bytes of zeros.
  predicate WellFormed(a: Address) {
    && PartsOk(a.front) && PartsOk(a.back)
    && (forall i :: 0 <= i < |a.front| && a.front[i].V4? ==> !a.gap && i == |a.front| - 1)
    && (forall i :: 0 <= i < |a.back| && a.back[i].V4? ==> i == |a.back| - 1)
    && (if a.gap then |BytesOf(a.front)| + |BytesOf(a.back)| <= 14 else a.back == [] && |BytesOf(a.front)| == 16)
  }

  function Spelling(a: Address): string
    requires WellFormed(a)
  { Join(a.front) + (if a.gap then "::" + Join(a.back) else "") }

  function Value(a: Address): seq<nat>
    requires WellFormed(a)
  {
    var f, b := BytesOf(a.front), BytesOf(a.back);
    f + Zeros(16 - |f| - |b|) + b
  }

  // ---------- Digits ----------

  lemma DigitMeaning(c: char, v: nat)
    ensures HexVal(c) == Some(v) <==> IsDigit(c, v)
  {
    if v < 16 {
      assert LOWER[v] == if v < 10 then '0' + v as char else 'a' + (v - 10) as char;
      assert UPPER[v] == if v < 10 then '0' + v as char else 'A' + (v - 10) as char;
    }
  }

  lemma {:induction false} ScanSpelled(t: string, v: nat, rest: string, g: Group)
    requires Spells(t, v) && |t| <= 4 && g.seen == 0 && g.val == 0
    ensures Scan6(t + rest, g) == Scan6(rest, g.(seen := |t|, val := v))
  {
    if t == "" {
      assert t + rest == rest;
    } else {
      var c, u := t[|t| - 1], t[..|t| - 1];
      DigitMeaning(c, v % 16);
      ScanSpelled(u, v / 16, [c] + rest, g);
      Scan6Step(c, rest, g.(seen := |u|, val := v / 16));
      assert t + rest == u + ([c] + rest);
    }
  }

  function Power16(n: nat): (r: nat)
    ensures r > 0
  { if n == 0 then 1 else 16 * Power16(n - 1) }

  lemma {:induction false} SpelledBelow(t: string, v: nat, n: nat)
    requires Spells(t, v) && |t| <= n
    ensures v < Power16(n)
  {
    if t != "" { SpelledBelow(t[..|t| - 1], v / 16, n - 1); }
  }

  lemma SpelledSmall(t: string, v: nat)
    requires Spells(t, v) && |t| <= 4
    ensures v < 0x10000
  {
    SpelledBelow(t, v, 4);
  }

  lemma Assoc<T>(x: seq<T>, y: seq<T>, z: seq<T>)
    ensures x + (y + z) == (x + y) + z
  {
  }

  // ---------- Every address that is spelled is accepted ----------

  function Colons(ps: seq<Part>): string
    requires PartsOk(ps)
  { if ps == [] then "" else PartText(ps[0]) + ":" + Colons(ps[1..]) }

  lemma {:induction false} JoinColons(ps: seq<Part>)
    requires PartsOk(ps) && ps != []
    ensures Join(ps) == Colons(ps[..|ps| - 1]) + PartText(ps[|ps| - 1])
  {
    hide PartText, PartOk;
    if |ps| == 1 {
      NoColons();
      assert "" + PartText(ps[0]) == PartText(ps[0]) && ps[..0] == [];
    } else {
      var init := ps[..|ps| - 1];
      JoinColons(ps[1..]);
      assert ps[1..][..|ps| - 2] == init[1..];
      Assoc(PartText(ps[0]) + ":", Colons(init[1..]), PartText(ps[|ps| - 1]));
    }
  }

  lemma {:induction false} ColonsEnd(ps: seq<Part>, p: Part)
    requires PartsOk(ps) && PartOk(p)
    ensures PartsOk(ps + [p]) && Colons(ps + [p]) == Colons(ps) + (PartText(p) + ":")
  {
    hide PartText, PartOk;
    var z := PartText(p) + ":";
    if ps == [] {
      assert [p][1..] == [] && Colons([]) == "" && ps + [p] == [p];
      assert z + "" == z == "" + z;
    } else {
      ColonsEnd(ps[1..], p);
      assert (ps + [p])[1..] == ps[1..] + [p];
      Assoc(PartText(ps[0]) + ":", Colons(ps[1..]), z);
    }
  }

  lemma {:induction false} BytesEnd(ps: seq<Part>, p: Part)
    ensures BytesOf(ps + [p]) == BytesOf(ps) + PartBytes(p)
  {
    if ps == [] {
      assert [p][1..] == [];
    } else {
      BytesEnd(ps[1..], p);
      assert (ps + [p])[1..] == ps[1..] + [p];
    }
  }

  lemma ScanColon(rest: string, g: Group)
    requires 0 < g.seen && rest != "" && |g.out| + 2 <= 16
    ensures Scan6([':'] + rest, g) == Scan6(rest, Push(g).(tok := rest))
  {
    Scan6Step(':', rest, g);
  }

  lemma ScanWord(p: Part, more: string, g: Group)
    requires PartOk(p) && p.Word? && more != "" && g.seen == 0 && g.val == 0 && |g.out| + 2 <= 16
    ensures Scan6(p.text + ([':'] + more), g) == Scan6(more, g.(out := g.out + PartBytes(p), tok := more))
  {
    SpelledSmall(p.text, p.v);
    ScanSpelled(p.text, p.v, [':'] + more, g);
    ScanColon(more, g.(seen := |p.text|, val := p.v));
  }

  lemma {:induction false} ScanWords(ps: seq<Part>, rest: string, g: Group)
    requires PartsOk(ps) && (forall i :: 0 <= i < |ps| ==> ps[i].Word?) && rest != ""
    requires g.seen == 0 && g.val == 0 && |g.out| + |BytesOf(ps)| <= 16
    ensures Scan6(Colons(ps) + rest, g)
         == Scan6(rest, g.(out := g.out + BytesOf(ps), tok := if ps == [] then g.tok else rest))
  {
    hide Scan6, Spells;
    if ps == [] {
      assert Colons(ps) + rest == rest && g.out + [] == g.out;
    } else {
      var p, more := ps[0], Colons(ps[1..]) + rest;
      assert ps[1..] == [] ==> more == rest;
      assert PartOk(p) && more != "";
      Assoc(p.text + [':'], Colons(ps[1..]), rest);
      Assoc(p.text, [':'], more);
      ScanWord(p, more, g);
      var h := g.(out := g.out + PartBytes(p), tok := more);
      ScanWords(ps[1..], rest, h);
      assert h.out + BytesOf(ps[1..]) == g.out + BytesOf(ps);
    }
  }

  // The bytes at the end of the main loop.
  function Ended(g: Group): seq<nat> { if g.seen > 0 then Push(g).out else g.out }

  lemma ScanLast(p: Part, g: Group)
    requires PartOk(p) && g.seen == 0 && g.val == 0 && g.tok == PartText(p) && |g.out| + |PartBytes(p)| <= 16
    ensures var h := Scan6(PartText(p), g);
            h.Some? && Ended(h.value) == g.out + PartBytes(p) && h.value.colonp == g.colonp && |h.value.out| <= 16
            && (h.value.seen > 0 ==> |h.value.out| + 2 <= 16)
  {
    if p.Word? {
      SpelledSmall(p.text, p.v);
      ScanSpelled(p.text, p.v, "", g);
      assert p.text + "" == p.text;
    } else {
      ScanEmbedded(p.b, g);
    }
  }

  lemma ScanParts(ps: seq<Part>, g: Group)
    requires PartsOk(ps) && ps != [] && forall i :: 0 <= i < |ps| && ps[i].V4? ==> i == |ps| - 1
    requires g.seen == 0 && g.val == 0 && g.tok == Join(ps) && |g.out| + |BytesOf(ps)| <= 16
    ensures var h := Scan6(Join(ps), g);
            h.Some? && Ended(h.value) == g.out + BytesOf(ps) && h.value.colonp == g.colonp && |h.value.out| <= 16
            && (h.value.seen > 0 ==> |h.value.out| + 2 <= 16)
  {
    var init, p := ps[..|ps| - 1], ps[|ps| - 1];
    LastPart(ps);
    hide *;
    ScanWords(init, PartText(p), g);
    var h := g.(out := g.out + BytesOf(init), tok := PartText(p));
    Assoc(g.out, BytesOf(init), PartBytes(p));
    ScanLast(p, h);
  }

  lemma LastPart(ps: seq<Part>)
    requires PartsOk(ps) && ps != [] && forall i :: 0 <= i < |ps| && ps[i].V4? ==> i == |ps| - 1
    ensures var init, p := ps[..|ps| - 1], ps[|ps| - 1];
            && PartsOk(init) && PartOk(p) && (forall i :: 0 <= i < |init| ==> init[i].Word?)
            && Join(ps) == Colons(init) + PartText(p) && PartText(p) != "" && (init == [] ==> Join(ps) == PartText(p))
            && BytesOf(ps) == BytesOf(init) + PartBytes(p)
  {
    var init, p := ps[..|ps| - 1], ps[|ps| - 1];
    assert ps == init + [p];
    JoinColons(ps);
    BytesEnd(init, p);
    PartNotEmpty(p);
    hide PartText, Spells;
    if init == [] { OnlyPart(ps); }
  }

  lemma OnlyPart(ps: seq<Part>)
    requires PartsOk(ps) && |ps| == 1
    ensures Join(ps) == PartText(ps[0])
  {
  }

  lemma PartNotEmpty(p: Part)
    requires PartOk(p)
    ensures PartText(p) != "" && PartText(p)[0] != ':'
  {
    if p.Word? {
      FirstDigit(p.text, p.v);
    } else {
      DecHead(p.b[0]);
      Text4Splits(p.b);
    }
  }

  lemma {:induction false} FirstDigit(t: string, v: nat)
    requires t != "" && Spells(t, v)
    ensures HexVal(t[0]).Some?
  {
    if |t| == 1 {
      DigitMeaning(t[0], v % 16);
    } else {
      FirstDigit(t[..|t| - 1], v / 16);
    }
  }

  lemma {:induction false} DecHead(v: nat)
    ensures Dec(v)[0] != ':'
  {
    if v >= 10 { DecHead(v / 10); }
  }

  lemma GapFinishes(a: Address, g: Group)
    requires WellFormed(a) && a.gap && g.colonp == Some(|BytesOf(a.front)|)
    requires Ended(g) == BytesOf(a.front) + BytesOf(a.back) && (g.seen > 0 ==> |g.out| + 2 <= 16)
    ensures Finish6(g) == Some(Value(a))
  {
  }

  // The text behind the two colons.
  lemma ScanBack(a: Address, g: Group)
    requires WellFormed(a) && a.gap
    requires g == Group(BytesOf(a.front), Some(|BytesOf(a.front)|), Join(a.back), 0, 0)
    ensures var h := Scan6(Join(a.back), g); h.Some? && Finish6(h.value) == Some(Value(a))
  {
    if a.back == [] {
      assert BytesOf(a.front) + [] == BytesOf(a.front);
      GapFinishes(a, g);
    } else {
      ScanParts(a.back, g);
      GapFinishes(a, Scan6(Join(a.back), g).value);
    }
  }

  lemma GroupsAccepted(a: Address)
    requires WellFormed(a) && !a.gap
    ensures Parse6(Spelling(a)) == Some(Value(a))
  {
    var s := Spelling(a);
    var p, b := a.front[0], BytesOf(a.front);
    PartNotEmpty(p);
    assert s == Join(a.front) && s[0] == PartText(p)[0];
    assert b + Zeros(0) + [] == b && [] + b == b;
    hide Spells, PartText, Join, BytesOf, PartOk, Scan6, Spelling;
    ScanParts(a.front, Begin6(s));
  }

  lemma LeadingGapAccepted(a: Address)
    requires WellFormed(a) && a.gap && a.front == []
    ensures Parse6(Spelling(a)) == Some(Value(a))
  {
    var s, j := Spelling(a), Join(a.back);
    assert s == [':'] + ([':'] + j);
    Parse6Colons([':'] + j);
    Scan6Step(':', j, Begin6([':'] + j));
    ScanBack(a, Group([], Some(0), j, 0, 0));
  }

  lemma InnerGapAccepted(a: Address)
    requires WellFormed(a) && a.gap && a.front != []
    ensures Parse6(Spelling(a)) == Some(Value(a))
  {
    var s, j, b := Spelling(a), Join(a.back), BytesOf(a.front);
    FrontColons(a);
    PartNotEmpty(a.front[0]);
    assert s[0] == PartText(a.front[0])[0];
    hide Spells, PartText, Join, Spelling;
    ScanWords(a.front, [':'] + j, Begin6(s));
    assert [] + b == b;
    Scan6Step(':', j, Begin6(s).(out := b, tok := [':'] + j));
    ScanBack(a, Group(b, Some(|b|), j, 0, 0));
  }

  lemma SpelledIsAccepted(a: Address)
    requires WellFormed(a)
    ensures Parse6(Spelling(a)) == Some(Value(a))
  {
    if !a.gap {
      GroupsAccepted(a);
    } else if a.front == [] {
      LeadingGapAccepted(a);
    } else {
      InnerGapAccepted(a);
    }
  }

  lemma FrontColons(a: Address)
    requires WellFormed(a) && a.gap && a.front != []
    ensures Spelling(a) == Colons(a.front) + ([':'] + Join(a.back))
  {
    var init, p := a.front[..|a.front| - 1], a.front[|a.front| - 1];
    assert a.front == init + [p];
    JoinColons(a.front);
    ColonsEnd(init, p);
    TwoColons(Colons(init), PartText(p), Join(a.back));
    hide Colons, Join, PartText, Spells, BytesOf, PartOk;
  }

  lemma TwoColons(c: string, p: string, j: string)
    ensures (c + p) + ("::" + j) == (c + (p + ":")) + ([':'] + j)
  {
  }

  // ---------- Everything that is accepted is spelled ----------

  // What the main loop has read: groups, perhaps a gap and groups behind it, and the digits
  // of a group that is not complete.
  datatype Seen = Seen(front: seq<Part>, gap: bool, back: seq<Part>, cur: string, v: nat)

  predicate SeenOk(x: Seen) {
    && PartsOk(x.front) && PartsOk(x.back) && (!x.gap ==> x.back == [])
    && (forall i :: 0 <= i < |x.front| ==> x.front[i].Word?) && (forall i :: 0 <= i < |x.back| ==> x.back[i].Word?)
    && |x.cur| <= 4 && Spells(x.cur, x.v)
  }

  // The text of that, without the first of two leading colons.
  function Consumed6(x: Seen): string
    requires SeenOk(x)
  { Colons(x.front) + (if x.gap then ":" else "") + Colons(x.back) + x.cur }

  function GroupOf(x: Seen, tok: string): Group {
    Group(BytesOf(x.front) + BytesOf(x.back), if x.gap then Some(|BytesOf(x.front)|) else None, tok, |x.cur|, x.v)
  }

  // The next group begins behind a colon that something follows.
  predicate Resting(x: Seen, s: string) { x.cur == "" && s == "" ==> x.back == [] && (x.gap || x.front == []) }

  // The group that ends here joins the others.
  function Close(x: Seen, p: Part): Seen {
    if x.gap then Seen(x.front, true, x.back + [p], "", 0) else Seen(x.front + [p], false, x.back, "", 0)
  }

  lemma ClosedBytes(x: Seen, p: Part)
    ensures var y := Close(x, p);
            BytesOf(y.front) + BytesOf(y.back)
            == if x.gap then BytesOf(x.front) + (BytesOf(x.back) + PartBytes(p))
               else BytesOf(x.front) + PartBytes(p) + BytesOf(x.back)
  {
    BytesEnd(x.front, p);
    BytesEnd(x.back, p);
  }

  lemma ClosedGroup(x: Seen, p: Part, tok: string)
    requires SeenOk(x)
    ensures var y := Close(x, p);
            GroupOf(y, tok) == GroupOf(x, tok).(out := GroupOf(x, tok).out + PartBytes(p), seen := 0, val := 0)
  {
    ClosedBytes(x, p);
    Assoc(BytesOf(x.front), BytesOf(x.back), PartBytes(p));
    if !x.gap {
      var b := BytesOf(x.front) + PartBytes(p);
      assert x.back == [] && b + [] == b && BytesOf(x.front) + [] == BytesOf(x.front);
    }
  }

  lemma ClosedText(x: Seen)
    requires SeenOk(x) && x.cur != ""
    ensures var y := Close(x, Word(x.cur, x.v)); SeenOk(y) && Consumed6(y) == Consumed6(x) + ":"
  {
    var p := Word(x.cur, x.v);
    var c := if x.gap then ":" else "";
    if x.gap { ColonsEnd(x.back, p); } else { ColonsEnd(x.front, p); NoColons(); }
    hide Colons, Spells, PartsOk;
    if x.gap {
      Assoc(Colons(x.front) + c, Colons(x.back), x.cur + ":");
    }
    Assoc(Colons(x.front) + c + Colons(x.back), x.cur, ":");
  }

  // A digit, which belongs to the group that is being read.
  lemma SeenDigit(x: Seen, c: char, d: nat)
    requires SeenOk(x) && |x.cur| < 4 && HexVal(c) == Some(d)
    ensures var y := x.(cur := x.cur + [c], v := x.v * 16 + d);
            SeenOk(y) && Consumed6(y) == Consumed6(x) + [c]
            && forall tok :: GroupOf(y, tok) == GroupOf(x, tok).(seen := |x.cur| + 1, val := x.v * 16 + d)
  {
    DigitMeaning(c, d);
    var u, w := x.cur + [c], x.v * 16 + d;
    assert u[..|u| - 1] == x.cur && w / 16 == x.v && w % 16 == d;
    assert Spells(u, w);
    hide Spells, Colons;
  }

  function Lead(x: Seen): string { if x.gap && x.front == [] then ":" else "" }

  function AddressOf(x: Seen): Address { Address(x.front, x.gap, x.back) }

  lemma {:induction false} BytesEven(ps: seq<Part>)
    requires PartsOk(ps)
    ensures |BytesOf(ps)| % 2 == 0
  {
    if ps != [] { BytesEven(ps[1..]); }
  }

  // Behind the main loop: with the right number of bytes it was an address.
  lemma Finished(x: Seen, g: Group, b: seq<nat>)
    requires PartsOk(x.front) && PartsOk(x.back) && (!x.gap ==> x.back == [])
    requires forall i :: 0 <= i < |x.front| && x.front[i].V4? ==> !x.gap && i == |x.front| - 1
    requires forall i :: 0 <= i < |x.back| && x.back[i].V4? ==> i == |x.back| - 1
    requires Ended(g) == BytesOf(x.front) + BytesOf(x.back)
    requires g.colonp == if x.gap then Some(|BytesOf(x.front)|) else None
    requires Finish6(g) == Some(b)
    ensures WellFormed(AddressOf(x)) && Value(AddressOf(x)) == b
  {
    BytesEven(x.front);
    BytesEven(x.back);
    hide PartOk;
  }

  lemma SpelledGap(x: Seen)
    requires WellFormed(AddressOf(x)) && x.gap
    ensures Lead(x) + Colons(x.front) + ":" + Join(x.back) == Spelling(AddressOf(x))
  {
    if x.front == [] {
      assert ":" + "" + ":" + Join(x.back) == "" + ("::" + Join(x.back));
    } else {
      FrontColons(AddressOf(x));
      hide Colons, Join, Spelling;
      Assoc("" + Colons(x.front), ":", Join(x.back));
      assert "" + Colons(x.front) == Colons(x.front);
    }
  }

  lemma Regroup(l: string, f: string, c: string, b: string, p: string)
    ensures l + f + c + (b + p) == l + (f + c + b + p)
  {
  }

  // The last part completes the text.
  lemma SpelledOut(x: Seen, p: Part)
    requires SeenOk(x) && PartOk(p) && WellFormed(AddressOf(Close(x, p)))
    ensures Lead(x) + (Colons(x.front) + (if x.gap then ":" else "") + Colons(x.back) + PartText(p))
         == Spelling(AddressOf(Close(x, p)))
  {
    hide Colons, Join, PartText, Spells, BytesOf;
    var y := Close(x, p);
    if x.gap {
      hide Spelling;
      JoinColons(y.back);
      assert y.back[..|y.back| - 1] == x.back;
      SpelledGap(y);
      Regroup(Lead(x), Colons(x.front), ":", Colons(x.back), PartText(p));
    } else {
      JoinColons(y.front);
      NoColons();
      assert y.front[..|y.front| - 1] == x.front;
      var j := Colons(x.front) + PartText(p);
      assert Colons(x.front) + "" + "" == Colons(x.front) && "" + j == j && j + "" == j;
    }
  }

  lemma NoColons()
    ensures Colons([]) == "" == Join([])
  {
  }

  lemma ClosedEnds(x: Seen, tok: string)
    requires SeenOk(x) && x.cur != ""
    ensures var y, g := Close(x, Word(x.cur, x.v)), GroupOf(x, tok);
            Ended(g) == BytesOf(y.front) + BytesOf(y.back)
            && g.colonp == if y.gap then Some(|BytesOf(y.front)|) else None
  {
    var p := Word(x.cur, x.v);
    SpelledSmall(x.cur, x.v);
    ClosedGroup(x, p, tok);
    hide BytesOf, Colons;
  }

  lemma NoBytes()
    ensures BytesOf([]) == []
  {
  }

  // The end of the text.
  lemma EndIsSpelled(x: Seen, tok: string, b: seq<nat>) returns (y: Seen)
    requires SeenOk(x) && Resting(x, "") && Finish6(GroupOf(x, tok)) == Some(b)
    ensures WellFormed(AddressOf(y)) && Value(AddressOf(y)) == b
    ensures y.gap == x.gap && (y.gap ==> y.front == x.front) && Lead(x) + Consumed6(x) == Spelling(AddressOf(y))
  {
    hide BytesOf, Spells;
    if x.cur == "" {
      y := x;
      NoBytes();
      Finished(x, GroupOf(x, tok), b);
      SpelledGap(x);
      Regroup(Lead(x), Colons(x.front), ":", "", "");
    } else {
      var p := Word(x.cur, x.v);
      y := Close(x, p);
      ClosedEnds(x, tok);
      hide Finish6, Colons, Join, Spelling;
      Finished(y, GroupOf(x, tok), b);
      SpelledOut(x, p);
    }
  }

  // The break out of the loop: an IPv4 address is the rest of the text.
  lemma StopIsSpelled(x: Seen, s: string, b4: seq<nat>, b: seq<nat>) returns (y: Seen)
    requires SeenOk(x) && Parse4(x.cur + s) == Some(b4)
    requires Finish6(GroupOf(x, x.cur + s).(out := GroupOf(x, x.cur + s).out + b4, seen := 0)) == Some(b)
    ensures WellFormed(AddressOf(y)) && Value(AddressOf(y)) == b
    ensures y.gap == x.gap && (y.gap ==> y.front == x.front) && Lead(x) + (Consumed6(x) + s) == Spelling(AddressOf(y))
  {
    var p := V4(b4);
    var g := GroupOf(x, x.cur + s);
    Text4BothWays(x.cur + s, b4);
    y := Close(x, p);
    ClosedGroup(x, p, g.tok);
    hide Finish6, Parse4, Text4, Colons, Join, Spelling;
    Finished(y, g.(out := g.out + b4, seen := 0), b);
    SpelledOut(x, p);
    Assoc(Colons(x.front) + (if x.gap then ":" else "") + Colons(x.back), x.cur, s);
  }

  // One character that goes on with the loop.
  ghost predicate Advances(x: Seen, s: string, y: Seen) {
    && SeenOk(x) && s != "" && SeenOk(y) && Resting(y, s[1..])
    && Step6(s[0], s[1..], GroupOf(x, x.cur + s)) == Go(GroupOf(y, y.cur + s[1..]))
    && Consumed6(y) == Consumed6(x) + [s[0]] && (x.gap ==> y.gap && y.front == x.front)
  }

  lemma AdvanceDigit(x: Seen, s: string) returns (y: Seen)
    requires SeenOk(x) && s != "" && HexVal(s[0]).Some? && |x.cur| < 4
    ensures Advances(x, s, y)
  {
    var d := HexVal(s[0]).value;
    y := x.(cur := x.cur + [s[0]], v := x.v * 16 + d);
    SeenDigit(x, s[0], d);
    hide Spells, Colons, BytesOf, PartsOk, Parse4;
    assert y.cur + s[1..] == x.cur + s;
  }

  lemma AdvanceGap(x: Seen, s: string) returns (y: Seen)
    requires SeenOk(x) && s != "" && s[0] == ':' && x.cur == "" && !x.gap
    ensures Advances(x, s, y)
  {
    y := Seen(x.front, true, [], "", 0);
    NoColons();
    hide Colons;
    assert BytesOf(x.front) + [] == BytesOf(x.front) && "" + s[1..] == s[1..];
    assert Consumed6(y) == Consumed6(x) + [s[0]];
  }

  lemma AdvanceColon(x: Seen, s: string) returns (y: Seen)
    requires SeenOk(x) && |s| > 1 && s[0] == ':' && x.cur != "" && |GroupOf(x, "").out| + 2 <= 16
    ensures Advances(x, s, y)
  {
    var p := Word(x.cur, x.v);
    y := Close(x, p);
    SpelledSmall(x.cur, x.v);
    ClosedText(x);
    ClosedGroup(x, p, s[1..]);
    hide Spells, Colons, BytesOf;
    assert "" + s[1..] == s[1..];
  }

  lemma {:induction false} AcceptedFrom(x: Seen, s: string, b: seq<nat>) returns (y: Seen)
    requires SeenOk(x) && Resting(x, s)
    requires var g := Scan6(s, GroupOf(x, x.cur + s)); g.Some? && Finish6(g.value) == Some(b)
    ensures WellFormed(AddressOf(y)) && Value(AddressOf(y)) == b
    ensures Lead(y) + (Consumed6(x) + s) == Spelling(AddressOf(y))
    decreases |s|
  {
    hide Colons, Join, Spelling, Spells, BytesOf, Finish6;
    var g := GroupOf(x, x.cur + s);
    if s == "" {
      assert Consumed6(x) + s == Consumed6(x) && x.cur + s == x.cur;
      y := EndIsSpelled(x, x.cur, b);
    } else if HexVal(s[0]).Some? || s[0] == ':' {
      var z;
      if HexVal(s[0]).Some? {
        z := AdvanceDigit(x, s);
      } else if x.cur == "" {
        z := AdvanceGap(x, s);
      } else {
        z := AdvanceColon(x, s);
      }
      y := AcceptedFrom(z, s[1..], b);
      assert s == [s[0]] + s[1..];
      Assoc(Consumed6(x), [s[0]], s[1..]);
    } else {
      y := StopIsSpelled(x, s, Parse4(g.tok).value, b);
    }
  }

  lemma SpellingHead(a: Address)
    requires WellFormed(a)
    ensures Spelling(a) != "" && (Spelling(a)[0] == ':' <==> a.gap && a.front == [])
    ensures a.gap && a.front == [] ==> |Spelling(a)| > 1 && Spelling(a)[1] == ':'
  {
    if a.front != [] { PartNotEmpty(a.front[0]); }
  }

  lemma AcceptedIsSpelled(s: string, b: seq<nat>) returns (a: Address)
    requires Parse6(s) == Some(b)
    ensures WellFormed(a) && Spelling(a) == s && Value(a) == b
  {
    var t := if s != "" && s[0] == ':' then s[1..] else s;
    var x := Seen([], false, [], "", 0);
    NoColons();
    assert "" + t == t && Consumed6(x) + t == t;
    var y := AcceptedFrom(x, t, b);
    a := AddressOf(y);
    SpellingHead(a);
    hide Scan6, Finish6, Join, BytesOf, WellFormed;
    if Lead(y) == "" {
      assert Lead(y) + t == t;
    } else {
      assert Spelling(a)[1] == ':';
      assert (":" + t)[1..] == t;
    }
  }

  // inet_pton6 accepts exactly the spellings of addresses, with their bytes: groups of one to
  // four digits of either case, leading zeros allowed, with at most one gap and perhaps an
  // IPv4 address at the end.
  lemma AcceptedIffSpelled(s: string, b: seq<nat>)
    ensures Parse6(s) == Some(b) <==> exists a :: WellFormed(a) && Spelling(a) == s && Value(a) == b
  {
    if Parse6(s) == Some(b) { var a := AcceptedIsSpelled(s, b); }
    forall a | WellFormed(a) && Spelling(a) == s && Value(a) == b ensures Parse6(s) == Some(b) {
      SpelledIsAccepted(a);
    }
  }

  // ---------- The case of the digits ----------

  function LowerChar(c: char): char { if 'A' <= c <= 'F' then 'a' + (c - 'A') else c }

  function Lower(s: string): string { seq(|s|, i requires 0 <= i < |s| => LowerChar(s[i])) }

  lemma LowerSplits(s: string)
    requires s != ""
    ensures Lower(s)[0] == LowerChar(s[0]) && Lower(s)[1..] == Lower(s[1..]) && HexVal(LowerChar(s[0])) == HexVal(s[0])
  {
  }

  lemma {:induction false} LowerScan4(s: string, out: seq<nat>, saw: bool)
    requires |out| <= 4 && (saw ==> out != [])
    ensures Scan4(Lower(s), out, saw) == Scan4(s, out, saw)
  {
    if s != "" {
      LowerSplits(s);
      var d := DigitVal(s[0]);
      if d.Some? && saw {
        var nw := out[|out| - 1] * 10 + d.value;
        LowerScan4(s[1..], out[..|out| - 1] + [nw], true);
      } else if d.Some? {
        if |out| < 4 { LowerScan4(s[1..], out + [d.value], true); }
      } else {
        LowerScan4(s[1..], out, false);
      }
    }
  }

  function LowerGroup(g: Group): Group { g.(tok := Lower(g.tok)) }

  function LowerStep(x: Step): Step {
    match x
    case Go(g) => Go(LowerGroup(g))
    case Stop(g) => Stop(LowerGroup(g))
    case Fail => Fail
  }

  lemma LowerStep6(s: string, g: Group)
    requires s != ""
    ensures Step6(Lower(s)[0], Lower(s)[1..], LowerGroup(g)) == LowerStep(Step6(s[0], s[1..], g))
  {
    LowerSplits(s);
    LowerScan4(g.tok, [], false);
    hide Scan4;
    assert Parse4(Lower(g.tok)) == Parse4(g.tok);
    hide Parse4, Lower;
  }

  lemma {:induction false} LowerScan6(s: string, g: Group)
    ensures var x, y := Scan6(s, g), Scan6(Lower(s), LowerGroup(g));
            (x.None? <==> y.None?) && (x.Some? ==> y.value == LowerGroup(x.value))
  {
    if s != "" {
      LowerSplits(s);
      LowerStep6(s, g);
      hide Step6, Lower;
      match Step6(s[0], s[1..], g)
      case Go(h) => LowerScan6(s[1..], h);
      case Stop(h) =>
      case Fail =>
    }
  }

  // The case of the digits does not matter.
  lemma CaseIgnored(s: string)
    ensures Parse6(Lower(s)) == Parse6(s)
  {
    var t := if s != "" && s[0] == ':' then s[1..] else s;
    if s != "" { LowerSplits(s); }
    LowerScan6(t, Begin6(t));
    assert LowerGroup(Begin6(t)) == Begin6(Lower(t));
    if Scan6(t, Begin6(t)).Some? {
      var g := Scan6(t, Begin6(t)).value;
      FinishIgnores(g, Lower(g.tok), g.val);
    }
    hide Scan6, Finish6, HexVal;
    assert t == s ==> Lower(t) == Lower(s);
    if |s| > 1 { assert Lower(s)[1] == LowerChar(s[1]); }
  }

  // ---------- What inet_ntop6 and inet_ntop4 write ----------

  // No leading zeros, and no upper-case letters.
  predicate Shortest(t: string) {
    && t != "" && (t[0] == '0' ==> |t| == 1)
    && (forall i :: 0 <= i < |t| ==> '0' <= t[i] <= '9' || 'a' <= t[i] <= 'f')
  }

  lemma ShortestMore(t: string, c: char)
    requires Shortest(t) && t[0] != '0' && ('0' <= c <= '9' || 'a' <= c <= 'f')
    ensures Shortest(t + [c]) && (t + [c])[0] != '0'
  {
  }

  lemma DigitFine(d: nat)
    requires d < 16
    ensures var c := Digit(d); IsDigit(c, d) && ('0' <= c <= '9' || 'a' <= c <= 'f') && (c == '0' <==> d == 0)
  {
    DigitMeaning(Digit(d), d);
    hide IsDigit;
  }

  lemma SpellsMore(t: string, u: nat, c: char, d: nat)
    requires Spells(t, u) && IsDigit(c, d)
    ensures Spells(t + [c], 16 * u + d)
  {
    var v := 16 * u + d;
    assert v % 16 == d && v / 16 == u;
    assert (t + [c])[..|t|] == t;
    hide IsDigit;
  }

  lemma {:induction false} HexMeaning(v: nat)
    ensures Spells(Hex(v), v) && Shortest(Hex(v)) && (v > 0 ==> Hex(v)[0] != '0')
  {
    hide Digit, IsDigit, Spells;
    var c := Digit(v % 16);
    DigitFine(v % 16);
    if v < 16 {
      SpellsNothing();
      SpellsMore("", 0, c, v);
      assert Hex(v) == [c] && "" + [c] == [c];
    } else {
      hide Shortest;
      HexMeaning(v / 16);
      ShortestMore(Hex(v / 16), c);
      SpellsMore(Hex(v / 16), v / 16, c, v % 16);
    }
  }

  lemma SpellsNothing()
    ensures Spells("", 0)
  {
  }

  // Decimal digits that spell v.
  predicate SpellsDec(t: string, v: nat) {
    if t == "" then v == 0 else t[|t| - 1] == "0123456789"[v % 10] && SpellsDec(t[..|t| - 1], v / 10)
  }

  // "%u": the octets of the text of an IPv4 address.
  lemma {:induction false} DecMeaning(v: nat)
    ensures SpellsDec(Dec(v), v) && Shortest(Dec(v)) && (v > 0 ==> Dec(v)[0] != '0')
  {
    var c := Digit(v % 10);
    DigitFine(v % 10);
    assert c == "0123456789"[v % 10];
    hide Digit, IsDigit;
    if v < 10 {
      assert Dec(v) == [c] && [c][..0] == "";
    } else {
      DecMeaning(v / 10);
      var t := Dec(v / 10);
      ShortestMore(t, c);
      assert Dec(v) == t + [c] && (t + [c])[..|t|] == t;
      hide Shortest, Dec;
    }
  }

  // The words from i up to end as groups, and those from i on, the last two as an IPv4
  // address if v4.
  function Groups(w: Words, i: nat, end: nat): seq<Part>
    requires i <= end <= 8
  { seq(end - i, k requires 0 <= k < end - i => Word(Hex(w[i + k]), w[i + k])) }

  function PartsFrom(w: Words, i: nat, v4: bool): seq<Part>
    requires i <= 8 && (v4 ==> i <= 6)
  {
    if v4 then Groups(w, i, 6) + [V4([w[6] / 256, w[6] % 256, w[7] / 256, w[7] % 256])] else Groups(w, i, 8)
  }

  // ::a.b.c.d and ::ffff:a.b.c.d.
  predicate Mapped(w: Words, r: Run) { r.base == 0 && (r.len == 6 || (r.len == 5 && w[5] == 0xffff)) }

  // The parts of the text: the best run is the gap.
  function Written6(w: Words, r: Run): Address
    requires r.base >= 0 ==> r.base + r.len <= 8
  {
    if r.base < 0 then Address(PartsFrom(w, 0, false), false, [])
    else Address(Groups(w, 0, r.base), true, PartsFrom(w, r.base + r.len, Mapped(w, r)))
  }

  lemma {:induction false} WordBytes(ps: seq<Part>)
    requires forall k :: 0 <= k < |ps| ==> ps[k].Word?
    ensures |BytesOf(ps)| == 2 * |ps|
  {
    if ps != [] { WordBytes(ps[1..]); }
  }

  lemma GroupsFine(w: Words, i: nat, end: nat)
    requires i <= end <= 8
    ensures var ps := Groups(w, i, end);
            && PartsOk(ps) && |BytesOf(ps)| == 2 * (end - i) && |ps| == end - i
            && (forall k :: 0 <= k < |ps| ==> ps[k].Word? && Shortest(ps[k].text))
  {
    hide Hex, Spells, Shortest;
    var ps := Groups(w, i, end);
    forall k | 0 <= k < |ps| ensures PartOk(ps[k]) && Shortest(ps[k].text) { HexMeaning(w[i + k]); }
    WordBytes(ps);
  }

  lemma PartsFine(w: Words, i: nat, v4: bool)
    requires i <= 8 && (v4 ==> i <= 6)
    ensures var ps := PartsFrom(w, i, v4);
            && PartsOk(ps) && |BytesOf(ps)| == 2 * (8 - i) && (ps == [] <==> i == 8)
            && (forall k :: 0 <= k < |ps| ==> (ps[k].V4? <==> v4 && k == |ps| - 1))
            && (forall k :: 0 <= k < |ps| && ps[k].Word? ==> Shortest(ps[k].text))
  {
    if v4 {
      GroupsFine(w, i, 6);
      BytesEnd(Groups(w, i, 6), PartsFrom(w, i, v4)[6 - i]);
    } else {
      GroupsFine(w, i, 8);
    }
    hide Groups, Spells, Shortest;
  }

  lemma GroupsNext(w: Words, i: nat, end: nat)
    requires i < end <= 8
    ensures Groups(w, i, end) == [Word(Hex(w[i]), w[i])] + Groups(w, i + 1, end)
  {
    hide Hex;
    var ps, qs := Groups(w, i, end), Groups(w, i + 1, end);
    var x := [Word(Hex(w[i]), w[i])] + qs;
    forall k | 0 <= k < |ps| ensures ps[k] == x[k] {
      if k > 0 { assert x[k] == qs[k - 1]; }
    }
    hide Groups;
    assert |ps| == |x|;
  }

  lemma PartsNext(w: Words, i: nat, v4: bool)
    requires i < 8 && (v4 ==> i < 6)
    ensures PartsFrom(w, i, v4) == [Word(Hex(w[i]), w[i])] + PartsFrom(w, i + 1, v4)
  {
    GroupsNext(w, i, if v4 then 6 else 8);
    hide Groups, Hex;
    if v4 {
      Assoc([Word(Hex(w[i]), w[i])], Groups(w, i + 1, 6), [V4([w[6] / 256, w[6] % 256, w[7] / 256, w[7] % 256])]);
    }
  }

  // Behind the run, or without one.
  lemma {:induction false} RestWritten(w: Words, r: Run, i: nat, v4: bool)
    requires RunOk(w, r) && i < 8 && (r.base < 0 || r.base + r.len <= i)
    requires v4 <==> Embedded(w, r) && i <= 6
    ensures var ps := PartsFrom(w, i, v4); PartsOk(ps) && Word6(w, r, i) == Join(ps)
    decreases 8 - i
  {
    PartsFine(w, i, v4);
    hide Shortest, Hex, Spells, Text4;
    if i == 6 && v4 {
      assert Groups(w, 6, 6) == [];
    } else {
      PartsNext(w, i, v4);
      hide PartsFrom;
      if i < 7 {
        RestWritten(w, r, i + 1, v4);
        PartsFine(w, i + 1, v4);
        TailSplits(w, r, i + 1);
        Assoc(Hex(w[i]), ":", Word6(w, r, i + 1));
      } else {
        PartsFine(w, 8, v4);
        assert Tail6(w, r, 8) == "" && Hex(w[i]) + "" == Hex(w[i]);
      }
    }
  }

  lemma RunStarts(w: Words, r: Run)
    requires RunOk(w, r) && r.base >= 0
    ensures Tail6(w, r, r.base) == ":" + Tail6(w, r, r.base + r.len)
    ensures var i := r.base + r.len; Tail6(w, r, i) == if i == 8 then ":" else ":" + Word6(w, r, i)
  {
    var i := r.base + r.len;
    RunTail(w, r, r.base + 1);
    if i < 8 { TailSplits(w, r, i); }
    hide Word6;
  }

  lemma BehindRun(w: Words, r: Run)
    requires RunOk(w, r) && r.base >= 0
    ensures var i := r.base + r.len; var ps := PartsFrom(w, i, Mapped(w, r));
            PartsOk(ps) && Tail6(w, r, i) == ":" + Join(ps)
  {
    var i, v4 := r.base + r.len, Mapped(w, r);
    RunStarts(w, r);
    PartsFine(w, i, v4);
    if i < 8 {
      RestWritten(w, r, i, v4);
      hide *;
    } else {
      NoColons();
      assert PartsFrom(w, i, v4) == [];
      hide *;
    }
  }

  // From the run on.
  lemma RunWritten(w: Words, r: Run)
    requires RunOk(w, r) && r.base >= 0
    ensures var ps := PartsFrom(w, r.base + r.len, Mapped(w, r));
            PartsOk(ps) && Tail6(w, r, r.base) == "::" + Join(ps)
  {
    BehindRun(w, r);
    RunStarts(w, r);
    Colons2(Join(PartsFrom(w, r.base + r.len, Mapped(w, r))));
    hide *;
  }

  lemma Colons2(j: string)
    ensures ":" + (":" + j) == "::" + j
  {
  }

  lemma WordThenTail(w: Words, r: Run, i: nat)
    requires i < 8 && !(i == 6 && Embedded(w, r))
    ensures Word6(w, r, i) == Hex(w[i]) + Tail6(w, r, i + 1)
    ensures i < 7 && !Inside(r, i + 1) ==> Tail6(w, r, i + 1) == ":" + Word6(w, r, i + 1)
  {
    if i < 7 { TailSplits(w, r, i + 1); }
  }

  lemma JoinNext(p: Part, ps: seq<Part>)
    requires PartOk(p) && PartsOk(ps)
    ensures PartsOk([p] + ps) && Join([p] + ps) == if ps == [] then PartText(p) else PartText(p) + ":" + Join(ps)
  {
    assert ([p] + ps)[1..] == ps;
    hide PartText, PartOk;
  }

  lemma GroupsJoin(w: Words, i: nat, end: nat)
    requires i < end <= 8 && PartsOk(Groups(w, i, end)) && PartsOk(Groups(w, i + 1, end))
    ensures Join(Groups(w, i, end)) == if i + 1 == end then Hex(w[i]) else Hex(w[i]) + ":" + Join(Groups(w, i + 1, end))
  {
    var p := Word(Hex(w[i]), w[i]);
    HexMeaning(w[i]);
    GroupsNext(w, i, end);
    hide Groups, BytesOf, Shortest, Spells, Hex, Join, PartsOk;
    JoinNext(p, Groups(w, i + 1, end));
  }

  // Before the run.
  lemma {:induction false} FrontWritten(w: Words, r: Run, i: nat, back: string)
    requires RunOk(w, r) && 0 <= i < r.base && Tail6(w, r, r.base) == "::" + back
    ensures PartsOk(Groups(w, i, r.base)) && Word6(w, r, i) == Join(Groups(w, i, r.base)) + ("::" + back)
    decreases r.base - i
  {
    hide Shortest, Hex, Spells, Text4, Groups, Word6, Tail6, Join, PartsOk;
    GroupsFine(w, i, r.base);
    GroupsFine(w, i + 1, r.base);
    GroupsJoin(w, i, r.base);
    WordThenTail(w, r, i);
    if i + 1 < r.base {
      FrontWritten(w, r, i + 1, back);
      Assoc(Hex(w[i]), ":", Word6(w, r, i + 1));
      Assoc(Hex(w[i]) + ":", Join(Groups(w, i + 1, r.base)), "::" + back);
    }
  }

  lemma Text6Begins(w: Words, r: Run)
    requires RunOk(w, r) && r.base != 0
    ensures Text6(w, r) == Word6(w, r, 0)
  {
    TailSplits(w, r, 0);
    hide Word6, Tail6;
    assert "" + Word6(w, r, 0) == Word6(w, r, 0);
  }

  lemma Written6Fine(w: Words, r: Run)
    requires RunOk(w, r)
    ensures WellFormed(Written6(w, r))
  {
    if r.base < 0 {
      PartsFine(w, 0, false);
    } else {
      GroupsFine(w, 0, r.base);
      PartsFine(w, r.base + r.len, Mapped(w, r));
    }
    hide Spells, Shortest, Hex, Groups, PartsFrom, BytesOf;
  }

  lemma NoGapSpelled(w: Words, r: Run)
    requires RunOk(w, r) && r.base < 0
    ensures WellFormed(Written6(w, r)) && Spelling(Written6(w, r)) == Text6(w, r)
  {
    Written6Fine(w, r);
    hide WellFormed, Join, Word6, Tail6, Text6, PartsFrom;
    RestWritten(w, r, 0, false);
    Text6Begins(w, r);
    assert Join(PartsFrom(w, 0, false)) + "" == Join(PartsFrom(w, 0, false));
  }

  lemma GapSpelled(w: Words, r: Run)
    requires RunOk(w, r) && r.base >= 0
    ensures WellFormed(Written6(w, r)) && Spelling(Written6(w, r)) == Text6(w, r)
  {
    Written6Fine(w, r);
    hide WellFormed, Word6, Tail6, PartsFrom, Groups, PartsOk, Join;
    RunWritten(w, r);
    var j := Join(PartsFrom(w, r.base + r.len, Mapped(w, r)));
    if r.base > 0 {
      Text6Begins(w, r);
      FrontWritten(w, r, 0, j);
    } else {
      NoColons();
      NoGroups(w);
      assert "" + ("::" + j) == "::" + j;
    }
  }

  lemma NoGroups(w: Words)
    ensures Groups(w, 0, 0) == []
  {
  }

  lemma Text6IsSpelled(w: Words, r: Run)
    requires RunOk(w, r)
    ensures WellFormed(Written6(w, r)) && Spelling(Written6(w, r)) == Text6(w, r)
  {
    if r.base < 0 { NoGapSpelled(w, r); } else { GapSpelled(w, r); }
  }

  // The text of inet_ntop6: the words in the shortest lower-case digits, the leftmost longest
  // run of at least two zeros as the gap, and an IPv4 address at the end exactly for the
  // addresses ::a.b.c.d and ::ffff:a.b.c.d.
  lemma Text6Meaning(w: Words, r: Run) returns (a: Address)
    requires IsBest(w, r)
    ensures WellFormed(a) && Spelling(a) == Text6(w, r)
    ensures forall i :: 0 <= i < 8 ==> Value(a)[2 * i] == w[i] / 256 && Value(a)[2 * i + 1] == w[i] % 256
    ensures (a.gap <==> r.base >= 0) && (a.gap ==> |a.front| == r.base)
    ensures forall p :: p in a.front || p in a.back ==> (p.Word? ==> Shortest(p.text))
    ensures (exists p :: (p in a.front || p in a.back) && p.V4?) <==>
              r.base == 0 && (r.len == 6 || (r.len == 5 && w[5] == 0xffff))
  {
    a := Written6(w, r);
    Text6IsSpelled(w, r);
    ParseText6(w, r);
    SpelledIsAccepted(a);
    AllWords(w);
    if r.base < 0 {
      PartsFine(w, 0, false);
    } else {
      GroupsFine(w, 0, r.base);
      PartsFine(w, r.base + r.len, Mapped(w, r));
      if Mapped(w, r) { assert a.back[|a.back| - 1] in a.back; }
    }
    hide Shortest, Hex, Spells, Groups, PartsFrom, Spelling, Text6, Value, IsBest, AllBytes, PartsOk, BytesOf;
  }

  lemma AllWords(w: Words)
    ensures |AllBytes(w)| == 16
    ensures forall i :: 0 <= i < 8 ==> AllBytes(w)[2 * i] == w[i] / 256 && AllBytes(w)[2 * i + 1] == w[i] % 256
  {
    WordsUpTo(w, 8);
  }

  lemma {:induction false} WordsUpTo(w: Words, n: nat)
    requires n <= 8
    ensures var b := Bytes(w, Run(-1, 0), n);
            |b| == 2 * n && forall i :: 0 <= i < n ==> b[2 * i] == w[i] / 256 && b[2 * i + 1] == w[i] % 256
  {
    if n > 0 { WordsUpTo(w, n - 1); }
  }
}
