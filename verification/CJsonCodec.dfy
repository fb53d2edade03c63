// Printing and parsing of whole values in cJSON.c: null, booleans, strings, arrays and
// objects. Numbers, raw items and references are not part of the model.

module CJsonCodec {

  import opened Wrappers
  import opened CJsonStrings

  // A cJSON item; an array or object holds the chain of its children.
  datatype Json = Null | False | True | Str(s: seq<Byte>) | Arr(items: Items) | Obj(members: Members)
  datatype Items = Nil | Item(value: Json, next: Items)
  datatype Members = End | Member(key: seq<Byte>, value: Json, next: Members)

  const NESTING_LIMIT: nat := 1000

  // ---------- Printing ----------

  function NullText(): seq<Byte> { [0x6E, 0x75, 0x6C, 0x6C] }
  function FalseText(): seq<Byte> { [0x66, 0x61, 0x6C, 0x73, 0x65] }
  function TrueText(): seq<Byte> { [0x74, 0x72, 0x75, 0x65] }

  function Tabs(n: nat): (r: seq<Byte>)
    ensures |r| == n && forall i :: 0 <= i < n ==> r[i] == 9
  { seq(n, _ => 9) }

  // White space that only formatted printing writes: behind a comma of an array, behind a
  // colon, and at the beginning of a line.
  function Blank(fmt: bool): seq<Byte> { if fmt then [0x20] else [] }
  function Tab(fmt: bool): seq<Byte> { if fmt then [9] else [] }
  function Line(fmt: bool, depth: nat): seq<Byte> { if fmt then [10] + Tabs(depth) else [] }

  function Print(v: Json, fmt: bool, depth: nat): seq<Byte>
    decreases v
  {
    match v
    case Null => NullText()
    case False => FalseText()
    case True => TrueText()
    case Str(s) => Quoted(s)
    case Arr(x) => [0x5B] + (if x.Nil? then [0x5D] else PrintItems(x, fmt, depth + 1))
    case Obj(x) =>
      [0x7B] + Line(fmt, if x.End? then depth else depth + 1)
      + (if x.End? then [0x7D] else PrintMembers(x, fmt, depth + 1))
  }

  // The elements and the closing bracket.
  function PrintItems(x: Items, fmt: bool, depth: nat): seq<Byte>
    requires x.Item?
    decreases x
  {
    Print(x.value, fmt, depth) + (if x.next.Nil? then [0x5D] else [0x2C] + Blank(fmt) + PrintItems(x.next, fmt, depth))
  }

  // The members and the closing brace.
  function PrintMembers(x: Members, fmt: bool, depth: nat): seq<Byte>
    requires x.Member? && depth > 0
    decreases x
  {
    Quoted(x.key) + [0x3A] + Tab(fmt) + Print(x.value, fmt, depth)
    + (if x.next.End? then Line(fmt, depth - 1) + [0x7D]
      else [0x2C] + Line(fmt, depth) + PrintMembers(x.next, fmt, depth))
  }

  // ---------- Parsing ----------

  function NotBlank(c: seq<Byte>, o: nat): (r: nat)
    requires o <= |c|
    ensures o <= r <= |c|
    decreases |c| - o
  { if o < |c| && c[o] <= 32 then NotBlank(c, o + 1) else o }

  // buffer_skip_whitespace, which steps back from the end of the buffer.
  function Skip(c: seq<Byte>, o: nat): (r: nat)
    requires o <= |c|
    ensures o <= r <= |c| && (o < |c| ==> r < |c|)
  { if o == |c| then o else var r := NotBlank(c, o); if r == |c| then r - 1 else r }

  // can_read and strncmp
  predicate IsAt(c: seq<Byte>, o: nat, t: seq<Byte>) { o + |t| <= |c| && forall i :: 0 <= i < |t| ==> c[o + i] == t[i] }

  datatype Read<T> = Read(value: T, next: nat)

  function ParseValue(c: seq<Byte>, o: nat, depth: nat): (r: Parsing<Read<Json>>)
    requires o <= |c|
    ensures r.Done? ==> o < r.value.next <= |c|
    decreases |c| - o, 1
  {
    if IsAt(c, o, NullText()) then Done(Read(Null, o + 4))
    else if IsAt(c, o, FalseText()) then Done(Read(False, o + 5))
    else if IsAt(c, o, TrueText()) then Done(Read(True, o + 4))
    else if o == |c| then Failed(false)
    else if c[o] == QUOTE then
      var s := ParseString(c, o);
      if s.Failed? then Failed(s.overread) else Done(Read(Str(s.value.s), s.value.next))
    else if c[o] == 0x5B then ParseArray(c, o, depth)
    else if c[o] == 0x7B then ParseObject(c, o, depth)
    else Failed(false)
  }

  function ParseArray(c: seq<Byte>, o: nat, depth: nat): (r: Parsing<Read<Json>>)
    requires o < |c|
    ensures r.Done? ==> o < r.value.next <= |c|
    decreases |c| - o, 0
  {
    if depth >= NESTING_LIMIT then Failed(false)
    else
      var p := Skip(c, o + 1);
      if p < |c| && c[p] == 0x5D then Done(Read(Arr(Nil), p + 1))
      else if p == |c| then Failed(false)
      else
        var x := ParseItems(c, p, depth + 1);
        if x.Failed? then Failed(x.overread) else Done(Read(Arr(x.value.value), x.value.next))
  }

  // The loop over the elements, from the offset behind the bracket or comma.
  function ParseItems(c: seq<Byte>, o: nat, depth: nat): (r: Parsing<Read<Items>>)
    requires o <= |c|
    ensures r.Done? ==> o < r.value.next <= |c| && r.value.value.Item?
    decreases |c| - o, 2
  {
    var v := ParseValue(c, Skip(c, o), depth);
    if v.Failed? then Failed(v.overread)
    else
      var q := Skip(c, v.value.next);
      if q == |c| then Failed(false)
      else if c[q] == 0x2C then
        var x := ParseItems(c, q + 1, depth);
        if x.Failed? then Failed(x.overread) else Done(Read(Item(v.value.value, x.value.value), x.value.next))
      else if c[q] == 0x5D then Done(Read(Item(v.value.value, Nil), q + 1))
      else Failed(false)
  }

  function ParseObject(c: seq<Byte>, o: nat, depth: nat): (r: Parsing<Read<Json>>)
    requires o < |c|
    ensures r.Done? ==> o < r.value.next <= |c|
    decreases |c| - o, 0
  {
    if depth >= NESTING_LIMIT then Failed(false)
    else
      var p := Skip(c, o + 1);
      if p < |c| && c[p] == 0x7D then Done(Read(Obj(End), p + 1))
      else if p == |c| then Failed(false)
      else
        var x := ParseMembers(c, p, depth + 1);
        if x.Failed? then Failed(x.overread) else Done(Read(Obj(x.value.value), x.value.next))
  }

  datatype Entry = Entry(key: seq<Byte>, value: Json)

  // A name, a colon and a value, up to the character behind them. The name is looked for
  // even at the end of the buffer.
  function ParseMember(c: seq<Byte>, o: nat, depth: nat): (r: Parsing<Read<Entry>>)
    requires o <= |c|
    ensures r.Done? ==> o < r.value.next <= |c|
    decreases |c| - o, 2
  {
    var p := Skip(c, o);
    var k := ParseString(c, p);
    if k.Failed? then Failed(k.overread)
    else
      var a := Skip(c, k.value.next);
      if a == |c| || c[a] != 0x3A then Failed(false)
      else
        var v := ParseValue(c, Skip(c, a + 1), depth);
        if v.Failed? then Failed(v.overread)
        else Done(Read(Entry(k.value.s, v.value.value), Skip(c, v.value.next)))
  }

  // The loop over the members, from the offset behind the brace or comma.
  function ParseMembers(c: seq<Byte>, o: nat, depth: nat): (r: Parsing<Read<Members>>)
    requires o <= |c|
    ensures r.Done? ==> o < r.value.next <= |c| && r.value.value.Member?
    decreases |c| - o, 3
  {
    var m := ParseMember(c, o, depth);
    if m.Failed? then Failed(m.overread)
    else
      var k, v, q := m.value.value.key, m.value.value.value, m.value.next;
      if q == |c| then Failed(false)
      else if c[q] == 0x2C then
        var x := ParseMembers(c, q + 1, depth);
        if x.Failed? then Failed(x.overread) else Done(Read(Member(k, v, x.value.value), x.value.next))
      else if c[q] == 0x7D then Done(Read(Member(k, v, End), q + 1))
      else Failed(false)
  }

  // skip_utf8_bom
  function SkipBom(c: seq<Byte>): (r: nat)
    ensures r <= |c|
  { if |c| > 4 && c[0] == 0xEF && c[1] == 0xBB && c[2] == 0xBF then 3 else 0 }

  // cJSON_ParseWithLengthOpts
  function ParseText(c: seq<Byte>, terminated: bool): Parsing<Json> {
    if c == [] then Failed(false)
    else
      var r := ParseValue(c, Skip(c, SkipBom(c)), 0);
      if r.Failed? then Failed(r.overread)
      else if terminated && (var q := Skip(c, r.value.next); q == |c| || c[q] != 0) then Failed(false)
      else Done(r.value.value)
  }

  // ---------- Nesting and NUL bytes ----------

  function Max(a: nat, b: nat): nat { if a < b then b else a }

  // How deep arrays and objects are nested.
  function Nesting(v: Json): nat
    decreases v
  {
    match v
    case Arr(x) => 1 + NestingItems(x)
    case Obj(x) => 1 + NestingMembers(x)
    case _ => 0
  }

  function NestingItems(x: Items): nat
    decreases x
  { if x.Nil? then 0 else Max(Nesting(x.value), NestingItems(x.next)) }

  function NestingMembers(x: Members): nat
    decreases x
  { if x.End? then 0 else Max(Nesting(x.value), NestingMembers(x.next)) }

  // All strings and names are free of NUL bytes.
  predicate NulFree(v: Json)
    decreases v
  {
    match v
    case Str(s) => 0 !in s
    case Arr(x) => NulFreeItems(x)
    case Obj(x) => NulFreeMembers(x)
    case _ => true
  }

  predicate NulFreeItems(x: Items)
    decreases x
  { x.Nil? || (NulFree(x.value) && NulFreeItems(x.next)) }

  predicate NulFreeMembers(x: Members)
    decreases x
  { x.End? || (0 !in x.key && NulFree(x.value) && NulFreeMembers(x.next)) }

  // White space from o on, then something else.
  ghost predicate BlankTo(c: seq<Byte>, o: nat, p: nat) {
    o <= p < |c| && c[p] > 32 && forall i :: o <= i < p ==> c[i] <= 32
  }

  lemma {:induction false} SkipTo(c: seq<Byte>, o: nat, p: nat)
    requires BlankTo(c, o, p)
    ensures Skip(c, o) == p && NotBlank(c, o) == p
    decreases p - o
  {
    if o < p { SkipTo(c, o + 1, p); }
  }

  // A character, white space, and something else.
  lemma Cut(c: seq<Byte>, o: nat, ch: Byte, w: seq<Byte>, rest: seq<Byte>, p: nat)
    requires At(c, o, [ch] + w + rest) && p == o + 1 + |w| && rest != [] && rest[0] > 32
    requires forall i :: 0 <= i < |w| ==> w[i] <= 32
    ensures o < |c| && c[o] == ch && BlankTo(c, o + 1, p) && c[p] == rest[0] && At(c, p, rest)
  {
    AtParts(c, o, [ch] + w, rest);
    AtParts(c, o, [ch], w);
    AtIndex(c, o, [ch], 0);
    AtIndex(c, p, rest, 0);
    forall i | o + 1 <= i < p ensures c[i] <= 32 { AtIndex(c, o + 1, w, i - (o + 1)); }
  }

  // The same without the character in front.
  lemma CutBlank(c: seq<Byte>, o: nat, w: seq<Byte>, rest: seq<Byte>, p: nat)
    requires At(c, o, w + rest) && p == o + |w| && rest != [] && rest[0] > 32
    requires forall i :: 0 <= i < |w| ==> w[i] <= 32
    ensures BlankTo(c, o, p) && c[p] == rest[0] && At(c, p, rest)
  {
    AtParts(c, o, w, rest);
    AtIndex(c, p, rest, 0);
    forall i | o <= i < p ensures c[i] <= 32 { AtIndex(c, o, w, i - o); }
  }

  lemma WordAt(c: seq<Byte>, o: nat, t: seq<Byte>)
    requires At(c, o, t)
    ensures IsAt(c, o, t)
  {
  }

  // The first character of a printed value: neither white space nor a closing bracket.
  lemma PrintBegins(v: Json, fmt: bool, depth: nat)
    ensures var t := Print(v, fmt, depth);
            t != [] && t[0] == match v
                               case Null => 0x6E
                               case False => 0x66
                               case True => 0x74
                               case Str(_) => QUOTE
                               case Arr(_) => 0x5B
                               case Obj(_) => 0x7B
  {
  }

  lemma NotWord(c: seq<Byte>, o: nat)
    requires o < |c| && c[o] != 0x6E && c[o] != 0x66 && c[o] != 0x74
    ensures !IsAt(c, o, NullText()) && !IsAt(c, o, FalseText()) && !IsAt(c, o, TrueText())
  {
    assert NullText()[0] == 0x6E && FalseText()[0] == 0x66 && TrueText()[0] == 0x74;
  }

  lemma ArrayStep(c: seq<Byte>, o: nat, p: nat, depth: nat)
    requires o < |c| && BlankTo(c, o + 1, p) && c[p] != 0x5D && depth < NESTING_LIMIT
    ensures var x := ParseItems(c, p, depth + 1);
            ParseArray(c, o, depth) == if x.Failed? then Failed(x.overread)
              else Done(Read(Arr(x.value.value), x.value.next))
  {
    SkipTo(c, o + 1, p);
  }

  lemma ObjectEmpty(c: seq<Byte>, o: nat, p: nat, depth: nat)
    requires o < |c| && BlankTo(c, o + 1, p) && c[p] == 0x7D && depth < NESTING_LIMIT
    ensures ParseObject(c, o, depth) == Done(Read(Obj(End), p + 1))
  {
    SkipTo(c, o + 1, p);
  }

  lemma {:induction false} ObjectStep(c: seq<Byte>, o: nat, p: nat, depth: nat)
    requires o < |c| && BlankTo(c, o + 1, p) && c[p] != 0x7D && depth < NESTING_LIMIT
    ensures var x := ParseMembers(c, p, depth + 1);
            ParseObject(c, o, depth) == if x.Failed? then Failed(x.overread)
              else Done(Read(Obj(x.value.value), x.value.next))
  {
    SkipTo(c, o + 1, p);
  }

  // ---------- Reading behind the end ----------

  predicate EndsInComma(c: seq<Byte>) { c != [] && c[|c| - 1] == 0x2C }

  // The name of a member is looked for at the end of the buffer iff the comma in front of it
  // is the last byte; then the byte behind the buffer is read, and the object is refused.
  lemma NameBehindComma(c: seq<Byte>, o: nat, depth: nat)
    requires 0 < o <= |c| && c[o - 1] == 0x2C
    ensures Skip(c, o) == |c| <==> o == |c|
    ensures ParseString(c, Skip(c, o)) == Failed(true) <==> o == |c|
    ensures o == |c| ==> ParseMembers(c, o, depth) == Failed(true)
  {
  }

  // So the members of an object overread iff such a comma follows one of them, or the value
  // of one overreads.
  lemma MembersOverread(c: seq<Byte>, o: nat, depth: nat)
    requires o < |c|
    ensures var m := ParseMember(c, o, depth);
            ParseMembers(c, o, depth) == Failed(true) <==>
              if m.Failed? then m.overread
              else
                && m.value.next < |c| && c[m.value.next] == 0x2C
                && (m.value.next == |c| - 1 || ParseMembers(c, m.value.next + 1, depth) == Failed(true))
  {
    hide ParseMember;
    var m := ParseMember(c, o, depth);
    if m.Done? && m.value.next == |c| - 1 && c[m.value.next] == 0x2C { NameBehindComma(c, |c|, depth); }
  }

  lemma {:induction false} ValueOverreads(c: seq<Byte>, o: nat, depth: nat)
    requires o <= |c|
    ensures ParseValue(c, o, depth) == Failed(true) ==> EndsInComma(c)
    decreases |c| - o, 1
  {
    hide ParseString;
    hide ParseArray;
    hide ParseObject;
    if o < |c| {
      ContainerOverreads(c, o, depth);
      assert ParseString(c, o) != Failed(true);
    }
  }

  lemma {:induction false} ContainerOverreads(c: seq<Byte>, o: nat, depth: nat)
    requires o < |c|
    ensures ParseArray(c, o, depth) == Failed(true) || ParseObject(c, o, depth) == Failed(true) ==> EndsInComma(c)
    decreases |c| - o, 0
  {
    hide ParseItems;
    hide ParseMembers;
    var p := Skip(c, o + 1);
    if p < |c| {
      ItemsOverread(c, p, depth + 1);
      MemberCommaOverreads(c, p, depth + 1);
    }
  }

  lemma {:induction false} ItemsOverread(c: seq<Byte>, o: nat, depth: nat)
    requires o <= |c|
    ensures ParseItems(c, o, depth) == Failed(true) ==> EndsInComma(c)
    decreases |c| - o, 2
  {
    hide ParseValue;
    ValueOverreads(c, Skip(c, o), depth);
    var v := ParseValue(c, Skip(c, o), depth);
    if v.Done? {
      var q := Skip(c, v.value.next);
      if q < |c| { ItemsOverread(c, q + 1, depth); }
    }
  }

  lemma {:induction false} MemberCommaOverreads(c: seq<Byte>, o: nat, depth: nat)
    requires o < |c|
    ensures ParseMembers(c, o, depth) == Failed(true) ==> EndsInComma(c)
    decreases |c| - o, 2
  {
    hide ParseValue;
    hide ParseString;
    MembersOverread(c, o, depth);
    var k := ParseString(c, Skip(c, o));
    if k.Done? {
      var a := Skip(c, k.value.next);
      if a < |c| { ValueOverreads(c, Skip(c, a + 1), depth); }
    }
    var m := ParseMember(c, o, depth);
    if m.Done? && m.value.next + 1 < |c| { MemberCommaOverreads(c, m.value.next + 1, depth); }
  }

  // A text is only overread when a comma is its last byte, so never when a NUL is.
  lemma TextOverreads(c: seq<Byte>, terminated: bool)
    ensures ParseText(c, terminated) == Failed(true) ==> EndsInComma(c)
    ensures c != [] && c[|c| - 1] == 0 ==> ParseText(c, terminated) != Failed(true)
  {
    if c != [] { ValueOverreads(c, Skip(c, SkipBom(c)), 0); }
  }

  // ---------- The program: parsing ----------

  function AppendItem(x: Items, v: Json): Items {
    if x.Nil? then Item(v, Nil) else Item(x.value, AppendItem(x.next, v))
  }
  function JoinItems(x: Items, y: Items): Items { if x.Nil? then y else Item(x.value, JoinItems(x.next, y)) }
  function AppendMember(x: Members, k: seq<Byte>, v: Json): Members {
    if x.End? then Member(k, v, End) else Member(x.key, x.value, AppendMember(x.next, k, v))
  }
  function JoinMembers(x: Members, y: Members): Members {
    if x.End? then y else Member(x.key, x.value, JoinMembers(x.next, y))
  }

  lemma {:induction false} JoinAppended(x: Items, v: Json, y: Items)
    ensures JoinItems(AppendItem(x, v), y) == JoinItems(x, Item(v, y)) && JoinItems(x, Item(v, Nil)) == AppendItem(x, v)
  {
    if x.Item? { JoinAppended(x.next, v, y); }
  }

  lemma {:induction false} JoinAppendedMember(x: Members, k: seq<Byte>, v: Json, y: Members)
    ensures JoinMembers(AppendMember(x, k, v), y) == JoinMembers(x, Member(k, v, y))
    ensures JoinMembers(x, Member(k, v, End)) == AppendMember(x, k, v)
  {
    if x.Member? { JoinAppendedMember(x.next, k, v, y); }
  }

  function MapItems(done: Items, r: Parsing<Read<Items>>): Parsing<Read<Items>> {
    if r.Failed? then Failed(r.overread) else Done(Read(JoinItems(done, r.value.value), r.value.next))
  }

  function MapMembers(done: Members, r: Parsing<Read<Members>>): Parsing<Read<Members>> {
    if r.Failed? then Failed(r.overread) else Done(Read(JoinMembers(done, r.value.value), r.value.next))
  }

  // What the loop over elements does with one of them.
  lemma ItemsTurn(c: seq<Byte>, o: nat, depth: nat, done: Items)
    requires o <= |c|
    ensures var v := ParseValue(c, Skip(c, o), depth);
            && (v.Failed? ==> MapItems(done, ParseItems(c, o, depth)) == Failed(v.overread))
            && (v.Done? ==>
                  var q := Skip(c, v.value.next);
                  && (q < |c| && c[q] == 0x2C ==>
                        MapItems(done, ParseItems(c, o, depth))
                          == MapItems(AppendItem(done, v.value.value), ParseItems(c, q + 1, depth)))
                  && (q < |c| && c[q] == 0x5D ==>
                        MapItems(done, ParseItems(c, o, depth)) == Done(Read(AppendItem(done, v.value.value), q + 1)))
                  && (q == |c| || (c[q] != 0x2C && c[q] != 0x5D) ==>
                     MapItems(done, ParseItems(c, o, depth)) == Failed(false)))
  {
    hide ParseValue;
    var v := ParseValue(c, Skip(c, o), depth);
    if v.Done? {
      var q := Skip(c, v.value.next);
      JoinAppended(done, v.value.value, Nil);
      if q < |c| {
        var r := ParseItems(c, q + 1, depth);
        if r.Done? { JoinAppended(done, v.value.value, r.value.value); }
      }
    }
  }

  lemma MembersTurn(c: seq<Byte>, o: nat, depth: nat, done: Members)
    requires o <= |c|
    ensures var m := ParseMember(c, o, depth);
            && (m.Failed? ==> MapMembers(done, ParseMembers(c, o, depth)) == Failed(m.overread))
            && (m.Done? ==>
                  var q := m.value.next;
                  var more := AppendMember(done, m.value.value.key, m.value.value.value);
                  && (q < |c| && c[q] == 0x2C ==>
                     MapMembers(done, ParseMembers(c, o, depth)) == MapMembers(more, ParseMembers(c, q + 1, depth)))
                  && (q < |c| && c[q] == 0x7D ==>
                     MapMembers(done, ParseMembers(c, o, depth)) == Done(Read(more, q + 1)))
                  && (q == |c| || (c[q] != 0x2C && c[q] != 0x7D) ==>
                     MapMembers(done, ParseMembers(c, o, depth)) == Failed(false)))
  {
    hide ParseMember;
    var m := ParseMember(c, o, depth);
    if m.Done? {
      var q, k, v := m.value.next, m.value.value.key, m.value.value.value;
      JoinAppendedMember(done, k, v, End);
      if q < |c| {
        var r := ParseMembers(c, q + 1, depth);
        if r.Done? { JoinAppendedMember(done, k, v, r.value.value); }
      }
    }
  }

  // parse_buffer. Failed stands for the result false.
  class ParseBuffer {
    const content: seq<Byte>
    var offset: nat
    var depth: nat

    constructor (content: seq<Byte>)
      ensures this.content == content && offset == 0 && depth == 0
    {
      this.content, offset, depth := content, 0, 0;
    }

    // buffer_skip_whitespace
    method SkipWhitespace()
      requires offset <= |content|
      modifies this`offset
      ensures offset == Skip(content, old(offset))
    {
      if offset >= |content| { return; }
      while offset < |content| && content[offset] <= 32
        invariant old(offset) <= offset <= |content| && NotBlank(content, offset) == NotBlank(content, old(offset))
      {
        offset := offset + 1;
      }
      if offset == |content| { offset := offset - 1; }
    }

    // strncmp with a word
    method Matches(t: seq<Byte>) returns (same: bool)
      ensures same <==> IsAt(content, offset, t)
    {
      if offset + |t| > |content| { return false; }
      for i := 0 to |t|
        invariant forall k :: 0 <= k < i ==> content[offset + k] == t[k]
      {
        if content[offset + i] != t[i] { return false; }
      }
      same := true;
    }

    ghost predicate Returns<T>(r: Parsing<T>, spec: Parsing<Read<T>>, depthBefore: nat)
      reads this
    {
      if spec.Failed? then r == Failed(spec.overread)
      else r == Done(spec.value.value) && offset == spec.value.next && depth == depthBefore
    }

    // parse_value
    method ReadValue() returns (r: Parsing<Json>)
      requires offset <= |content|
      modifies this
      ensures Returns(r, ParseValue(content, old(offset), old(depth)), old(depth))
      decreases |content| - offset, 1
    {
      hide ParseString;
      hide ParseArray;
      hide ParseObject;
      var word := Matches(NullText());
      if word { offset := offset + 4; return Done(Null); }
      word := Matches(FalseText());
      if word { offset := offset + 5; return Done(False); }
      word := Matches(TrueText());
      if word { offset := offset + 4; return Done(True); }
      if offset == |content| { return Failed(false); }
      if content[offset] == QUOTE {
        var s := ParseStringAt(content, offset);
        if s.Failed? { return Failed(s.overread); }
        offset := s.value.next;
        return Done(Str(s.value.s));
      }
      if content[offset] == 0x5B {
        r := ReadArray();
      } else if content[offset] == 0x7B {
        r := ReadObject();
      } else {
        r := Failed(false);
      }
    }

    // parse_array
    method ReadArray() returns (r: Parsing<Json>)
      requires offset < |content| && content[offset] == 0x5B
      modifies this
      ensures Returns(r, ParseArray(content, old(offset), old(depth)), old(depth))
      decreases |content| - offset, 0
    {
      hide ParseItems;
      if depth >= NESTING_LIMIT { return Failed(false); }
      depth := depth + 1;
      offset := offset + 1;
      SkipWhitespace();
      if offset < |content| && content[offset] == 0x5D {
        depth := depth - 1;
        offset := offset + 1;
        return Done(Arr(Nil));
      }
      if offset == |content| { return Failed(false); }
      offset := offset - 1;
      var x := ReadItems();
      if x.Failed? { return Failed(x.overread); }
      depth := depth - 1;
      offset := offset + 1;
      r := Done(Arr(x.value));
    }

    // The loop of parse_array, from the character in front of the first element to the
    // closing bracket.
    method ReadItems() returns (r: Parsing<Items>)
      requires offset < |content|
      modifies this
      ensures var s := ParseItems(content, old(offset) + 1, old(depth));
              if s.Failed? then r == Failed(s.overread)
              else r == Done(s.value.value) && offset + 1 == s.value.next && depth == old(depth)
      decreases |content| - offset - 1, 2
    {
      hide ParseItems;
      hide ParseValue;
      var done := Nil;
      ghost var goal := ParseItems(content, offset + 1, depth);
      while true
        invariant old(offset) <= offset < |content| && depth == old(depth)
        invariant goal == MapItems(done, ParseItems(content, offset + 1, depth))
        decreases |content| - offset
      {
        ItemsTurn(content, offset + 1, depth, done);
        offset := offset + 1;
        SkipWhitespace();
        var v := ReadValue();
        if v.Failed? { return Failed(v.overread); }
        SkipWhitespace();
        done := AppendItem(done, v.value);
        if offset == |content| || content[offset] != 0x2C { break; }
      }
      if offset == |content| || content[offset] != 0x5D { return Failed(false); }
      r := Done(done);
    }

    // parse_object
    method ReadObject() returns (r: Parsing<Json>)
      requires offset < |content| && content[offset] == 0x7B
      modifies this
      ensures Returns(r, ParseObject(content, old(offset), old(depth)), old(depth))
      decreases |content| - offset, 0
    {
      hide ParseMembers;
      if depth >= NESTING_LIMIT { return Failed(false); }
      depth := depth + 1;
      offset := offset + 1;
      SkipWhitespace();
      if offset < |content| && content[offset] == 0x7D {
        depth := depth - 1;
        offset := offset + 1;
        return Done(Obj(End));
      }
      if offset == |content| { return Failed(false); }
      offset := offset - 1;
      var x := ReadMembers();
      if x.Failed? { return Failed(x.overread); }
      depth := depth - 1;
      offset := offset + 1;
      r := Done(Obj(x.value));
    }

    // One member: the name, the colon and the value, from the character in front of it to
    // what follows it.
    method ReadMember() returns (r: Parsing<Entry>)
      requires offset < |content|
      modifies this
      ensures var s := ParseMember(content, old(offset) + 1, old(depth));
              if s.Failed? then r == Failed(s.overread)
              else r == Done(s.value.value) && offset == s.value.next && depth == old(depth)
      decreases |content| - offset - 1, 2
    {
      hide ParseValue;
      hide ParseString;
      offset := offset + 1;
      SkipWhitespace();
      var k := ParseStringAt(content, offset);
      if k.Failed? { return Failed(k.overread); }
      offset := k.value.next;
      SkipWhitespace();
      if offset == |content| || content[offset] != 0x3A { return Failed(false); }
      offset := offset + 1;
      SkipWhitespace();
      var v := ReadValue();
      if v.Failed? { return Failed(v.overread); }
      SkipWhitespace();
      r := Done(Entry(k.value.s, v.value));
    }

    // The loop of parse_object.
    method ReadMembers() returns (r: Parsing<Members>)
      requires offset < |content|
      modifies this
      ensures var s := ParseMembers(content, old(offset) + 1, old(depth));
              if s.Failed? then r == Failed(s.overread)
              else r == Done(s.value.value) && offset + 1 == s.value.next && depth == old(depth)
      decreases |content| - offset - 1, 3
    {
      hide ParseMembers;
      hide ParseMember;
      var done := End;
      ghost var goal := ParseMembers(content, offset + 1, depth);
      while true
        invariant old(offset) <= offset < |content| && depth == old(depth)
        invariant goal == MapMembers(done, ParseMembers(content, offset + 1, depth))
        decreases |content| - offset
      {
        MembersTurn(content, offset + 1, depth, done);
        var m := ReadMember();
        if m.Failed? { return Failed(m.overread); }
        done := AppendMember(done, m.value.key, m.value.value);
        if offset == |content| || content[offset] != 0x2C { break; }
      }
      if offset == |content| || content[offset] != 0x7D { return Failed(false); }
      r := Done(done);
    }
  }

  // cJSON_ParseWithLengthOpts on a buffer.
  method ReadText(c: seq<Byte>, terminated: bool) returns (r: Parsing<Json>)
    ensures r == ParseText(c, terminated)
  {
    hide ParseValue;
    if |c| == 0 { return Failed(false); }
    var b := new ParseBuffer(c);
    if |c| > 4 && c[0] == 0xEF && c[1] == 0xBB && c[2] == 0xBF { b.offset := 3; }
    b.SkipWhitespace();
    r := b.ReadValue();
    if r.Failed? { return; }
    if terminated {
      b.SkipWhitespace();
      if b.offset == |c| || c[b.offset] != 0 { return Failed(false); }
    }
  }

  // ---------- The program: printing ----------

  // What the loops still have to write.
  function ItemsText(x: Items, fmt: bool, depth: nat): seq<Byte> {
    if x.Nil? then [0x5D] else PrintItems(x, fmt, depth)
  }

  // Where a formatted object has reached the beginning of a line.
  function MembersText(x: Members, fmt: bool, depth: nat): seq<Byte>
    requires depth > 0
  {
    if x.End? then (if fmt then Tabs(depth - 1) else []) + [0x7D]
    else (if fmt then Tabs(depth) else []) + PrintMembers(x, fmt, depth)
  }

  // strcpy of a short text behind the text t, in the room that ensure has made.
  method Copy(p: PrintBuffer, s: seq<Byte>, ghost t: seq<Byte>)
    requires p.Base(t) && p.offset + |s| < p.buffer.Length && 0 !in s
    modifies p.buffer
    ensures p.Holds(t + s)
  {
    PutBytes(p.buffer, p.offset, s);
    p.buffer[p.offset + |s|] := 0;
    assert (t + s)[p.offset..] == s;
  }

  // The same counted in offset at once, with or without a NUL behind it.
  method Append(p: PrintBuffer, s: seq<Byte>, nul: bool, ghost t: seq<Byte>)
    requires p.Base(t) && p.offset + |s| < p.buffer.Length
    modifies p.buffer, p`offset
    ensures p.Base(t + s)
  {
    PutBytes(p.buffer, p.offset, s);
    if nul { p.buffer[p.offset + |s|] := 0; }
    p.offset := p.offset + |s|;
  }

  // Whether a text fits the sizes that ensure supports.
  predicate Fits(n: nat) { n + 2 <= INT_MAX }

  // print_value. It can fail only when the buffer may not grow or would outgrow INT_MAX.
  method PrintValue(p: PrintBuffer, v: Json, ghost t: seq<Byte>) returns (ok: bool)
    requires p.Base(t) && NulFree(v)
    modifies p`buffer, p`offset, p`depth, p.buffer
    ensures p.buffer == old(p.buffer) || fresh(p.buffer)
    ensures ok ==> p.Holds(t + Print(v, p.format, old(p.depth))) && p.depth == old(p.depth)
    ensures !p.noalloc && Fits(|t| + |Print(v, p.format, old(p.depth))|) ==> ok
    decreases v, 1
  {
    match v
    case Null =>
      ok := p.Ensure(5);
      if ok { Copy(p, NullText(), t); }
    case False =>
      ok := p.Ensure(6);
      if ok { Copy(p, FalseText(), t); }
    case True =>
      ok := p.Ensure(5);
      if ok { Copy(p, TrueText(), t); }
    case Str(s) => ok := p.PrintString(Some(s), t);
    case Arr(x) => ok := PrintArray(p, x, t);
    case Obj(x) => ok := PrintObject(p, x, t);
  }

  // print_array
  method PrintArray(p: PrintBuffer, x: Items, ghost t: seq<Byte>) returns (ok: bool)
    requires p.Base(t) && NulFreeItems(x)
    modifies p`buffer, p`offset, p`depth, p.buffer
    ensures p.buffer == old(p.buffer) || fresh(p.buffer)
    ensures ok ==> p.Holds(t + Print(Arr(x), p.format, old(p.depth))) && p.depth == old(p.depth)
    ensures !p.noalloc && Fits(|t| + |Print(Arr(x), p.format, old(p.depth))|) ==> ok
    decreases x, 2
  {
    ghost var goal, d := t + Print(Arr(x), p.format, p.depth), p.depth + 1;
    ok := p.Ensure(1);
    if !ok { return; }
    Append(p, [0x5B], false, t);
    p.depth := p.depth + 1;
    var current := x;
    ghost var done := t + [0x5B];
    assert done + ItemsText(x, p.format, d) == goal;
    while current.Item?
      invariant p.Base(done) && p.depth == d && NulFreeItems(current) && (current == x || current < x)
      invariant done + ItemsText(current, p.format, d) == goal
      invariant p.buffer == old(p.buffer) || fresh(p.buffer)
      decreases current
    {
      ok, done := PrintElement(p, current, done);
      if !ok { return; }
      current := current.next;
    }
    ok := p.Ensure(2);
    if !ok { return; }
    Copy(p, [0x5D], done);
    p.depth := p.depth - 1;
  }

  // An element and the comma behind it.
  method PrintElement(p: PrintBuffer, x: Items, ghost t: seq<Byte>) returns (ok: bool, ghost done: seq<Byte>)
    requires x.Item? && p.Base(t) && NulFreeItems(x)
    modifies p`buffer, p`offset, p`depth, p.buffer
    ensures p.buffer == old(p.buffer) || fresh(p.buffer)
    ensures ok ==>
      p.Base(done) && p.depth == old(p.depth)
      && done + ItemsText(x.next, p.format, p.depth) == t + ItemsText(x, p.format, p.depth)
    ensures !p.noalloc && Fits(|t| + |ItemsText(x, p.format, old(p.depth))|) ==> ok
    decreases x, 0
  {
    hide Print;
    ok := PrintValue(p, x.value, t);
    done := t + Print(x.value, p.format, old(p.depth));
    if !ok { return; }
    p.UpdateOffset(done);
    if x.next.Item? {
      ok := p.Ensure(if p.format then 3 else 2);
      if !ok { return; }
      Append(p, [0x2C] + Blank(p.format), true, done);
      done := done + ([0x2C] + Blank(p.format));
    }
  }

  function Newline(fmt: bool): seq<Byte> { if fmt then [10] else [] }
  function Indent(fmt: bool, n: nat): seq<Byte> { if fmt then Tabs(n) else [] }

  function MembersRest(x: Members, fmt: bool, depth: nat): seq<Byte>
    requires x.Member? && depth > 0
  {
    if x.next.End? then Line(fmt, depth - 1) + [0x7D] else [0x2C] + Line(fmt, depth) + PrintMembers(x.next, fmt, depth)
  }

  lemma ObjectText(x: Members, fmt: bool, depth: nat, t: seq<Byte>)
    ensures t + Print(Obj(x), fmt, depth) == t + ([0x7B] + Newline(fmt)) + MembersText(x, fmt, depth + 1)
  {
    var d := if x.End? then depth else depth + 1;
    var body := if x.End? then [0x7D] else PrintMembers(x, fmt, depth + 1);
    assert Line(fmt, d) == Newline(fmt) + Indent(fmt, d);
    assert MembersText(x, fmt, depth + 1) == Indent(fmt, d) + body;
    Opened(t, [0x7B], Newline(fmt), Indent(fmt, d), body);
  }

  lemma Opened(t: seq<Byte>, brace: seq<Byte>, newline: seq<Byte>, i: seq<Byte>, body: seq<Byte>)
    ensures t + (brace + (newline + i) + body) == t + (brace + newline) + (i + body)
  {
  }

  lemma Glue(t: seq<Byte>, i: seq<Byte>, k: seq<Byte>, colon: seq<Byte>, tab: seq<Byte>, v: seq<Byte>)
    ensures t + (i + (k + colon + tab + v)) == t + i + k + (colon + tab) + v
  {
  }

  lemma Regroup(t: seq<Byte>, i: seq<Byte>, body: seq<Byte>, ending: seq<Byte>, rest: seq<Byte>)
    ensures t + (i + (body + (ending + rest))) == t + (i + body) + ending + rest
  {
  }

  // A member, from its indentation to the beginning of the next line.
  lemma MemberText(x: Members, fmt: bool, depth: nat, t: seq<Byte>)
    requires x.Member? && depth > 0
    ensures var u := t + Indent(fmt, depth) + Quoted(x.key) + ([0x3A] + Tab(fmt)) + Print(x.value, fmt, depth);
            t + MembersText(x, fmt, depth)
              == u + ((if x.next.Member? then [0x2C] else []) + Newline(fmt)) + MembersText(x.next, fmt, depth)
  {
    hide Print;
    hide Quoted;
    var body := Quoted(x.key) + [0x3A] + Tab(fmt) + Print(x.value, fmt, depth);
    var ending := (if x.next.Member? then [0x2C] else []) + Newline(fmt);
    MemberEnd(x, fmt, depth);
    assert MembersText(x, fmt, depth) == Indent(fmt, depth) + (body + (ending + MembersText(x.next, fmt, depth)));
    Regroup(t, Indent(fmt, depth), body, ending, MembersText(x.next, fmt, depth));
    Glue(t, Indent(fmt, depth), Quoted(x.key), [0x3A], Tab(fmt), Print(x.value, fmt, depth));
  }

  lemma MemberEnd(x: Members, fmt: bool, depth: nat)
    requires x.Member? && depth > 0
    ensures MembersRest(x, fmt, depth)
      == (if x.next.Member? then [0x2C] else []) + Newline(fmt) + MembersText(x.next, fmt, depth)
  {
    hide Print;
    hide Quoted;
  }

  lemma MembersTextEnd(x: Members, fmt: bool, depth: nat)
    requires x.End? && depth > 0
    ensures MembersText(x, fmt, depth) == Indent(fmt, depth - 1) + [0x7D]
    ensures 0 !in Indent(fmt, depth - 1) + [0x7D]
  {
  }

  // print_object
  method PrintObject(p: PrintBuffer, x: Members, ghost t: seq<Byte>) returns (ok: bool)
    requires p.Base(t) && NulFreeMembers(x)
    modifies p`buffer, p`offset, p`depth, p.buffer
    ensures p.buffer == old(p.buffer) || fresh(p.buffer)
    ensures ok ==> p.Holds(t + Print(Obj(x), p.format, old(p.depth))) && p.depth == old(p.depth)
    ensures !p.noalloc && Fits(|t| + |Print(Obj(x), p.format, old(p.depth))|) ==> ok
    decreases x, 2
  {
    hide PrintMembers;
    hide Print;
    hide MembersText;
    ghost var goal, d := t + Print(Obj(x), p.format, p.depth), p.depth + 1;
    ObjectText(x, p.format, p.depth, t);
    MembersTextLength(x, p.format, d);
    ok := p.Ensure(if p.format then 3 else 2);
    if !ok { return; }
    Append(p, [0x7B] + Newline(p.format), false, t);
    p.depth := p.depth + 1;
    var current := x;
    ghost var done := t + ([0x7B] + Newline(p.format));
    while current.Member?
      invariant p.Base(done) && p.depth == d && NulFreeMembers(current) && (current == x || current < x)
      invariant done + MembersText(current, p.format, d) == goal
      invariant p.buffer == old(p.buffer) || fresh(p.buffer)
      decreases current
    {
      ok, done := PrintMember(p, current, done);
      if !ok { return; }
      current := current.next;
    }
    MembersTextEnd(current, p.format, d);
    ok := CloseObject(p, done);
  }

  // The indentation of the closing brace, and the brace.
  method CloseObject(p: PrintBuffer, ghost t: seq<Byte>) returns (ok: bool)
    requires p.Base(t) && p.depth > 0
    modifies p`buffer, p`depth, p.buffer
    ensures p.buffer == old(p.buffer) || fresh(p.buffer)
    ensures ok ==> p.Holds(t + (Indent(p.format, p.depth) + [0x7D])) && p.depth == old(p.depth) - 1
    ensures !p.noalloc && Fits(|t| + |Indent(p.format, old(p.depth) - 1)| + 1) ==> ok
  {
    ok := p.Ensure(if p.format then p.depth + 1 else 2);
    if !ok { return; }
    Copy(p, Indent(p.format, p.depth - 1) + [0x7D], t);
    p.depth := p.depth - 1;
  }

  // The name of a member with what stands around it.
  method PrintName(p: PrintBuffer, key: seq<Byte>, ghost t: seq<Byte>) returns (ok: bool, ghost done: seq<Byte>)
    requires p.Base(t) && 0 !in key && p.depth > 0
    modifies p`buffer, p`offset, p.buffer
    ensures p.buffer == old(p.buffer) || fresh(p.buffer)
    ensures done == t + Indent(p.format, p.depth) + Quoted(key) + ([0x3A] + Tab(p.format)) && (ok ==> p.Base(done))
    ensures !p.noalloc && |done| + 1 <= INT_MAX ==> ok
  {
    done := t + Indent(p.format, p.depth) + Quoted(key) + ([0x3A] + Tab(p.format));
    ghost var u := t;
    if p.format {
      ok := p.Ensure(p.depth);
      if !ok { return; }
      Append(p, Tabs(p.depth), false, t);
    }
    u := t + Indent(p.format, p.depth);
    assert p.Base(u);
    ok := p.PrintString(Some(key), u);
    if !ok { return; }
    p.UpdateOffset(u + Quoted(key));
    ok := p.Ensure(if p.format then 2 else 1);
    if !ok { return; }
    Append(p, [0x3A] + Tab(p.format), false, u + Quoted(key));
  }

  // A member up to the end of its line.
  method PrintMember(p: PrintBuffer, x: Members, ghost t: seq<Byte>) returns (ok: bool, ghost done: seq<Byte>)
    requires x.Member? && p.Base(t) && NulFreeMembers(x) && p.depth > 0
    modifies p`buffer, p`offset, p`depth, p.buffer
    ensures p.buffer == old(p.buffer) || fresh(p.buffer)
    ensures ok ==>
      p.Base(done) && p.depth == old(p.depth)
      && done + MembersText(x.next, p.format, p.depth) == t + MembersText(x, p.format, p.depth)
    ensures !p.noalloc && Fits(|t| + |MembersText(x, p.format, old(p.depth))|) ==> ok
    decreases x, 0
  {
    hide Print;
    hide PrintMembers;
    hide MembersText;
    hide Quoted;
    MemberText(x, p.format, p.depth, t);
    MembersTextLength(x.next, p.format, p.depth);
    ok, done := PrintName(p, x.key, t);
    if !ok { return; }
    ghost var u := done + Print(x.value, p.format, p.depth);
    PrintBegins(x.value, p.format, p.depth);
    ok := PrintValue(p, x.value, done);
    if !ok { return; }
    p.UpdateOffset(u);
    var comma := if x.next.Member? then [0x2C] else [];
    ok := p.Ensure(|comma| + (if p.format then 1 else 0) + 1);
    if !ok { return; }
    Append(p, comma + Newline(p.format), true, u);
    done := u + (comma + Newline(p.format));
  }

  lemma MembersTextLength(x: Members, fmt: bool, depth: nat)
    requires depth > 0
    ensures |MembersText(x, fmt, depth)| >= 1
  {
  }

  // cJSON_Print and cJSON_PrintUnformatted: the text, or None when it is too long.
  method PrintText(v: Json, fmt: bool) returns (r: Option<seq<Byte>>)
    requires NulFree(v)
    ensures r.Some? ==> r.value == Print(v, fmt, 0)
    ensures Fits(|Print(v, fmt, 0)|) ==> r.Some?
  {
    var buffer := new Byte[256];
    var p := new PrintBuffer(buffer, false, fmt);
    var ok := PrintValue(p, v, []);
    if !ok { return None; }
    assert [] + Print(v, fmt, 0) == Print(v, fmt, 0);
    p.UpdateOffset(Print(v, fmt, 0));
    r := Some(p.buffer[..p.offset]);
  }
}
