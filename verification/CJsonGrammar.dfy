// Which texts cJSON.c parses, and to what: a grammar of JSON texts without numbers, against
// which the parser and the printer of module CJsonCodec are proved.

module CJsonGrammars {

  import opened Wrappers
  import opened CJsonStrings
  import opened CJsonCodec

  // ---------- Texts ----------

  // A text with all its white space. tok is a string with its quotes, s what it stands for.
  datatype Doc = NullDoc | FalseDoc | TrueDoc | StrDoc(tok: seq<Byte>, s: seq<Byte>)
    | ArrDoc(blank: seq<Byte>, items: ItemDocs) | ObjDoc(blank: seq<Byte>, members: MemberDocs)

  // after stands behind the element, before behind the comma that follows it.
  datatype ItemDocs = NoItems | AnItem(value: Doc, after: seq<Byte>, before: seq<Byte>, next: ItemDocs)

  datatype MemberDocs = NoMembers | AMember(
    tok: seq<Byte>, key: seq<Byte>, colonBefore: seq<Byte>, colonAfter: seq<Byte>,
    value: Doc, after: seq<Byte>, before: seq<Byte>, next: MemberDocs)

  function Spell(d: Doc): seq<Byte>
    decreases d
  {
    match d
    case NullDoc => [0x6E, 0x75, 0x6C, 0x6C]
    case FalseDoc => [0x66, 0x61, 0x6C, 0x73, 0x65]
    case TrueDoc => [0x74, 0x72, 0x75, 0x65]
    case StrDoc(tok, _) => tok
    case ArrDoc(b, x) => [0x5B] + b + (if x.NoItems? then [0x5D] else SpellItems(x))
    case ObjDoc(b, x) => [0x7B] + b + (if x.NoMembers? then [0x7D] else SpellMembers(x))
  }

  // The elements and the closing bracket.
  function SpellItems(x: ItemDocs): seq<Byte>
    requires x.AnItem?
    decreases x
  {
    Spell(x.value) + (x.after + (if x.next.NoItems? then [0x5D] else [0x2C] + x.before + SpellItems(x.next)))
  }

  // The members and the closing brace.
  function SpellMembers(x: MemberDocs): seq<Byte>
    requires x.AMember?
    decreases x
  {
    x.tok + (x.colonBefore + ([0x3A] + x.colonAfter + (Spell(x.value) + (x.after
      + (if x.next.NoMembers? then [0x7D] else [0x2C] + x.before + SpellMembers(x.next))))))
  }

  function Mean(d: Doc): Json
    decreases d
  {
    match d
    case NullDoc => Null
    case FalseDoc => False
    case TrueDoc => True
    case StrDoc(_, s) => Str(s)
    case ArrDoc(_, x) => Arr(MeanItems(x))
    case ObjDoc(_, x) => Obj(MeanMembers(x))
  }

  function MeanItems(x: ItemDocs): Items
    decreases x
  { if x.NoItems? then Nil else Item(Mean(x.value), MeanItems(x.next)) }

  function MeanMembers(x: MemberDocs): Members
    decreases x
  { if x.NoMembers? then End else Member(x.key, Mean(x.value), MeanMembers(x.next)) }

  // What cJSON.c skips between the parts of a text.
  predicate IsBlank(w: seq<Byte>) { forall i :: 0 <= i < |w| ==> w[i] <= 32 }

  // A string with its quotes, of which parse_string makes s.
  predicate Literal(tok: seq<Byte>, s: seq<Byte>) { tok != [] && ParseString(tok, 0) == Done(Parsed(s, |tok|)) }

  predicate Sound(d: Doc)
    decreases d
  {
    match d
    case StrDoc(tok, s) => Literal(tok, s)
    case ArrDoc(b, x) => IsBlank(b) && SoundItems(x)
    case ObjDoc(b, x) => IsBlank(b) && SoundMembers(x)
    case _ => true
  }

  predicate SoundItems(x: ItemDocs)
    decreases x
  { x.NoItems? || (Sound(x.value) && IsBlank(x.after) && IsBlank(x.before) && SoundItems(x.next)) }

  predicate SoundMembers(x: MemberDocs)
    decreases x
  {
    x.NoMembers?
    || (&& Literal(x.tok, x.key) && IsBlank(x.colonBefore) && IsBlank(x.colonAfter)
        && Sound(x.value) && IsBlank(x.after) && IsBlank(x.before) && SoundMembers(x.next))
  }

  // ---------- A string depends on nothing but its own bytes ----------

  lemma {:induction false} MeasureMoved(c: seq<Byte>, o: nat, tok: seq<Byte>, q: nat)
    requires At(c, o, tok)
    ensures Measure(tok, q).Some? ==>
              Measure(c, o + q) == Some(Extent(o + Measure(tok, q).value.end, Measure(tok, q).value.skipped))
    decreases |tok| - q
  {
    if q < |tok| && tok[q] != QUOTE {
      AtIndex(c, o, tok, q);
      MeasureMoved(c, o, tok, if tok[q] != BACKSLASH then q + 1 else q + 2);
    } else if q < |tok| {
      AtIndex(c, o, tok, q);
    }
  }

  lemma AtSize(c: seq<Byte>, o: nat, tok: seq<Byte>)
    requires At(c, o, tok)
    ensures o + |tok| <= |c|
  {
  }

  lemma Utf16Moved(c: seq<Byte>, o: nat, tok: seq<Byte>, p: nat, end: nat)
    requires At(c, o, tok) && p <= end <= |tok|
    ensures Utf16(c, o + p, o + end) == Utf16(tok, p, end)
  {
    hide At, Hex4;
    AtSize(c, o, tok);
    if end - p >= 6 {
      Hex4Moved(c, o, tok, p + 2);
      if end - p >= 12 {
        AtIndex(c, o, tok, p + 6);
        AtIndex(c, o, tok, p + 7);
        Hex4Moved(c, o, tok, p + 8);
      }
      assert o + p + 2 == o + (p + 2) && o + p + 6 == o + (p + 6) && o + p + 7 == o + (p + 7);
      assert o + p + 8 == o + (p + 8) && (o + end) - (o + p) == end - p;
    }
  }

  lemma Hex4Moved(c: seq<Byte>, o: nat, tok: seq<Byte>, p: nat)
    requires At(c, o, tok) && p + 4 <= |tok|
    ensures Hex4(c, o + p) == Hex4(tok, p)
  {
    assert forall i :: 0 <= i < |tok| ==> c[o + i] == tok[i];
    assert c[o + p] == tok[p] && c[o + (p + 1)] == tok[p + 1] && c[o + (p + 2)] == tok[p + 2];
    assert c[o + (p + 3)] == tok[p + 3];
    hide HexValue;
  }

  lemma {:induction false} UnescapeMoved(c: seq<Byte>, o: nat, tok: seq<Byte>, p: nat, end: nat)
    requires At(c, o, tok) && end < |tok|
    ensures Unescape(c, o + p, o + end) == Unescape(tok, p, end)
    decreases end - p
  {
    hide At, Utf16;
    AtSize(c, o, tok);
    if p < end {
      RoundMoved(c, o, tok, p, end);
      hide Round;
      var r := Round(tok, p, end);
      if r.Some? {
        UnescapeMoved(c, o, tok, p + r.value.len, end);
        assert o + (p + r.value.len) == o + p + r.value.len;
      }
    }
  }

  lemma RoundMoved(c: seq<Byte>, o: nat, tok: seq<Byte>, p: nat, end: nat)
    requires At(c, o, tok) && p < end < |tok|
    ensures o + |tok| <= |c| && Round(c, o + p, o + end) == Round(tok, p, end)
  {
    hide At, Utf16;
    AtSize(c, o, tok);
    AtIndex(c, o, tok, p);
    AtIndex(c, o, tok, p + 1);
    Utf16Moved(c, o, tok, p, end);
    assert o + p + 1 == o + (p + 1);
  }

  lemma LiteralParsed(c: seq<Byte>, o: nat, tok: seq<Byte>, s: seq<Byte>)
    requires At(c, o, tok) && Literal(tok, s)
    ensures o < |c| && c[o] == QUOTE && ParseString(c, o) == Done(Parsed(s, o + |tok|))
  {
    hide At, Measure, Unescape;
    AtSize(c, o, tok);
    AtIndex(c, o, tok, 0);
    MeasureMoved(c, o, tok, 1);
    UnescapeMoved(c, o, tok, 1, |tok| - 1);
  }

  // Conversely, what parse_string has read is a string of its own.
  lemma ParsedLiteral(c: seq<Byte>, o: nat)
    requires o <= |c| && ParseString(c, o).Done?
    ensures var r := ParseString(c, o).value; Literal(c[o..r.next], r.s)
  {
    var r := ParseString(c, o).value;
    var tok := c[o..r.next];
    MeasureBack(c, o, tok, 1);
    UnescapeMoved(c, o, tok, 1, |tok| - 1);
    hide Measure, Unescape;
    assert tok[0] == c[o];
  }

  lemma {:induction false} MeasureBack(c: seq<Byte>, o: nat, tok: seq<Byte>, q: nat)
    requires Measure(c, o + q).Some? && o + |tok| == Measure(c, o + q).value.end + 1 <= |c| && tok == c[o..o + |tok|]
    ensures Measure(tok, q) == Some(Extent(|tok| - 1, Measure(c, o + q).value.skipped))
    decreases |tok| - q
  {
    assert tok[q] == c[o + q];
    if tok[q] != QUOTE { MeasureBack(c, o, tok, if tok[q] != BACKSLASH then q + 1 else q + 2); }
  }

  // ---------- Every such text is parsed ----------

  lemma DocBegins(d: Doc)
    requires Sound(d)
    ensures var t := Spell(d);
            t != [] && t[0] == match d
                               case NullDoc => 0x6E
                               case FalseDoc => 0x66
                               case TrueDoc => 0x74
                               case StrDoc(_, _) => QUOTE
                               case ArrDoc(_, _) => 0x5B
                               case ObjDoc(_, _) => 0x7B
  {
  }

  function ItemsEnd(x: ItemDocs): seq<Byte>
    requires x.AnItem?
  { if x.next.NoItems? then [0x5D] else [0x2C] + x.before + SpellItems(x.next) }

  function MembersEnd(x: MemberDocs): seq<Byte>
    requires x.AMember?
  { if x.next.NoMembers? then [0x7D] else [0x2C] + x.before + SpellMembers(x.next) }

  lemma AtJoin(c: seq<Byte>, p: nat, t: seq<Byte>, u: seq<Byte>)
    requires At(c, p, t) && At(c, p + |t|, u)
    ensures At(c, p, t + u)
  {
    forall i | 0 <= i < |t + u| ensures c[p + i] == (t + u)[i] {
      if i >= |t| { assert c[p + |t| + (i - |t|)] == u[i - |t|]; }
    }
  }

  // White space and what stands behind it.
  lemma Blanks(c: seq<Byte>, o: nat, w: seq<Byte>, rest: seq<Byte>) returns (p: nat)
    requires At(c, o, w + rest) && IsBlank(w) && rest != [] && rest[0] > 32
    ensures p == o + |w| && BlankTo(c, o, p) && c[p] == rest[0] && At(c, p, rest)
  {
    p := o + |w|;
    CutBlank(c, o, w, rest, p);
  }

  // Where the parts of an element stand: the value at p, what follows it at q, and a comma or
  // the bracket at e.
  lemma ItemParts(c: seq<Byte>, p: nat, x: ItemDocs) returns (q: nat, e: nat)
    requires x.AnItem? && SoundItems(x) && At(c, p, SpellItems(x))
    ensures At(c, p, Spell(x.value)) && q == p + |Spell(x.value)| && BlankTo(c, q, e) && At(c, e, ItemsEnd(x))
    ensures c[e] == (if x.next.NoItems? then 0x5D else 0x2C) && p + |SpellItems(x)| == e + |ItemsEnd(x)|
  {
    q := p + |Spell(x.value)|;
    AtParts(c, p, Spell(x.value), x.after + ItemsEnd(x));
    hide Spell, SpellItems, Sound;
    e := Blanks(c, q, x.after, ItemsEnd(x));
  }

  lemma ItemsBegin(x: ItemDocs)
    requires x.AnItem? && SoundItems(x)
    ensures var t := SpellItems(x); t != [] && t[0] > 32 && t[0] != 0x5D
  {
    DocBegins(x.value);
    hide Spell, Sound;
  }

  lemma CommaParts(c: seq<Byte>, e: nat, x: ItemDocs) returns (p: nat)
    requires x.AnItem? && x.next.AnItem? && SoundItems(x) && At(c, e, ItemsEnd(x))
    ensures BlankTo(c, e + 1, p) && At(c, p, SpellItems(x.next)) && e + |ItemsEnd(x)| == p + |SpellItems(x.next)|
  {
    p := e + 1 + |x.before|;
    ItemsBegin(x.next);
    hide Spell, SpellItems, Sound;
    Cut(c, e, 0x2C, x.before, SpellItems(x.next), p);
  }

  lemma {:induction false} ValueAccepted(c: seq<Byte>, o: nat, d: Doc, depth: nat)
    requires At(c, o, Spell(d)) && Sound(d) && depth + Nesting(Mean(d)) <= NESTING_LIMIT
    ensures ParseValue(c, o, depth) == Done(Read(Mean(d), o + |Spell(d)|))
    decreases d, 1
  {
    hide ParseString, ParseArray, ParseObject;
    DocBegins(d);
    AtIndex(c, o, Spell(d), 0);
    match d
    case NullDoc => WordAt(c, o, NullText());
    case FalseDoc =>
      WordAt(c, o, FalseText());
      assert NullText()[0] == 0x6E;
    case TrueDoc =>
      WordAt(c, o, TrueText());
      assert NullText()[0] == 0x6E && FalseText()[0] == 0x66;
    case StrDoc(tok, s) =>
      LiteralParsed(c, o, tok, s);
      NotWord(c, o);
    case ArrDoc(b, x) =>
      NotWord(c, o);
      ArrayAccepted(c, o, b, x, depth);
    case ObjDoc(b, x) =>
      NotWord(c, o);
      ObjectAccepted(c, o, b, x, depth);
  }

  lemma ArrayParts(c: seq<Byte>, o: nat, b: seq<Byte>, x: ItemDocs) returns (p: nat)
    requires At(c, o, Spell(ArrDoc(b, x))) && IsBlank(b) && SoundItems(x)
    ensures o < |c| && BlankTo(c, o + 1, p) && (c[p] == 0x5D <==> x.NoItems?)
    ensures x.AnItem? ==> At(c, p, SpellItems(x))
    ensures o + |Spell(ArrDoc(b, x))| == if x.NoItems? then p + 1 else p + |SpellItems(x)|
  {
    p := o + 1 + |b|;
    if x.AnItem? { ItemsBegin(x); }
    hide Sound, SpellItems;
    Cut(c, o, 0x5B, b, if x.NoItems? then [0x5D] else SpellItems(x), p);
  }

  lemma ArrayEnds(c: seq<Byte>, o: nat, p: nat, depth: nat)
    requires o < |c| && BlankTo(c, o + 1, p) && c[p] == 0x5D && depth < NESTING_LIMIT
    ensures ParseArray(c, o, depth) == Done(Read(Arr(Nil), p + 1))
  {
    SkipTo(c, o + 1, p);
  }

  lemma {:induction false} ArrayAccepted(c: seq<Byte>, o: nat, b: seq<Byte>, x: ItemDocs, depth: nat)
    requires At(c, o, Spell(ArrDoc(b, x))) && IsBlank(b) && SoundItems(x)
    requires depth + 1 + NestingItems(MeanItems(x)) <= NESTING_LIMIT
    ensures o < |c| && ParseArray(c, o, depth) == Done(Read(Arr(MeanItems(x)), o + |Spell(ArrDoc(b, x))|))
    decreases x, 2
  {
    hide ParseArray, ParseItems, Spell, SpellItems, SoundItems, NestingItems, At, IsBlank;
    var p := ArrayParts(c, o, b, x);
    if x.NoItems? {
      ArrayEnds(c, o, p, depth);
    } else {
      ArrayStep(c, o, p, depth);
      ItemsAccepted(c, p, p, x, depth + 1);
    }
  }

  lemma ItemRead(c: seq<Byte>, o: nat, p: nat, depth: nat, v: Json, q: nat, e: nat)
    requires BlankTo(c, o, p) && ParseValue(c, p, depth) == Done(Read(v, q)) && BlankTo(c, q, e)
    ensures c[e] == 0x5D ==> ParseItems(c, o, depth) == Done(Read(Item(v, Nil), e + 1))
    ensures c[e] == 0x2C ==>
              var r := ParseItems(c, e + 1, depth);
              ParseItems(c, o, depth) == if r.Failed? then Failed(r.overread)
                else Done(Read(Item(v, r.value.value), r.value.next))
  {
    hide ParseValue;
    SkipTo(c, o, p);
    SkipTo(c, q, e);
  }

  // Elements from p on, with white space between o and p.
  lemma {:induction false} ItemsAccepted(c: seq<Byte>, o: nat, p: nat, x: ItemDocs, depth: nat)
    requires x.AnItem? && BlankTo(c, o, p) && At(c, p, SpellItems(x)) && SoundItems(x)
    requires depth + NestingItems(MeanItems(x)) <= NESTING_LIMIT
    ensures ParseItems(c, o, depth) == Done(Read(MeanItems(x), p + |SpellItems(x)|))
    decreases x, 0
  {
    hide Spell, SpellItems, ParseValue, ParseItems, ItemsEnd, Sound;
    var q, e := ItemParts(c, p, x);
    ValueAccepted(c, p, x.value, depth);
    ItemRead(c, o, p, depth, Mean(x.value), q, e);
    if x.next.AnItem? {
      var next := CommaParts(c, e, x);
      ItemsAccepted(c, e + 1, next, x.next, depth);
    } else {
      LastBracket(x);
    }
  }

  lemma LastBracket(x: ItemDocs)
    requires x.AnItem? && x.next.NoItems?
    ensures ItemsEnd(x) == [0x5D]
  {
  }

  function ValueEnd(x: MemberDocs): seq<Byte>
    requires x.AMember?
  { Spell(x.value) + (x.after + MembersEnd(x)) }

  lemma LiteralBegins(tok: seq<Byte>, s: seq<Byte>)
    requires Literal(tok, s)
    ensures tok[0] == QUOTE
  {
  }

  // Where the parts of a member stand: the name at p, what follows it at a, the colon at b, the
  // value at v, what follows it at q, and a comma or the brace at e.
  lemma MemberParts(c: seq<Byte>, p: nat, x: MemberDocs) returns (a: nat, b: nat, v: nat, q: nat, e: nat)
    requires x.AMember? && SoundMembers(x) && At(c, p, SpellMembers(x))
    ensures At(c, p, x.tok) && a == p + |x.tok| && BlankTo(c, a, b) && c[b] == 0x3A && BlankTo(c, b + 1, v)
    ensures At(c, v, Spell(x.value)) && q == v + |Spell(x.value)| && BlankTo(c, q, e) && At(c, e, MembersEnd(x))
    ensures c[e] == (if x.next.NoMembers? then 0x7D else 0x2C) && p + |SpellMembers(x)| == e + |MembersEnd(x)|
  {
    hide Spell, SpellMembers, Sound, Literal, SoundMembers, ValueEnd, MembersEnd;
    a, v := p + |x.tok|, p + |x.tok| + |x.colonBefore| + 1 + |x.colonAfter|;
    MemberJoins(x);
    var rest := ValueEnd(x);
    AtParts(c, p, x.tok, x.colonBefore + ([0x3A] + x.colonAfter + rest));
    b := Blanks(c, a, x.colonBefore, [0x3A] + x.colonAfter + rest);
    q, e := ColonParts(c, b, x, v);
  }

  lemma ColonParts(c: seq<Byte>, b: nat, x: MemberDocs, v: nat) returns (q: nat, e: nat)
    requires x.AMember? && SoundMembers(x) && At(c, b, [0x3A] + x.colonAfter + ValueEnd(x))
    requires v == b + 1 + |x.colonAfter|
    ensures BlankTo(c, b + 1, v) && At(c, v, Spell(x.value)) && q == v + |Spell(x.value)|
    ensures BlankTo(c, q, e) && At(c, e, MembersEnd(x)) && v + |ValueEnd(x)| == e + |MembersEnd(x)|
    ensures c[e] == (if x.next.NoMembers? then 0x7D else 0x2C)
  {
    hide Spell, SpellMembers, Sound, Literal, SoundMembers, ValueEnd, MembersEnd;
    MemberJoins(x);
    Cut(c, b, 0x3A, x.colonAfter, ValueEnd(x), v);
    q, e := ValueParts(c, v, x);
  }

  lemma MemberJoins(x: MemberDocs)
    requires x.AMember? && SoundMembers(x)
    ensures SpellMembers(x) == x.tok + (x.colonBefore + ([0x3A] + x.colonAfter + ValueEnd(x)))
    ensures ValueEnd(x) != [] && ValueEnd(x)[0] > 32
    ensures IsBlank(x.colonBefore) && IsBlank(x.colonAfter)
  {
    DocBegins(x.value);
  }

  lemma ValueParts(c: seq<Byte>, v: nat, x: MemberDocs) returns (q: nat, e: nat)
    requires x.AMember? && SoundMembers(x) && At(c, v, ValueEnd(x))
    ensures At(c, v, Spell(x.value)) && q == v + |Spell(x.value)| && BlankTo(c, q, e) && At(c, e, MembersEnd(x))
    ensures c[e] == (if x.next.NoMembers? then 0x7D else 0x2C) && v + |ValueEnd(x)| == e + |MembersEnd(x)|
  {
    q := v + |Spell(x.value)|;
    AtParts(c, v, Spell(x.value), x.after + MembersEnd(x));
    hide Spell, SpellMembers, Sound, Literal;
    e := Blanks(c, q, x.after, MembersEnd(x));
  }

  lemma MembersBegin(x: MemberDocs)
    requires x.AMember? && SoundMembers(x)
    ensures var t := SpellMembers(x); t != [] && t[0] == QUOTE
  {
    LiteralBegins(x.tok, x.key);
    hide Spell, Sound, Literal;
  }

  lemma MoreParts(c: seq<Byte>, e: nat, x: MemberDocs) returns (p: nat)
    requires x.AMember? && x.next.AMember? && SoundMembers(x) && At(c, e, MembersEnd(x))
    ensures BlankTo(c, e + 1, p) && At(c, p, SpellMembers(x.next)) && e + |MembersEnd(x)| == p + |SpellMembers(x.next)|
  {
    p := e + 1 + |x.before|;
    MembersBegin(x.next);
    hide Spell, SpellMembers, Sound, Literal;
    Cut(c, e, 0x2C, x.before, SpellMembers(x.next), p);
  }

  lemma ObjectParts(c: seq<Byte>, o: nat, b: seq<Byte>, x: MemberDocs) returns (p: nat)
    requires At(c, o, Spell(ObjDoc(b, x))) && IsBlank(b) && SoundMembers(x)
    ensures o < |c| && BlankTo(c, o + 1, p) && (c[p] == 0x7D <==> x.NoMembers?)
    ensures x.AMember? ==> At(c, p, SpellMembers(x))
    ensures o + |Spell(ObjDoc(b, x))| == if x.NoMembers? then p + 1 else p + |SpellMembers(x)|
  {
    p := o + 1 + |b|;
    if x.AMember? { MembersBegin(x); }
    hide Sound, SpellMembers, Literal;
    Cut(c, o, 0x7B, b, if x.NoMembers? then [0x7D] else SpellMembers(x), p);
  }

  lemma {:induction false} ObjectAccepted(c: seq<Byte>, o: nat, b: seq<Byte>, x: MemberDocs, depth: nat)
    requires At(c, o, Spell(ObjDoc(b, x))) && IsBlank(b) && SoundMembers(x)
    requires depth + 1 + NestingMembers(MeanMembers(x)) <= NESTING_LIMIT
    ensures o < |c| && ParseObject(c, o, depth) == Done(Read(Obj(MeanMembers(x)), o + |Spell(ObjDoc(b, x))|))
    decreases x, 2
  {
    hide ParseObject, ParseMembers, Spell, SpellMembers, SoundMembers, NestingMembers, At, IsBlank;
    var p := ObjectParts(c, o, b, x);
    if x.NoMembers? {
      ObjectEmpty(c, o, p, depth);
    } else {
      ObjectStep(c, o, p, depth);
      MembersAccepted(c, p, p, x, depth + 1);
    }
  }

  lemma MemberRead(c: seq<Byte>, o: nat, p: nat, depth: nat, k: seq<Byte>, a: nat, b: nat, v: nat)
    requires BlankTo(c, o, p) && ParseString(c, p) == Done(Parsed(k, a)) && BlankTo(c, a, b) && c[b] == 0x3A
    requires BlankTo(c, b + 1, v)
    ensures var r := ParseValue(c, v, depth);
            ParseMember(c, o, depth) == if r.Failed? then Failed(r.overread)
              else Done(Read(Entry(k, r.value.value), Skip(c, r.value.next)))
  {
    hide ParseValue, ParseString;
    SkipTo(c, o, p);
    SkipTo(c, a, b);
    SkipTo(c, b + 1, v);
  }

  lemma MembersRead(c: seq<Byte>, o: nat, depth: nat, k: seq<Byte>, v: Json, e: nat)
    requires o <= |c| && ParseMember(c, o, depth) == Done(Read(Entry(k, v), e)) && e < |c|
    ensures c[e] == 0x7D ==> ParseMembers(c, o, depth) == Done(Read(Member(k, v, End), e + 1))
    ensures c[e] == 0x2C ==>
              var r := ParseMembers(c, e + 1, depth);
              ParseMembers(c, o, depth) == if r.Failed? then Failed(r.overread)
                else Done(Read(Member(k, v, r.value.value), r.value.next))
  {
    hide ParseMember;
  }

  // Members from p on, with white space between o and p.
  lemma {:induction false} MembersAccepted(c: seq<Byte>, o: nat, p: nat, x: MemberDocs, depth: nat)
    requires x.AMember? && BlankTo(c, o, p) && At(c, p, SpellMembers(x)) && SoundMembers(x)
    requires depth + NestingMembers(MeanMembers(x)) <= NESTING_LIMIT
    ensures ParseMembers(c, o, depth) == Done(Read(MeanMembers(x), p + |SpellMembers(x)|))
    decreases x, 0
  {
    hide Spell, SpellMembers, ParseValue, ParseMember, ParseMembers, MembersEnd, Sound, Literal, ParseString;
    var a, b, v, q, e := MemberParts(c, p, x);
    LiteralParsed(c, p, x.tok, x.key);
    ValueAccepted(c, v, x.value, depth);
    MemberRead(c, o, p, depth, x.key, a, b, v);
    SkipTo(c, q, e);
    MembersRead(c, o, depth, x.key, Mean(x.value), e);
    if x.next.AMember? {
      var next := MoreParts(c, e, x);
      MembersAccepted(c, e + 1, next, x.next, depth);
    } else {
      LastBrace(x);
    }
  }

  lemma LastBrace(x: MemberDocs)
    requires x.AMember? && x.next.NoMembers?
    ensures MembersEnd(x) == [0x7D]
  {
  }

  // ---------- What is parsed is such a text ----------

  lemma {:induction false} NotBlankSkips(c: seq<Byte>, o: nat)
    requires o <= |c|
    ensures forall i :: o <= i < NotBlank(c, o) ==> c[i] <= 32
    ensures NotBlank(c, o) < |c| ==> c[NotBlank(c, o)] > 32
    decreases |c| - o
  {
    if o < |c| && c[o] <= 32 { NotBlankSkips(c, o + 1); }
  }

  lemma Skipped(c: seq<Byte>, o: nat)
    requires o <= |c|
    ensures IsBlank(c[o..Skip(c, o)]) && At(c, o, c[o..Skip(c, o)])
  {
    NotBlankSkips(c, o);
  }

  lemma Slice(c: seq<Byte>, o: nat, p: nat)
    requires o <= p <= |c|
    ensures At(c, o, c[o..p])
  {
  }

  lemma {:induction false} ValueSpelled(c: seq<Byte>, o: nat, depth: nat) returns (d: Doc)
    requires o <= |c| && depth <= NESTING_LIMIT && ParseValue(c, o, depth).Done?
    ensures var r := ParseValue(c, o, depth).value;
            && At(c, o, Spell(d)) && Sound(d) && Mean(d) == r.value && r.next == o + |Spell(d)|
            && depth + Nesting(Mean(d)) <= NESTING_LIMIT
    decreases |c| - o, 1
  {
    hide ParseArray, ParseObject, ParseString;
    if IsAt(c, o, NullText()) {
      d := NullDoc;
    } else if IsAt(c, o, FalseText()) {
      d := FalseDoc;
    } else if IsAt(c, o, TrueText()) {
      d := TrueDoc;
    } else if c[o] == QUOTE {
      var r := ParseString(c, o).value;
      ParsedLiteral(c, o);
      Slice(c, o, r.next);
      d := StrDoc(c[o..r.next], r.s);
    } else if c[o] == 0x5B {
      d := ArraySpelled(c, o, depth);
    } else {
      d := ObjectSpelled(c, o, depth);
    }
  }

  lemma ByteAt(c: seq<Byte>, o: nat, b: Byte)
    requires o < |c| && c[o] == b
    ensures At(c, o, [b])
  {
  }

  lemma {:induction false} ArraySpelled(c: seq<Byte>, o: nat, depth: nat) returns (d: Doc)
    requires o < |c| && c[o] == 0x5B && depth <= NESTING_LIMIT && ParseArray(c, o, depth).Done?
    ensures var r := ParseArray(c, o, depth).value;
            && At(c, o, Spell(d)) && Sound(d) && Mean(d) == r.value && r.next == o + |Spell(d)|
            && depth + Nesting(Mean(d)) <= NESTING_LIMIT
    decreases |c| - o, 0
  {
    hide ParseArray, ParseItems, At, IsBlank, Skip, SpellItems;
    var p := ArrayDone(c, o, depth);
    var b := c[o + 1..p];
    Opening(c, o, p);
    if c[p] == 0x5D {
      ByteAt(c, p, 0x5D);
      AtJoin(c, o, [c[o]] + b, [0x5D]);
      d := ArrDoc(b, NoItems);
    } else {
      var b', x, q := ItemsSpelled(c, p, depth + 1);
      AtJoin(c, o, [c[o]] + b, b');
      Assoc([c[o]], b, b');
      BlankJoin(b, b');
      AtJoin(c, o, [c[o]] + (b + b'), SpellItems(x));
      d := ArrDoc(b + b', x);
    }
  }

  lemma ArrayDone(c: seq<Byte>, o: nat, depth: nat) returns (p: nat)
    requires o < |c| && ParseArray(c, o, depth).Done?
    ensures p == Skip(c, o + 1) && o < p < |c| && depth < NESTING_LIMIT
    ensures var r := ParseArray(c, o, depth).value;
            if c[p] == 0x5D then r == Read(Arr(Nil), p + 1)
            else ParseItems(c, p, depth + 1).Done?
                 && var x := ParseItems(c, p, depth + 1).value; r == Read(Arr(x.value), x.next)
  {
    hide ParseItems, Skip;
    p := Skip(c, o + 1);
  }

  // A bracket or brace and the white space behind it.
  lemma Opening(c: seq<Byte>, o: nat, p: nat)
    requires o < |c| && p == Skip(c, o + 1)
    ensures IsBlank(c[o + 1..p]) && At(c, o, [c[o]] + c[o + 1..p]) && o + |[c[o]] + c[o + 1..p]| == p
  {
    Skipped(c, o + 1);
    ByteAt(c, o, c[o]);
    AtJoin(c, o, [c[o]], c[o + 1..p]);
  }

  lemma Assoc<T>(x: seq<T>, y: seq<T>, z: seq<T>)
    ensures x + y + z == x + (y + z)
  {
  }

  lemma BlankJoin(b: seq<Byte>, b': seq<Byte>)
    requires IsBlank(b) && IsBlank(b')
    ensures IsBlank(b + b')
  {
  }

  // Elements from p on, behind white space at o.
  lemma {:induction false} ItemsSpelled(c: seq<Byte>, o: nat, depth: nat)
    returns (b: seq<Byte>, x: ItemDocs, p: nat)
    requires o <= |c| && depth <= NESTING_LIMIT && ParseItems(c, o, depth).Done?
    ensures x.AnItem? && IsBlank(b) && At(c, o, b) && p == o + |b| && At(c, p, SpellItems(x)) && SoundItems(x)
    ensures var r := ParseItems(c, o, depth).value;
            && MeanItems(x) == r.value && r.next == p + |SpellItems(x)|
            && depth + NestingItems(MeanItems(x)) <= NESTING_LIMIT
    decreases |c| - o, 2
  {
    hide ParseItems, ParseValue, At, IsBlank, Skip, Spell, SpellItems, Sound;
    var e;
    p, e := ItemsDone(c, o, depth);
    b := c[o..p];
    Skipped(c, o);
    var r := ParseValue(c, p, depth).value;
    var d := ValueSpelled(c, p, depth);
    var after := c[r.next..e];
    Skipped(c, r.next);
    x := AnItem(d, after, [], NoItems);
    ByteAt(c, e, c[e]);
    NoBlank();
    if c[e] == 0x2C {
      var before, next, q := ItemsSpelled(c, e + 1, depth);
      AtJoin(c, e, [0x2C], before);
      AtJoin(c, e, [0x2C] + before, SpellItems(next));
      x := AnItem(d, after, before, next);
    }
    AtJoin(c, r.next, after, ItemsEnd(x));
    AtJoin(c, p, Spell(d), after + ItemsEnd(x));
    ItemsJoined(x);
  }

  lemma NoBlank()
    ensures IsBlank([])
  {
  }

  lemma ItemsJoined(x: ItemDocs)
    requires x.AnItem?
    ensures SpellItems(x) == Spell(x.value) + (x.after + ItemsEnd(x))
  {
  }

  lemma ItemsDone(c: seq<Byte>, o: nat, depth: nat) returns (p: nat, e: nat)
    requires o <= |c| && ParseItems(c, o, depth).Done?
    ensures p == Skip(c, o) && ParseValue(c, p, depth).Done?
    ensures var v := ParseValue(c, p, depth).value; var r := ParseItems(c, o, depth).value;
            && e == Skip(c, v.next) && v.next <= e < |c| && (c[e] == 0x2C || c[e] == 0x5D)
            && (c[e] == 0x5D ==> r == Read(Item(v.value, Nil), e + 1))
            && (c[e] == 0x2C ==>
                  && ParseItems(c, e + 1, depth).Done?
                  && var x := ParseItems(c, e + 1, depth).value; r == Read(Item(v.value, x.value), x.next))
  {
    hide ParseValue, Skip;
    p := Skip(c, o);
    e := Skip(c, ParseValue(c, p, depth).value.next);
  }

  lemma {:induction false} ObjectSpelled(c: seq<Byte>, o: nat, depth: nat) returns (d: Doc)
    requires o < |c| && c[o] == 0x7B && depth <= NESTING_LIMIT && ParseObject(c, o, depth).Done?
    ensures var r := ParseObject(c, o, depth).value;
            && At(c, o, Spell(d)) && Sound(d) && Mean(d) == r.value && r.next == o + |Spell(d)|
            && depth + Nesting(Mean(d)) <= NESTING_LIMIT
    decreases |c| - o, 0
  {
    hide ParseObject, ParseMembers, At, IsBlank, Skip, SpellMembers;
    var p := ObjectDone(c, o, depth);
    var b := c[o + 1..p];
    Opening(c, o, p);
    if c[p] == 0x7D {
      ByteAt(c, p, 0x7D);
      AtJoin(c, o, [c[o]] + b, [0x7D]);
      d := ObjDoc(b, NoMembers);
    } else {
      var b', x, q := MembersSpelled(c, p, depth + 1);
      AtJoin(c, o, [c[o]] + b, b');
      Assoc([c[o]], b, b');
      BlankJoin(b, b');
      AtJoin(c, o, [c[o]] + (b + b'), SpellMembers(x));
      d := ObjDoc(b + b', x);
    }
  }

  lemma ObjectDone(c: seq<Byte>, o: nat, depth: nat) returns (p: nat)
    requires o < |c| && ParseObject(c, o, depth).Done?
    ensures p == Skip(c, o + 1) && o < p < |c| && depth < NESTING_LIMIT
    ensures var r := ParseObject(c, o, depth).value;
            if c[p] == 0x7D then r == Read(Obj(End), p + 1)
            else ParseMembers(c, p, depth + 1).Done?
                 && var x := ParseMembers(c, p, depth + 1).value; r == Read(Obj(x.value), x.next)
  {
    hide ParseMembers, Skip;
    p := Skip(c, o + 1);
  }

  // Members from p on, behind white space at o.
  lemma {:induction false} MembersSpelled(c: seq<Byte>, o: nat, depth: nat)
    returns (b: seq<Byte>, x: MemberDocs, p: nat)
    requires o <= |c| && depth <= NESTING_LIMIT && ParseMembers(c, o, depth).Done?
    ensures x.AMember? && IsBlank(b) && At(c, o, b) && p == o + |b| && At(c, p, SpellMembers(x)) && SoundMembers(x)
    ensures var r := ParseMembers(c, o, depth).value;
            && MeanMembers(x) == r.value && r.next == p + |SpellMembers(x)|
            && depth + NestingMembers(MeanMembers(x)) <= NESTING_LIMIT
    decreases |c| - o, 2
  {
    hide ParseMembers, ParseMember, ParseValue, ParseString, Literal, At, IsBlank, Skip, Spell, SpellMembers;
    var m, e := MembersDone(c, o, depth);
    var a, v;
    p, a, v := MemberDone(c, o, depth);
    b := c[o..p];
    Skipped(c, o);
    var k, r := ParseString(c, p).value, ParseValue(c, v, depth).value;
    ParsedLiteral(c, p);
    Slice(c, p, k.next);
    Skipped(c, k.next);
    Skipped(c, a + 1);
    var d := ValueSpelled(c, v, depth);
    Skipped(c, r.next);
    NoBlank();
    x := AMember(c[p..k.next], k.s, c[k.next..a], c[a + 1..v], d, c[r.next..e], [], NoMembers);
    ByteAt(c, e, c[e]);
    if c[e] == 0x2C {
      var before, next, q := MembersSpelled(c, e + 1, depth);
      x := x.(before := before, next := next);
      AtJoin(c, e, [0x2C], before);
      AtJoin(c, e, [0x2C] + before, SpellMembers(next));
    }
    MemberJoined(c, p, x, k.next, a, v, r.next, e);
  }

  lemma MembersDone(c: seq<Byte>, o: nat, depth: nat) returns (m: Read<Entry>, e: nat)
    requires o <= |c| && ParseMembers(c, o, depth).Done?
    ensures ParseMember(c, o, depth) == Done(m) && e == m.next && o < e < |c| && (c[e] == 0x2C || c[e] == 0x7D)
    ensures var r := ParseMembers(c, o, depth).value; var k, v := m.value.key, m.value.value;
            && (c[e] == 0x7D ==> r == Read(Member(k, v, End), e + 1))
            && (c[e] == 0x2C ==>
                  && ParseMembers(c, e + 1, depth).Done?
                  && var x := ParseMembers(c, e + 1, depth).value; r == Read(Member(k, v, x.value), x.next))
  {
    hide ParseMember;
    m := ParseMember(c, o, depth).value;
    e := m.next;
  }

  lemma MemberDone(c: seq<Byte>, o: nat, depth: nat) returns (p: nat, a: nat, v: nat)
    requires o <= |c| && ParseMember(c, o, depth).Done?
    ensures p == Skip(c, o) && ParseString(c, p).Done?
    ensures var k := ParseString(c, p).value;
            && a == Skip(c, k.next) && k.next <= a < |c| && c[a] == 0x3A && v == Skip(c, a + 1)
            && ParseValue(c, v, depth).Done?
            && var r := ParseValue(c, v, depth).value;
               ParseMember(c, o, depth) == Done(Read(Entry(k.s, r.value), Skip(c, r.next)))
  {
    hide ParseValue, ParseString, Skip;
    p := Skip(c, o);
    a := Skip(c, ParseString(c, p).value.next);
    v := Skip(c, a + 1);
  }

  lemma MemberJoined(c: seq<Byte>, p: nat, x: MemberDocs, n: nat, a: nat, v: nat, q: nat, e: nat)
    requires x.AMember? && At(c, p, x.tok) && n == p + |x.tok| && At(c, n, x.colonBefore) && a == n + |x.colonBefore|
    requires a < |c| && c[a] == 0x3A && At(c, a + 1, x.colonAfter) && v == a + 1 + |x.colonAfter|
    requires At(c, v, Spell(x.value)) && q == v + |Spell(x.value)| && At(c, q, x.after) && e == q + |x.after|
    requires At(c, e, MembersEnd(x))
    ensures At(c, p, SpellMembers(x)) && p + |SpellMembers(x)| == e + |MembersEnd(x)|
  {
    hide At, Spell;
    ByteAt(c, a, 0x3A);
    AtJoin(c, q, x.after, MembersEnd(x));
    AtJoin(c, v, Spell(x.value), x.after + MembersEnd(x));
    AtJoin(c, a, [0x3A], x.colonAfter);
    AtJoin(c, a, [0x3A] + x.colonAfter, ValueEnd(x));
    AtJoin(c, n, x.colonBefore, [0x3A] + x.colonAfter + ValueEnd(x));
    AtJoin(c, p, x.tok, x.colonBefore + ([0x3A] + x.colonAfter + ValueEnd(x)));
    Joined(x);
  }

  lemma Joined(x: MemberDocs)
    requires x.AMember?
    ensures SpellMembers(x) == x.tok + (x.colonBefore + ([0x3A] + x.colonAfter + ValueEnd(x)))
  {
  }

  // ---------- Beyond the nesting limit ----------

  lemma {:induction false} ValueTooDeep(c: seq<Byte>, o: nat, d: Doc, depth: nat)
    requires At(c, o, Spell(d)) && Sound(d) && depth <= NESTING_LIMIT < depth + Nesting(Mean(d))
    ensures ParseValue(c, o, depth) == Failed(false)
    decreases d, 1
  {
    hide ParseString, ParseArray, ParseObject;
    DocBegins(d);
    AtIndex(c, o, Spell(d), 0);
    NotWord(c, o);
    if d.ArrDoc? {
      ArrayTooDeep(c, o, d.blank, d.items, depth);
    } else {
      ObjectTooDeep(c, o, d.blank, d.members, depth);
    }
  }

  lemma LimitReached(c: seq<Byte>, o: nat)
    requires o < |c|
    ensures ParseArray(c, o, NESTING_LIMIT) == Failed(false) && ParseObject(c, o, NESTING_LIMIT) == Failed(false)
  {
  }

  lemma {:induction false} ArrayTooDeep(c: seq<Byte>, o: nat, b: seq<Byte>, x: ItemDocs, depth: nat)
    requires At(c, o, Spell(ArrDoc(b, x))) && IsBlank(b) && SoundItems(x)
    requires depth <= NESTING_LIMIT < depth + 1 + NestingItems(MeanItems(x))
    ensures o < |c| && ParseArray(c, o, depth) == Failed(false)
    decreases x, 2
  {
    hide ParseArray, ParseItems, Spell, SpellItems, SoundItems, At, IsBlank;
    var p := ArrayParts(c, o, b, x);
    if depth == NESTING_LIMIT {
      LimitReached(c, o);
    } else {
      ArrayStep(c, o, p, depth);
      ItemsTooDeep(c, p, p, x, depth + 1);
    }
  }

  lemma {:induction false} ItemsTooDeep(c: seq<Byte>, o: nat, p: nat, x: ItemDocs, depth: nat)
    requires x.AnItem? && BlankTo(c, o, p) && At(c, p, SpellItems(x)) && SoundItems(x)
    requires depth <= NESTING_LIMIT < depth + NestingItems(MeanItems(x))
    ensures ParseItems(c, o, depth) == Failed(false)
    decreases x, 0
  {
    hide Spell, SpellItems, ParseValue, ParseItems, ItemsEnd, Sound;
    var q, e := ItemParts(c, p, x);
    if depth + Nesting(Mean(x.value)) > NESTING_LIMIT {
      ValueTooDeep(c, p, x.value, depth);
      ItemsFail(c, o, p, depth);
    } else {
      ValueAccepted(c, p, x.value, depth);
      var next := CommaParts(c, e, x);
      ItemRead(c, o, p, depth, Mean(x.value), q, e);
      ItemsTooDeep(c, e + 1, next, x.next, depth);
    }
  }

  lemma ItemsFail(c: seq<Byte>, o: nat, p: nat, depth: nat)
    requires BlankTo(c, o, p) && ParseValue(c, p, depth) == Failed(false)
    ensures ParseItems(c, o, depth) == Failed(false)
  {
    hide ParseValue;
    SkipTo(c, o, p);
  }

  lemma {:induction false} ObjectTooDeep(c: seq<Byte>, o: nat, b: seq<Byte>, x: MemberDocs, depth: nat)
    requires At(c, o, Spell(ObjDoc(b, x))) && IsBlank(b) && SoundMembers(x)
    requires depth <= NESTING_LIMIT < depth + 1 + NestingMembers(MeanMembers(x))
    ensures o < |c| && ParseObject(c, o, depth) == Failed(false)
    decreases x, 2
  {
    hide ParseObject, ParseMembers, Spell, SpellMembers, SoundMembers, At, IsBlank;
    var p := ObjectParts(c, o, b, x);
    if depth == NESTING_LIMIT {
      LimitReached(c, o);
    } else {
      ObjectStep(c, o, p, depth);
      MembersTooDeep(c, p, p, x, depth + 1);
    }
  }

  lemma {:induction false} MembersTooDeep(c: seq<Byte>, o: nat, p: nat, x: MemberDocs, depth: nat)
    requires x.AMember? && BlankTo(c, o, p) && At(c, p, SpellMembers(x)) && SoundMembers(x)
    requires depth <= NESTING_LIMIT < depth + NestingMembers(MeanMembers(x))
    ensures ParseMembers(c, o, depth) == Failed(false)
    decreases x, 0
  {
    hide Spell, SpellMembers, ParseValue, ParseMember, ParseMembers, MembersEnd, Sound, Literal, ParseString;
    hide At, IsBlank, NotBlank, Mean, Nesting;
    var a, b, v, q, e := MemberParts(c, p, x);
    LiteralParsed(c, p, x.tok, x.key);
    MemberRead(c, o, p, depth, x.key, a, b, v);
    if depth + Nesting(Mean(x.value)) > NESTING_LIMIT {
      ValueTooDeep(c, v, x.value, depth);
      MembersFail(c, o, depth);
    } else {
      ValueAccepted(c, v, x.value, depth);
      SkipTo(c, q, e);
      MembersRead(c, o, depth, x.key, Mean(x.value), e);
      var next := MoreParts(c, e, x);
      MembersTooDeep(c, e + 1, next, x.next, depth);
    }
  }

  lemma MembersFail(c: seq<Byte>, o: nat, depth: nat)
    requires o <= |c| && ParseMember(c, o, depth) == Failed(false)
    ensures ParseMembers(c, o, depth) == Failed(false)
  {
    hide ParseMember;
  }

  // ---------- Whole texts ----------

  // The byte order mark.
  const BOM: seq<Byte> := [0xEF, 0xBB, 0xBF]

  // What may stand behind the value: anything, or white space that ends with a NUL.
  predicate TailOk(z: seq<Byte>, terminated: bool) {
    terminated ==> z != [] && IsBlank(z) && z[|z| - 1] == 0
  }

  // A whole text: perhaps a byte order mark, white space, a value, and the rest.
  datatype Whole = Whole(bom: bool, blank: seq<Byte>, doc: Doc, rest: seq<Byte>)

  function SpellWhole(x: Whole): seq<Byte> {
    (if x.bom then BOM else []) + x.blank + Spell(x.doc) + x.rest
  }

  predicate WholeOk(x: Whole, terminated: bool) {
    IsBlank(x.blank) && Sound(x.doc) && Nesting(Mean(x.doc)) <= NESTING_LIMIT && TailOk(x.rest, terminated)
  }

  lemma DocLength(d: Doc)
    requires Sound(d)
    ensures |Spell(d)| >= 2
  {
    match d
    case ArrDoc(b, x) => if x.AnItem? { ItemsBegin(x); }
    case ObjDoc(b, x) => if x.AMember? { MembersBegin(x); }
    case _ =>
  }

  lemma WholeBegins(x: Whole)
    requires IsBlank(x.blank) && Sound(x.doc)
    ensures var c := SpellWhole(x); var s := if x.bom then 3 else 0; var p := s + |x.blank|;
            c != [] && SkipBom(c) == s && BlankTo(c, s, p) && At(c, p, Spell(x.doc)) && p + |Spell(x.doc)| <= |c|
            && c[p + |Spell(x.doc)|..] == x.rest
  {
    hide Spell, Sound, Mean;
    var c, t := SpellWhole(x), Spell(x.doc);
    var s := if x.bom then 3 else 0;
    var p := s + |x.blank|;
    DocBegins(x.doc);
    DocLength(x.doc);
    assert c[p] == t[0] && c[p..p + |t|] == t;
    assert forall i :: s <= i < p ==> c[i] == x.blank[i - s];
    assert !x.bom ==> c[0] == if x.blank == [] then t[0] else x.blank[0];
  }

  lemma {:induction false} TailSkipped(c: seq<Byte>, q: nat)
    requires q <= |c|
    ensures Skip(c, q) < |c| && c[Skip(c, q)] == 0 <==> TailOk(c[q..], true)
  {
    NotBlankSkips(c, q);
    if q < |c| {
      var z := c[q..];
      assert z[|z| - 1] == c[|c| - 1];
      assert forall i :: q <= i < |c| ==> c[i] == z[i - q];
      if TailOk(z, true) && NotBlank(c, q) < |c| { assert c[NotBlank(c, q)] == z[NotBlank(c, q) - q]; }
    }
  }

  lemma WholeAccepted(x: Whole, terminated: bool)
    requires WholeOk(x, terminated)
    ensures ParseText(SpellWhole(x), terminated) == Done(Mean(x.doc))
  {
    hide Spell, SpellWhole, Sound, Mean, Nesting, ParseValue, ParseText, Skip, NotBlank, IsBlank, BlankTo, At, SkipBom;
    var c := SpellWhole(x);
    var s := if x.bom then 3 else 0;
    var p := s + |x.blank|;
    WholeBegins(x);
    SkipTo(c, s, p);
    ValueAccepted(c, p, x.doc, 0);
    TailSkipped(c, p + |Spell(x.doc)|);
    TextParsed(c, terminated, s, p, Mean(x.doc), p + |Spell(x.doc)|);
  }

  lemma TextParsed(c: seq<Byte>, terminated: bool, s: nat, p: nat, v: Json, q: nat)
    requires c != [] && s == SkipBom(c) && p == Skip(c, s) && ParseValue(c, p, 0) == Done(Read(v, q))
    requires q <= |c| && (terminated ==> (Skip(c, q) < |c| && c[Skip(c, q)] == 0))
    ensures ParseText(c, terminated) == Done(v)
  {
    hide ParseValue, Skip, SkipBom;
  }

  lemma WholeTooDeep(x: Whole, terminated: bool)
    requires IsBlank(x.blank) && Sound(x.doc) && Nesting(Mean(x.doc)) > NESTING_LIMIT
    ensures ParseText(SpellWhole(x), terminated) == Failed(false)
  {
    hide Spell, SpellWhole, Sound, Mean, Nesting, ParseValue, Skip, NotBlank, IsBlank, BlankTo, At, SkipBom;
    var c := SpellWhole(x);
    var s := if x.bom then 3 else 0;
    WholeBegins(x);
    SkipTo(c, s, s + |x.blank|);
    ValueTooDeep(c, s + |x.blank|, x.doc, 0);
  }

  lemma ParsedIsWhole(c: seq<Byte>, terminated: bool) returns (x: Whole)
    requires ParseText(c, terminated).Done?
    ensures WholeOk(x, terminated) && SpellWhole(x) == c && ParseText(c, terminated) == Done(Mean(x.doc))
  {
    hide ParseValue, Spell, Sound, Mean, Nesting, Skip, IsBlank, At, NotBlank;
    var s := SkipBom(c);
    var p := Skip(c, s);
    var d := ValueSpelled(c, p, 0);
    var q := ParseValue(c, p, 0).value.next;
    Skipped(c, s);
    TailSkipped(c, q);
    x := Whole(s == 3, c[s..p], d, c[q..]);
    assert c[..s] == if x.bom then BOM else [];
    AtSlice(c, p, Spell(d));
    FourParts(c, s, p, q);
  }

  lemma FourParts(c: seq<Byte>, s: nat, p: nat, q: nat)
    requires s <= p <= q <= |c|
    ensures c == c[..s] + c[s..p] + c[p..q] + c[q..]
  {
  }

  lemma AtSlice(c: seq<Byte>, p: nat, t: seq<Byte>)
    requires At(c, p, t)
    ensures p + |t| <= |c| && c[p..p + |t|] == t
  {
  }

  // cJSON_ParseWithLengthOpts gives v exactly for the texts of the grammar that mean v, with
  // any white space between their parts, and are nested at most to the limit.
  lemma ParsedIffWritten(c: seq<Byte>, v: Json, terminated: bool)
    ensures ParseText(c, terminated) == Done(v)
            <==> exists x :: WholeOk(x, terminated) && SpellWhole(x) == c && Mean(x.doc) == v
  {
    if ParseText(c, terminated) == Done(v) { var x := ParsedIsWhole(c, terminated); }
    forall x | WholeOk(x, terminated) && SpellWhole(x) == c && Mean(x.doc) == v
      ensures ParseText(c, terminated) == Done(v)
    {
      WholeAccepted(x, terminated);
    }
  }

  // ---------- What printing writes ----------

  function PrintDoc(v: Json, fmt: bool, depth: nat): Doc
    decreases v
  {
    match v
    case Null => NullDoc
    case False => FalseDoc
    case True => TrueDoc
    case Str(s) => StrDoc(Quoted(s), s)
    case Arr(x) => ArrDoc([], PrintItemDocs(x, fmt, depth + 1))
    case Obj(x) => ObjDoc(Line(fmt, if x.End? then depth else depth + 1), PrintMemberDocs(x, fmt, depth + 1))
  }

  function PrintItemDocs(x: Items, fmt: bool, depth: nat): ItemDocs
    decreases x
  {
    if x.Nil? then NoItems
    else AnItem(PrintDoc(x.value, fmt, depth), [], Blank(fmt), PrintItemDocs(x.next, fmt, depth))
  }

  function PrintMemberDocs(x: Members, fmt: bool, depth: nat): MemberDocs
    requires depth > 0
    decreases x
  {
    if x.End? then NoMembers
    else
      AMember(Quoted(x.key), x.key, [], Tab(fmt), PrintDoc(x.value, fmt, depth),
        if x.next.End? then Line(fmt, depth - 1) else [], Line(fmt, depth), PrintMemberDocs(x.next, fmt, depth))
  }

  lemma {:induction false} PrintIsSpelled(v: Json, fmt: bool, depth: nat)
    ensures Spell(PrintDoc(v, fmt, depth)) == Print(v, fmt, depth) && Mean(PrintDoc(v, fmt, depth)) == v
    decreases v, 1
  {
    match v
    case Arr(x) =>
      ItemsAreSpelled(x, fmt, depth + 1);
      ArrIsSpelled(x, fmt, depth);
    case Obj(x) =>
      MembersAreSpelled(x, fmt, depth + 1);
      ObjIsSpelled(x, fmt, depth);
    case _ =>
  }

  lemma ArrIsSpelled(x: Items, fmt: bool, depth: nat)
    requires var d := PrintItemDocs(x, fmt, depth + 1);
             MeanItems(d) == x && (x.Item? ==> SpellItems(d) == PrintItems(x, fmt, depth + 1))
    ensures Spell(PrintDoc(Arr(x), fmt, depth)) == Print(Arr(x), fmt, depth)
    ensures Mean(PrintDoc(Arr(x), fmt, depth)) == Arr(x)
  {
    assert [0x5B] + [] == [0x5B];
    hide PrintItems, SpellItems;
  }

  lemma ObjIsSpelled(x: Members, fmt: bool, depth: nat)
    requires var d := PrintMemberDocs(x, fmt, depth + 1);
             MeanMembers(d) == x && (x.Member? ==> SpellMembers(d) == PrintMembers(x, fmt, depth + 1))
    ensures Spell(PrintDoc(Obj(x), fmt, depth)) == Print(Obj(x), fmt, depth)
    ensures Mean(PrintDoc(Obj(x), fmt, depth)) == Obj(x)
  {
    hide PrintMembers, SpellMembers, Line, Spell, Print, PrintMemberDocs;
    PrintObj(x, fmt, depth);
    SpellObj(Line(fmt, if x.End? then depth else depth + 1), PrintMemberDocs(x, fmt, depth + 1));
    MembersNone(x, fmt, depth + 1);
  }

  lemma PrintObj(x: Members, fmt: bool, depth: nat)
    ensures Print(Obj(x), fmt, depth)
         == [0x7B] + Line(fmt, if x.End? then depth else depth + 1)
            + (if x.End? then [0x7D] else PrintMembers(x, fmt, depth + 1))
  {
  }

  lemma SpellObj(b: seq<Byte>, y: MemberDocs)
    ensures Spell(ObjDoc(b, y)) == [0x7B] + b + (if y.NoMembers? then [0x7D] else SpellMembers(y))
  {
  }

  lemma MembersNone(x: Members, fmt: bool, depth: nat)
    requires depth > 0
    ensures PrintMemberDocs(x, fmt, depth).NoMembers? <==> x.End?
  {
  }

  lemma {:induction false} ItemsAreSpelled(x: Items, fmt: bool, depth: nat)
    ensures var d := PrintItemDocs(x, fmt, depth);
            MeanItems(d) == x && (x.Item? ==> SpellItems(d) == PrintItems(x, fmt, depth))
    decreases x, 0
  {
    if x.Item? {
      PrintIsSpelled(x.value, fmt, depth);
      ItemsAreSpelled(x.next, fmt, depth);
      hide Print, PrintDoc, Spell, Mean, Blank;
      var d := PrintItemDocs(x, fmt, depth);
      assert [] + ItemsEnd(d) == ItemsEnd(d);
      if x.next.Item? {
        assert ItemsEnd(d) == [0x2C] + Blank(fmt) + PrintItems(x.next, fmt, depth);
        hide PrintItems, SpellItems;
      }
    }
  }

  lemma {:induction false} MembersAreSpelled(x: Members, fmt: bool, depth: nat)
    requires depth > 0
    ensures var d := PrintMemberDocs(x, fmt, depth);
            MeanMembers(d) == x && (x.Member? ==> SpellMembers(d) == PrintMembers(x, fmt, depth))
    decreases x, 0
  {
    if x.Member? {
      PrintIsSpelled(x.value, fmt, depth);
      MembersAreSpelled(x.next, fmt, depth);
      hide Print, PrintDoc, Spell, Mean, Quoted, Line, Tab;
      var d := PrintMemberDocs(x, fmt, depth);
      Regroup(Quoted(x.key), Tab(fmt), Print(x.value, fmt, depth), d.after, MembersEnd(d));
      if x.next.Member? {
        hide PrintMembers, SpellMembers;
        assert [] + ([0x2C] + d.before + SpellMembers(d.next)) == [0x2C] + d.before + SpellMembers(d.next);
      }
    }
  }

  lemma Regroup(k: seq<Byte>, tab: seq<Byte>, v: seq<Byte>, a: seq<Byte>, m: seq<Byte>)
    ensures k + ([] + ([0x3A] + tab + (v + (a + m)))) == k + [0x3A] + tab + v + (a + m)
  {
  }

  lemma {:induction false} PrintIsSound(v: Json, fmt: bool, depth: nat)
    requires NulFree(v)
    ensures Sound(PrintDoc(v, fmt, depth))
    decreases v, 1
  {
    match v
    case Str(s) => QuotedIsLiteral(s);
    case Arr(x) => ItemsAreSound(x, fmt, depth + 1);
    case Obj(x) => MembersAreSound(x, fmt, depth + 1);
    case _ =>
  }

  lemma QuotedIsLiteral(s: seq<Byte>)
    requires 0 !in s
    ensures Literal(Quoted(s), s)
  {
    QuotedRoundTrip(Quoted(s), 0, s);
  }

  lemma {:induction false} ItemsAreSound(x: Items, fmt: bool, depth: nat)
    requires NulFreeItems(x)
    ensures SoundItems(PrintItemDocs(x, fmt, depth))
    decreases x, 0
  {
    if x.Item? {
      PrintIsSound(x.value, fmt, depth);
      ItemsAreSound(x.next, fmt, depth);
    }
  }

  lemma {:induction false} MembersAreSound(x: Members, fmt: bool, depth: nat)
    requires depth > 0 && NulFreeMembers(x)
    ensures SoundMembers(PrintMemberDocs(x, fmt, depth))
    decreases x, 0
  {
    if x.Member? {
      QuotedIsLiteral(x.key);
      PrintIsSound(x.value, fmt, depth);
      MembersAreSound(x.next, fmt, depth);
      hide Literal, Quoted;
    }
  }

  // A line feed and n tabs.
  predicate IsLine(w: seq<Byte>, n: nat) {
    |w| == n + 1 && w[0] == 10 && forall i :: 1 <= i <= n ==> w[i] == 9
  }

  // The layout of cJSON_Print: elements on one line, a space behind the comma; members each on
  // a line of its own, indented by their depth, a tab behind the colon.
  predicate LaidOut(d: Doc, depth: nat)
    decreases d
  {
    match d
    case ArrDoc(b, x) => b == [] && LaidOutItems(x, depth + 1)
    case ObjDoc(b, x) => IsLine(b, if x.NoMembers? then depth else depth + 1) && LaidOutMembers(x, depth + 1)
    case _ => true
  }

  predicate LaidOutItems(x: ItemDocs, depth: nat)
    decreases x
  { x.NoItems? || (LaidOut(x.value, depth) && x.after == [] && x.before == [0x20] && LaidOutItems(x.next, depth)) }

  predicate LaidOutMembers(x: MemberDocs, depth: nat)
    requires depth > 0
    decreases x
  {
    x.NoMembers?
    || (&& x.colonBefore == [] && x.colonAfter == [9] && LaidOut(x.value, depth) && IsLine(x.before, depth)
        && (if x.next.NoMembers? then IsLine(x.after, depth - 1) else x.after == []) && LaidOutMembers(x.next, depth))
  }

  // The layout of cJSON_PrintUnformatted: no white space outside strings.
  predicate Compact(d: Doc)
    decreases d
  {
    match d
    case ArrDoc(b, x) => b == [] && CompactItems(x)
    case ObjDoc(b, x) => b == [] && CompactMembers(x)
    case _ => true
  }

  predicate CompactItems(x: ItemDocs)
    decreases x
  { x.NoItems? || (Compact(x.value) && x.after == x.before == [] && CompactItems(x.next)) }

  predicate CompactMembers(x: MemberDocs)
    decreases x
  {
    x.NoMembers?
    || (x.colonBefore == x.colonAfter == x.after == x.before == [] && Compact(x.value) && CompactMembers(x.next))
  }

  lemma {:induction false} PrintIsLaidOut(v: Json, fmt: bool, depth: nat)
    ensures if fmt then LaidOut(PrintDoc(v, fmt, depth), depth) else Compact(PrintDoc(v, fmt, depth))
    decreases v, 1
  {
    match v
    case Arr(x) => ItemsAreLaidOut(x, fmt, depth + 1);
    case Obj(x) => MembersAreLaidOut(x, fmt, depth + 1);
    case _ =>
  }

  lemma {:induction false} ItemsAreLaidOut(x: Items, fmt: bool, depth: nat)
    ensures var d := PrintItemDocs(x, fmt, depth); if fmt then LaidOutItems(d, depth) else CompactItems(d)
    decreases x, 0
  {
    if x.Item? {
      PrintIsLaidOut(x.value, fmt, depth);
      ItemsAreLaidOut(x.next, fmt, depth);
    }
  }

  lemma {:induction false} MembersAreLaidOut(x: Members, fmt: bool, depth: nat)
    requires depth > 0
    ensures var d := PrintMemberDocs(x, fmt, depth); if fmt then LaidOutMembers(d, depth) else CompactMembers(d)
    decreases x, 0
  {
    if x.Member? {
      PrintIsLaidOut(x.value, fmt, depth);
      MembersAreLaidOut(x.next, fmt, depth);
      hide LaidOut, Compact, PrintDoc;
    }
  }

  // What cJSON_Print and cJSON_PrintUnformatted write is a text of the grammar that means the
  // value, with that layout.
  lemma PrintMeaning(v: Json, fmt: bool) returns (d: Doc)
    requires NulFree(v)
    ensures Print(v, fmt, 0) == Spell(d) && Mean(d) == v && Sound(d)
    ensures if fmt then LaidOut(d, 0) else Compact(d)
  {
    d := PrintDoc(v, fmt, 0);
    PrintIsSpelled(v, fmt, 0);
    PrintIsSound(v, fmt, 0);
    PrintIsLaidOut(v, fmt, 0);
  }

  // ---------- The round trip ----------

  // A printed value, wherever it stands, is parsed back exactly if it is not nested too deep.
  lemma ValueRoundTrip(c: seq<Byte>, o: nat, v: Json, fmt: bool, pd: nat, depth: nat)
    requires At(c, o, Print(v, fmt, pd)) && NulFree(v) && depth <= NESTING_LIMIT
    ensures ParseValue(c, o, depth)
         == if depth + Nesting(v) <= NESTING_LIMIT then Done(Read(v, o + |Print(v, fmt, pd)|)) else Failed(false)
  {
    hide *;
    var d := PrintDoc(v, fmt, pd);
    PrintIsSpelled(v, fmt, pd);
    PrintIsSound(v, fmt, pd);
    if depth + Nesting(v) <= NESTING_LIMIT { ValueAccepted(c, o, d, depth); } else { ValueTooDeep(c, o, d, depth); }
  }

  lemma {:induction false} PrintHasNoNul(v: Json, fmt: bool, depth: nat)
    requires NulFree(v)
    ensures 0 !in Print(v, fmt, depth)
    decreases v, 1
  {
    match v
    case Str(s) => EscapedHasNoNul(s);
    case Arr(x) => if x.Item? { ItemsHaveNoNul(x, fmt, depth + 1); }
    case Obj(x) => if x.Member? { MembersHaveNoNul(x, fmt, depth + 1); }
    case _ =>
  }

  lemma {:induction false} ItemsHaveNoNul(x: Items, fmt: bool, depth: nat)
    requires x.Item? && NulFreeItems(x)
    ensures 0 !in PrintItems(x, fmt, depth)
    decreases x, 0
  {
    PrintHasNoNul(x.value, fmt, depth);
    if x.next.Item? { ItemsHaveNoNul(x.next, fmt, depth); }
  }

  lemma {:induction false} MembersHaveNoNul(x: Members, fmt: bool, depth: nat)
    requires x.Member? && depth > 0 && NulFreeMembers(x)
    ensures 0 !in PrintMembers(x, fmt, depth)
    decreases x, 0
  {
    EscapedHasNoNul(x.key);
    PrintHasNoNul(x.value, fmt, depth);
    if x.next.Member? { MembersHaveNoNul(x.next, fmt, depth); }
  }

  // cJSON_Parse, which takes the text up to its first NUL and that NUL, of what cJSON_Print
  // or cJSON_PrintUnformatted wrote gives the value back, whether or not a terminating NUL is
  // required, exactly if the nesting limit is kept.
  lemma TextRoundTrip(v: Json, fmt: bool, terminated: bool)
    requires NulFree(v)
    ensures 0 !in Print(v, fmt, 0)
    ensures ParseText(Print(v, fmt, 0) + [0], terminated) == if Nesting(v) <= NESTING_LIMIT then Done(v)
      else Failed(false)
  {
    hide Print, Spell, Mean, Sound, Nesting, ParseText, NulFree, LaidOut, Compact;
    PrintHasNoNul(v, fmt, 0);
    var d := PrintMeaning(v, fmt);
    var x := Whole(false, [], d, [0]);
    assert SpellWhole(x) == Print(v, fmt, 0) + [0] by { assert [] + [] + Spell(d) == Spell(d); }
    if Nesting(v) <= NESTING_LIMIT { WholeAccepted(x, terminated); } else { WholeTooDeep(x, terminated); }
  }

  // n arrays inside one another.
  function Nested(n: nat): Json { if n == 0 then Null else Arr(Item(Nested(n - 1), Nil)) }

  lemma {:induction false} NestedDepth(n: nat)
    ensures Nesting(Nested(n)) == n && NulFree(Nested(n))
  {
    if n > 0 { NestedDepth(n - 1); }
  }

  // The limit fails for instance for 1001 arrays inside one another.
  lemma DeepWitness(fmt: bool, terminated: bool)
    ensures NulFree(Nested(1001)) && ParseText(Print(Nested(1001), fmt, 0) + [0], terminated) == Failed(false)
  {
    hide Nested;
    NestedDepth(1001);
    TextRoundTrip(Nested(1001), fmt, terminated);
  }

  // ---------- Reading behind the end ----------

  // The ten bytes {"a":null, without a NUL behind them are overread.
  lemma OverreadWitness(terminated: bool)
    ensures ParseText([0x7B, QUOTE, 0x61, QUOTE, 0x3A, 0x6E, 0x75, 0x6C, 0x6C, 0x2C], terminated) == Failed(true)
  {
    var c := [0x7B, QUOTE, 0x61, QUOTE, 0x3A, 0x6E, 0x75, 0x6C, 0x6C, 0x2C];
    assert At(c, 1, Quoted([0x61])) by { assert Quoted([0x61]) == [QUOTE, 0x61, QUOTE]; }
    QuotedRoundTrip(c, 1, [0x61]);
    WordAt(c, 5, NullText());
    SkipTo(c, 0, 0);
    SkipTo(c, 1, 1);
    SkipTo(c, 4, 4);
    SkipTo(c, 5, 5);
    SkipTo(c, 9, 9);
    assert !IsAt(c, 5, FalseText()) || IsAt(c, 5, NullText());
    MemberRead(c, 1, 1, 1, [0x61], 4, 4, 5);
    NameBehindComma(c, 10, 1);
    MembersRead(c, 1, 1, [0x61], Null, 9);
    ObjectStep(c, 0, 1, 0);
    NotWord(c, 0);
  }
}
