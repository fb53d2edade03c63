// The intrusive red-black tree of libuv's tree.h (RB_HEAD, RB_ENTRY, RB_GENERATE).
// The pointer code is proved against an abstract tree that records shape, colours and
// the node objects; a one-hole context describes the rest of the tree around a focus.

module RbTree {

  import opened Powers

  datatype Color = Red | Black

  // RB_ENTRY together with the key that the comparison function looks at.
  class Node {
    var left: Node?
    var right: Node?
    var parent: Node?
    var color: Color
    const key: int

    constructor (key: int)
      ensures this.key == key
    {
      this.key := key;
      left, right, parent, color := null, null, null, Black;
    }
  }

  datatype Tree = Leaf | Br(c: Color, l: Tree, n: Node, r: Tree)

  // A tree with one hole. LeftOf(c, n, r, up): the hole is n's left subtree.
  datatype Ctx = Top | LeftOf(c: Color, n: Node, r: Tree, up: Ctx) | RightOf(c: Color, l: Tree, n: Node, up: Ctx)

  function Fill(z: Ctx, t: Tree): Tree {
    match z
    case Top => t
    case LeftOf(c, n, r, up) => Fill(up, Br(c, t, n, r))
    case RightOf(c, l, n, up) => Fill(up, Br(c, l, n, t))
  }

  ghost function Elems(t: Tree): set<Node> {
    match t
    case Leaf => {}
    case Br(_, l, n, r) => Elems(l) + {n} + Elems(r)
  }

  ghost function CtxElems(z: Ctx): set<Node> {
    match z
    case Top => {}
    case LeftOf(_, n, r, up) => {n} + Elems(r) + CtxElems(up)
    case RightOf(_, l, n, up) => {n} + Elems(l) + CtxElems(up)
  }

  // ---------- Search order ----------

  ghost predicate Below(t: Tree, k: int) { forall m :: m in Elems(t) ==> m.key < k }
  ghost predicate Above(t: Tree, k: int) { forall m :: m in Elems(t) ==> k < m.key }

  ghost predicate Bst(t: Tree) {
    t.Br? ==> Bst(t.l) && Bst(t.r) && Below(t.l, t.n.key) && Above(t.r, t.n.key)
  }

  // A key that may be stored in the hole without disturbing the order.
  ghost predicate Fits(z: Ctx, k: int) {
    match z
    case Top => true
    case LeftOf(_, n, _, up) => k < n.key && Fits(up, k)
    case RightOf(_, _, n, up) => n.key < k && Fits(up, k)
  }

  ghost predicate AllFit(z: Ctx, t: Tree) { forall m :: m in Elems(t) ==> Fits(z, m.key) }

  ghost predicate BstCtx(z: Ctx) {
    match z
    case Top => true
    case LeftOf(_, n, r, up) => Bst(r) && Above(r, n.key) && Fits(up, n.key) && AllFit(up, r) && BstCtx(up)
    case RightOf(_, l, n, up) => Bst(l) && Below(l, n.key) && Fits(up, n.key) && AllFit(up, l) && BstCtx(up)
  }

  lemma {:induction false} FillElems(z: Ctx, t: Tree)
    ensures Elems(Fill(z, t)) == CtxElems(z) + Elems(t)
  {
    match z
    case Top =>
    case LeftOf(c, n, r, up) => FillElems(up, Br(c, t, n, r));
    case RightOf(c, l, n, up) => FillElems(up, Br(c, l, n, t));
  }

  // The order of the whole tree splits into the order of the focus, of the context, and
  // of the focus against the context.
  lemma {:induction false} FillBst(z: Ctx, t: Tree)
    ensures Bst(Fill(z, t)) <==> Bst(t) && BstCtx(z) && AllFit(z, t)
  {
    match z
    case Top =>
    case LeftOf(c, n, r, up) =>
      var b := Br(c, t, n, r);
      FillBst(up, b);
      if Bst(b) && AllFit(up, b) { assert n in Elems(b) && Elems(r) <= Elems(b) && Elems(t) <= Elems(b); }
    case RightOf(c, l, n, up) =>
      var b := Br(c, l, n, t);
      FillBst(up, b);
      if Bst(b) && AllFit(up, b) { assert n in Elems(b) && Elems(l) <= Elems(b) && Elems(t) <= Elems(b); }
  }

  lemma {:induction false} FitsApart(z: Ctx, k: int)
    requires BstCtx(z) && Fits(z, k)
    ensures forall m :: m in CtxElems(z) ==> m.key != k
  {
    match z
    case Top =>
    case LeftOf(_, n, r, up) => FitsApart(up, k);
    case RightOf(_, l, n, up) => FitsApart(up, k);
  }

  // ---------- No node occurs twice ----------

  ghost predicate Distinct(t: Tree) {
    t.Br? ==> t.n !in Elems(t.l) && t.n !in Elems(t.r) && Elems(t.l) !! Elems(t.r) && Distinct(t.l) && Distinct(t.r)
  }

  ghost predicate CtxDistinct(z: Ctx) {
    match z
    case Top => true
    case LeftOf(_, n, r, up) =>
      n !in Elems(r) && n !in CtxElems(up) && Elems(r) !! CtxElems(up) && Distinct(r) && CtxDistinct(up)
    case RightOf(_, l, n, up) =>
      n !in Elems(l) && n !in CtxElems(up) && Elems(l) !! CtxElems(up) && Distinct(l) && CtxDistinct(up)
  }

  ghost predicate Apart(z: Ctx, t: Tree) {
    Distinct(t) && CtxDistinct(z) && Elems(t) !! CtxElems(z)
  }

  ghost predicate Ordered(z: Ctx, t: Tree) {
    Bst(t) && BstCtx(z) && AllFit(z, t)
  }

  lemma {:induction false} BstDistinct(t: Tree)
    requires Bst(t)
    ensures Distinct(t)
  {
    if t.Br? { BstDistinct(t.l); BstDistinct(t.r); }
  }

  lemma {:induction false} OrderedApart(z: Ctx, t: Tree)
    requires Ordered(z, t)
    ensures Apart(z, t)
  {
    BstDistinct(t);
    forall m | m in Elems(t) ensures m !in CtxElems(z) { FitsApart(z, m.key); }
    match z
    case Top =>
    case LeftOf(_, n, r, up) => OrderedApart(up, r); FitsApart(up, n.key);
    case RightOf(_, l, n, up) => OrderedApart(up, l); FitsApart(up, n.key);
  }

  // ---------- Colours ----------

  predicate IsRed(t: Tree) { t.Br? && t.c == Red }
  function ColorOf(t: Tree): Color { if t.Br? then t.c else Black }
  function Blacken(t: Tree): Tree { if t.Br? then t.(c := Black) else t }

  // No red node has a red child, and every path to a leaf passes h black nodes.
  ghost predicate Rb(t: Tree, h: nat) {
    match t
    case Leaf => h == 0
    case Br(c, l, _, r) =>
      if c == Red then !IsRed(l) && !IsRed(r) && Rb(l, h) && Rb(r, h) else h > 0 && Rb(l, h - 1) && Rb(r, h - 1)
  }

  // The context is well coloured when its hole holds a tree of black height h whose
  // root has colour c. The root of the whole tree must be black.
  ghost predicate RbCtx(z: Ctx, c: Color, h: nat) {
    match z
    case Top => c == Black
    case LeftOf(d, _, r, up) =>
      (d == Red ==> c == Black && !IsRed(r)) && Rb(r, h) && RbCtx(up, d, if d == Black then h + 1 else h)
    case RightOf(d, l, _, up) =>
      (d == Red ==> c == Black && !IsRed(l)) && Rb(l, h) && RbCtx(up, d, if d == Black then h + 1 else h)
  }

  function BlackHeight(t: Tree): nat {
    match t
    case Leaf => 0
    case Br(c, l, _, _) => BlackHeight(l) + (if c == Black then 1 else 0)
  }

  ghost predicate WellColored(t: Tree) { !IsRed(t) && Rb(t, BlackHeight(t)) }

  lemma {:induction false} RbHeight(t: Tree, h: nat)
    requires Rb(t, h)
    ensures BlackHeight(t) == h
  {
    match t
    case Leaf =>
    case Br(c, l, _, _) => RbHeight(l, if c == Black then h - 1 else h);
  }

  lemma {:induction false} FillRb(z: Ctx, t: Tree, h: nat)
    requires Rb(t, h) && RbCtx(z, ColorOf(t), h)
    ensures WellColored(Fill(z, t))
  {
    match z
    case Top => RbHeight(t, h);
    case LeftOf(c, n, r, up) => FillRb(up, Br(c, t, n, r), if c == Black then h + 1 else h);
    case RightOf(c, l, n, up) => FillRb(up, Br(c, l, n, t), if c == Black then h + 1 else h);
  }

  lemma {:induction false} UnfillRb(z: Ctx, t: Tree, g: nat) returns (h: nat)
    requires Rb(Fill(z, t), g) && !IsRed(Fill(z, t))
    ensures Rb(t, h) && RbCtx(z, ColorOf(t), h)
  {
    match z
    case Top => h := g;
    case LeftOf(c, n, r, up) =>
      var b := UnfillRb(up, Br(c, t, n, r), g);
      h := if c == Black then b - 1 else b;
    case RightOf(c, l, n, up) =>
      var b := UnfillRb(up, Br(c, l, n, t), g);
      h := if c == Black then b - 1 else b;
  }

  // ---------- Stores: the link fields of a set of nodes, as a value ----------

  datatype Cell = Cell(left: Node?, right: Node?, parent: Node?, color: Color)
  datatype Store = Store(root: Node?, m: map<Node, Cell>)

  ghost function SetL(s: Store, n: Node, v: Node?): Store
    requires n in s.m
  { s.(m := s.m[n := s.m[n].(left := v)]) }

  ghost function SetR(s: Store, n: Node, v: Node?): Store
    requires n in s.m
  { s.(m := s.m[n := s.m[n].(right := v)]) }

  ghost function SetP(s: Store, n: Node, v: Node?): Store
    requires n in s.m
  { s.(m := s.m[n := s.m[n].(parent := v)]) }

  ghost function SetC(s: Store, n: Node, c: Color): Store
    requires n in s.m
  { s.(m := s.m[n := s.m[n].(color := c)]) }

  // Hang "new" where "old" hung below "parent".
  ghost function Relinked(s: Store, was: Node?, now: Node?, parent: Node?): Store
    requires parent != null ==> parent in s.m
  {
    if parent == null then s.(root := now)
    else if s.m[parent].left == was then SetL(s, parent, now)
    else SetR(s, parent, now)
  }

  ghost predicate In(s: Store, n: Node?) { n != null ==> n in s.m }

  ghost predicate CanRotL(s: Store, x: Node) {
    && x in s.m && In(s, s.m[x].parent) && s.m[x].right != null
    && s.m[x].right in s.m && In(s, s.m[s.m[x].right].left)
    && s.m[x].right != x
  }

  ghost predicate CanRotR(s: Store, x: Node) {
    && x in s.m && In(s, s.m[x].parent) && s.m[x].left != null
    && s.m[x].left in s.m && In(s, s.m[s.m[x].left].right)
    && s.m[x].left != x
  }

  ghost function RotatedL(s: Store, x: Node): Store
    requires CanRotL(s, x)
  {
    var y := s.m[x].right;
    var b := s.m[y].left;
    var s1 := SetR(s, x, b);
    var s2 := if b != null then SetP(s1, b, x) else s1;
    var s3 := SetP(s2, y, s2.m[x].parent);
    var s4 := Relinked(s3, x, y, s3.m[x].parent);
    SetP(SetL(s4, y, x), x, y)
  }

  ghost function RotatedR(s: Store, x: Node): Store
    requires CanRotR(s, x)
  {
    var y := s.m[x].left;
    var b := s.m[y].right;
    var s1 := SetL(s, x, b);
    var s2 := if b != null then SetP(s1, b, x) else s1;
    var s3 := SetP(s2, y, s2.m[x].parent);
    var s4 := Relinked(s3, x, y, s3.m[x].parent);
    SetP(SetR(s4, y, x), x, y)
  }

  // ---------- A store represents an abstract tree ----------

  ghost predicate Rep(s: Store, t: Tree, p: Node?, up: Node?) {
    match t
    case Leaf => p == null
    case Br(c, l, n, r) =>
      p == n && n in s.m && s.m[n].parent == up && s.m[n].color == c && Rep(s, l, s.m[n].left, n)
        && Rep(s, r, s.m[n].right, n)
  }

  ghost predicate RepCtx(s: Store, z: Ctx, hole: Node?, parent: Node?) {
    match z
    case Top => s.root == hole && parent == null
    case LeftOf(c, n, r, up) =>
      parent == n && n in s.m && s.m[n].left == hole && s.m[n].color == c && Rep(s, r, s.m[n].right, n)
      && RepCtx(s, up, n, s.m[n].parent)
    case RightOf(c, l, n, up) =>
      parent == n && n in s.m && s.m[n].right == hole && s.m[n].color == c && Rep(s, l, s.m[n].left, n)
      && RepCtx(s, up, n, s.m[n].parent)
  }

  ghost predicate Agree(s: Store, s': Store, e: set<Node>) {
    forall n :: n in e && n in s.m ==> n in s'.m && s'.m[n] == s.m[n]
  }

  lemma {:induction false} RepAgree(s: Store, s': Store, t: Tree, p: Node?, up: Node?)
    requires Rep(s, t, p, up) && Agree(s, s', Elems(t))
    ensures Rep(s', t, p, up)
  {
    if t.Br? {
      RepAgree(s, s', t.l, s.m[t.n].left, t.n);
      RepAgree(s, s', t.r, s.m[t.n].right, t.n);
    }
  }

  lemma {:induction false} CtxAgree(s: Store, s': Store, z: Ctx, hole: Node?, parent: Node?)
    requires RepCtx(s, z, hole, parent) && Agree(s, s', CtxElems(z)) && s'.root == s.root
    ensures RepCtx(s', z, hole, parent)
  {
    match z
    case Top =>
    case LeftOf(_, n, r, up) => RepAgree(s, s', r, s.m[n].right, n); CtxAgree(s, s', up, n, s.m[n].parent);
    case RightOf(_, l, n, up) => RepAgree(s, s', l, s.m[n].left, n); CtxAgree(s, s', up, n, s.m[n].parent);
  }

  // A subtree that only got a new parent.
  lemma RepMoved(s: Store, s': Store, t: Tree, p: Node?, up: Node?, up': Node?)
    requires Rep(s, t, p, up) && Distinct(t)
    requires p == null || (p in s'.m && p in s.m && s'.m[p] == s.m[p].(parent := up') && Agree(s, s', Elems(t) - {p}))
    ensures Rep(s', t, p, up')
  {
    if t.Br? {
      RepAgree(s, s', t.l, s.m[t.n].left, t.n);
      RepAgree(s, s', t.r, s.m[t.n].right, t.n);
    }
  }

  // Hanging another node into the hole of a context.
  lemma CtxRelinked(s: Store, z: Ctx, was: Node, now: Node?, parent: Node?)
    requires RepCtx(s, z, was, parent) && CtxDistinct(z) && was !in CtxElems(z)
    ensures In(s, parent) && (parent != null ==> parent in CtxElems(z))
      && RepCtx(Relinked(s, was, now, parent), z, now, parent)
  {
    var s' := Relinked(s, was, now, parent);
    match z
    case Top =>
    case LeftOf(_, n, r, up) => RepAgree(s, s', r, s.m[n].right, n); CtxAgree(s, s', up, n, s.m[n].parent);
    case RightOf(_, l, n, up) =>
      assert l.Br? ==> l.n in Elems(l);
      RepAgree(s, s', l, s.m[n].left, n); CtxAgree(s, s', up, n, s.m[n].parent);
  }

  function RotL(t: Tree): Tree
    requires t.Br? && t.r.Br?
  {
    Br(t.r.c, Br(t.c, t.l, t.n, t.r.l), t.r.n, t.r.r)
  }

  function RotR(t: Tree): Tree
    requires t.Br? && t.l.Br?
  {
    Br(t.l.c, t.l.l, t.l.n, Br(t.c, t.l.r, t.n, t.r))
  }

  lemma ParentInCtx(s: Store, z: Ctx, hole: Node?, parent: Node?)
    requires RepCtx(s, z, hole, parent)
    ensures In(s, parent) && (parent != null ==> parent in CtxElems(z))
  {
  }

  // The cells of the turned nodes after a rotation; all others but the parent's keep theirs.
  lemma RotLCells(s: Store, x: Node, y: Node, up: Node?)
    requires CanRotL(s, x) && s.m[x].right == y && s.m[x].parent == up && x != up && y != up && s.m[y].left !in {x, y}
    requires up != null ==> s.m[y].left != up
    ensures var s', b := RotatedL(s, x), s.m[y].left;
            && s'.m.Keys == s.m.Keys
            && s'.m[x] == s.m[x].(right := b, parent := y)
            && s'.m[y] == s.m[y].(left := x, parent := up)
            && (b != null ==> s'.m[b] == s.m[b].(parent := x))
            && (forall n :: n in s.m && n !in {x, y} && n != b && n != up ==> s'.m[n] == s.m[n])
            && s'.root == Relinked(s, x, y, up).root
            && (up != null ==> s'.m[up] == Relinked(s, x, y, up).m[up])
  {
  }

  lemma RotRCells(s: Store, x: Node, y: Node, up: Node?)
    requires CanRotR(s, x) && s.m[x].left == y && s.m[x].parent == up && x != up && y != up && s.m[y].right !in {x, y}
    requires up != null ==> s.m[y].right != up
    ensures var s', b := RotatedR(s, x), s.m[y].right;
            && s'.m.Keys == s.m.Keys
            && s'.m[x] == s.m[x].(left := b, parent := y)
            && s'.m[y] == s.m[y].(right := x, parent := up)
            && (b != null ==> s'.m[b] == s.m[b].(parent := x))
            && (forall n :: n in s.m && n !in {x, y} && n != b && n != up ==> s'.m[n] == s.m[n])
            && s'.root == Relinked(s, x, y, up).root
            && (up != null ==> s'.m[up] == Relinked(s, x, y, up).m[up])
  {
  }

  // The pointer rotation is the tree rotation, anywhere in the tree.
  lemma RotLCtx(s: Store, z: Ctx, t: Tree, up: Node?)
    requires t.Br? && t.r.Br? && Apart(z, t) && Rep(s, t, t.n, up) && RepCtx(s, z, t.n, up)
    ensures CanRotL(s, t.n) && RepCtx(RotatedL(s, t.n), z, t.r.n, up)
  {
    var a, x, b, y, c := t.l, t.n, t.r.l, t.r.n, t.r.r;
    assert Rep(s, t.r, y, x) && Rep(s, b, s.m[y].left, y) && Distinct(t.r);
    assert Elems(t.r) == Elems(b) + {y} + Elems(c);
    assert b.Br? ==> b.n in Elems(b);
    CtxRelinked(s, z, x, y, up);
    RotLCells(s, x, y, up);
    var s' := RotatedL(s, x);
    CtxAgree(Relinked(s, x, y, up), s', z, y, up);
  }

  // What a rotation leaves of the cells below the turned nodes.
  lemma RotLBelow(s: Store, z: Ctx, t: Tree, up: Node?)
    requires t.Br? && t.r.Br? && Apart(z, t) && Rep(s, t, t.n, up) && RepCtx(s, z, t.n, up)
    ensures var x, b, y := t.n, t.r.l, t.r.n;
            && CanRotL(s, x) && Rep(s, b, RootOf(b), y)
            && var s' := RotatedL(s, x);
            && x in s'.m && s'.m[x] == s.m[x].(right := RootOf(b), parent := y)
            && y in s'.m && s'.m[y] == s.m[y].(left := x, parent := up)
            && (b.Br? ==>
               b.n in s'.m && b.n in s.m && s'.m[b.n] == s.m[b.n].(parent := x) && Agree(s, s', Elems(b) - {b.n}))
            && Agree(s, s', Elems(t.l)) && Agree(s, s', Elems(t.r.r))
  {
    var b, x, y := t.r.l, t.n, t.r.n;
    assert Rep(s, t.r, y, x) && Rep(s, b, s.m[y].left, y) && Distinct(t.r);
    assert Elems(t.r) == Elems(t.r.l) + {y} + Elems(t.r.r);
    assert b.Br? ==> b.n in Elems(b);
    ParentInCtx(s, z, x, up);
    RotLCells(s, x, y, up);
  }

  lemma RotLRep(s: Store, z: Ctx, t: Tree, up: Node?)
    requires t.Br? && t.r.Br? && Apart(z, t) && Rep(s, t, t.n, up) && RepCtx(s, z, t.n, up)
    ensures CanRotL(s, t.n) && Rep(RotatedL(s, t.n), RotL(t), t.r.n, up)
  {
    RotLBelow(s, z, t, up);
    hide CanRotL, RotatedL, Elems, Agree, CtxElems, RepCtx;
    var a, x, b, y, c, s' := t.l, t.n, t.r.l, t.r.n, t.r.r, RotatedL(s, t.n);
    assert Rep(s, t.r, y, x) && Distinct(t.r) && Distinct(b);
    RepAgree(s, s', a, s.m[x].left, x);
    RepAgree(s, s', c, s.m[y].right, y);
    RepMoved(s, s', b, RootOf(b), y, x);
  }

  lemma RotRCtx(s: Store, z: Ctx, t: Tree, up: Node?)
    requires t.Br? && t.l.Br? && Apart(z, t) && Rep(s, t, t.n, up) && RepCtx(s, z, t.n, up)
    ensures CanRotR(s, t.n) && RepCtx(RotatedR(s, t.n), z, t.l.n, up)
  {
    var a, x, b, y, c := t.l.l, t.n, t.l.r, t.l.n, t.r;
    assert Rep(s, t.l, y, x) && Rep(s, b, s.m[y].right, y) && Distinct(t.l);
    assert Elems(t.l) == Elems(a) + {y} + Elems(b);
    assert b.Br? ==> b.n in Elems(b);
    CtxRelinked(s, z, x, y, up);
    RotRCells(s, x, y, up);
    hide RotatedR, Relinked, RepCtx, CtxElems;
    var s' := RotatedR(s, x);
    CtxAgree(Relinked(s, x, y, up), s', z, y, up);
  }

  // What a rotation leaves of the cells below the turned nodes.
  lemma RotRBelow(s: Store, z: Ctx, t: Tree, up: Node?)
    requires t.Br? && t.l.Br? && Apart(z, t) && Rep(s, t, t.n, up) && RepCtx(s, z, t.n, up)
    ensures var x, b, y := t.n, t.l.r, t.l.n;
            && CanRotR(s, x) && Rep(s, b, RootOf(b), y)
            && var s' := RotatedR(s, x);
            && x in s'.m && s'.m[x] == s.m[x].(left := RootOf(b), parent := y)
            && y in s'.m && s'.m[y] == s.m[y].(right := x, parent := up)
            && (b.Br? ==>
               b.n in s'.m && b.n in s.m && s'.m[b.n] == s.m[b.n].(parent := x) && Agree(s, s', Elems(b) - {b.n}))
            && Agree(s, s', Elems(t.r)) && Agree(s, s', Elems(t.l.l))
  {
    var b, x, y := t.l.r, t.n, t.l.n;
    assert Rep(s, t.l, y, x) && Rep(s, b, s.m[y].right, y) && Distinct(t.l);
    assert Elems(t.l) == Elems(t.l.l) + {y} + Elems(t.l.r);
    assert b.Br? ==> b.n in Elems(b);
    ParentInCtx(s, z, x, up);
    RotRCells(s, x, y, up);
  }

  lemma RotRRep(s: Store, z: Ctx, t: Tree, up: Node?)
    requires t.Br? && t.l.Br? && Apart(z, t) && Rep(s, t, t.n, up) && RepCtx(s, z, t.n, up)
    ensures CanRotR(s, t.n) && Rep(RotatedR(s, t.n), RotR(t), t.l.n, up)
  {
    RotRBelow(s, z, t, up);
    hide CanRotR, RotatedR, Elems, Agree, CtxElems, RepCtx;
    var a, x, b, y, c, s' := t.l.l, t.n, t.l.r, t.l.n, t.r, RotatedR(s, t.n);
    assert Rep(s, t.l, y, x) && Distinct(t.l) && Distinct(b);
    RepAgree(s, s', c, s.m[x].right, x);
    RepAgree(s, s', a, s.m[y].left, y);
    RepMoved(s, s', b, RootOf(b), y, x);
  }

  lemma RotLOrder(z: Ctx, t: Tree)
    requires t.Br? && t.r.Br? && Ordered(z, t)
    ensures Ordered(z, RotL(t)) && Elems(RotL(t)) == Elems(t)
  {
    var x := Br(t.c, t.l, t.n, t.r.l);
    assert Elems(t.r) == Elems(t.r.l) + {t.r.n} + Elems(t.r.r);
    assert Bst(t.r);
    assert Bst(x);
    assert Below(x, t.r.n.key);
  }

  lemma RotROrder(z: Ctx, t: Tree)
    requires t.Br? && t.l.Br? && Ordered(z, t)
    ensures Ordered(z, RotR(t)) && Elems(RotR(t)) == Elems(t)
  {
    var x := Br(t.c, t.l.r, t.n, t.r);
    assert Elems(t.l) == Elems(t.l.l) + {t.l.n} + Elems(t.l.r);
    assert Bst(t.l);
    assert Bst(x);
    assert Above(x, t.l.n.key);
  }

  // ---------- Whole trees in a store ----------

  ghost function RootOf(t: Tree): Node? { if t.Br? then t.n else null }
  ghost function ParentOf(z: Ctx): Node? { if z.Top? then null else z.n }

  ghost predicate At(s: Store, t: Tree) { Rep(s, t, s.root, null) && Bst(t) }

  lemma {:induction false} Unfill(s: Store, z: Ctx, t: Tree)
    requires Rep(s, Fill(z, t), s.root, null)
    ensures Rep(s, t, RootOf(t), ParentOf(z)) && RepCtx(s, z, RootOf(t), ParentOf(z))
  {
    match z
    case Top =>
    case LeftOf(c, n, r, up) => Unfill(s, up, Br(c, t, n, r));
    case RightOf(c, l, n, up) => Unfill(s, up, Br(c, l, n, t));
  }

  lemma {:induction false} Refill(s: Store, z: Ctx, t: Tree)
    requires Rep(s, t, RootOf(t), ParentOf(z)) && RepCtx(s, z, RootOf(t), ParentOf(z))
    ensures Rep(s, Fill(z, t), s.root, null)
  {
    match z
    case Top =>
    case LeftOf(c, n, r, up) => Refill(s, up, Br(c, t, n, r));
    case RightOf(c, l, n, up) => Refill(s, up, Br(c, l, n, t));
  }

  ghost function Depth(z: Ctx): nat { if z.Top? then 0 else 1 + Depth(z.up) }

  // The tree at the focus's parent.
  ghost function Up(z: Ctx, t: Tree): (u: Tree)
    requires !z.Top?
    ensures u.Br?
  {
    if z.LeftOf? then Br(z.c, t, z.n, z.r) else Br(z.c, z.l, z.n, t)
  }

  // The fields that a step at the focus reads.
  lemma Focus(s: Store, z: Ctx, t: Tree)
    requires At(s, Fill(z, t))
    ensures Rep(s, t, RootOf(t), ParentOf(z)) && RepCtx(s, z, RootOf(t), ParentOf(z)) && Apart(z, t)
    ensures z.Top? <==> RootOf(t) == s.root
    ensures z.LeftOf? && (t.Br? || z.r.Br?) ==> s.m[z.n].left == RootOf(t) && s.m[z.n].right == RootOf(z.r)
    ensures z.RightOf? && (t.Br? || z.l.Br?) ==>
      s.m[z.n].left == RootOf(z.l) && s.m[z.n].left != RootOf(t) && s.m[z.n].right == RootOf(t)
  {
    Unfill(s, z, t);
    FillBst(z, t);
    OrderedApart(z, t);
    if !z.Top? {
      RootInCtx(s, z, RootOf(t), ParentOf(z));
      if z.RightOf? && z.l.Br? { assert z.l.n in Elems(z.l); }
    }
  }

  lemma {:induction false} RootInCtx(s: Store, z: Ctx, hole: Node?, parent: Node?)
    requires RepCtx(s, z, hole, parent) && !z.Top?
    ensures s.root != null && s.root in CtxElems(z)
  {
    if !z.up.Top? { RootInCtx(s, z.up, z.n, s.m[z.n].parent); }
  }

  lemma ColorAt(s: Store, z: Ctx, t: Tree, c: Color)
    requires t.Br? && At(s, Fill(z, t))
    ensures t.n in s.m && At(SetC(s, t.n, c), Fill(z, t.(c := c)))
    ensures Elems(Fill(z, t.(c := c))) == Elems(Fill(z, t))
  {
    Focus(s, z, t);
    var s' := SetC(s, t.n, c);
    RepAgree(s, s', t.l, s.m[t.n].left, t.n);
    RepAgree(s, s', t.r, s.m[t.n].right, t.n);
    CtxAgree(s, s', z, t.n, ParentOf(z));
    Refill(s', z, t.(c := c));
    FillBst(z, t);
    FillBst(z, t.(c := c));
    FillElems(z, t);
    FillElems(z, t.(c := c));
  }

  lemma RotLAt(s: Store, z: Ctx, t: Tree)
    requires t.Br? && t.r.Br? && At(s, Fill(z, t))
    ensures CanRotL(s, t.n) && At(RotatedL(s, t.n), Fill(z, RotL(t)))
    ensures Elems(Fill(z, RotL(t))) == Elems(Fill(z, t))
  {
    Focus(s, z, t);
    RotLRep(s, z, t, ParentOf(z));
    RotLCtx(s, z, t, ParentOf(z));
    Refill(RotatedL(s, t.n), z, RotL(t));
    FillBst(z, t);
    RotLOrder(z, t);
    FillBst(z, RotL(t));
    FillElems(z, t);
    FillElems(z, RotL(t));
  }

  lemma RotRAt(s: Store, z: Ctx, t: Tree)
    requires t.Br? && t.l.Br? && At(s, Fill(z, t))
    ensures CanRotR(s, t.n) && At(RotatedR(s, t.n), Fill(z, RotR(t)))
    ensures Elems(Fill(z, RotR(t))) == Elems(Fill(z, t))
  {
    Focus(s, z, t);
    RotRRep(s, z, t, ParentOf(z));
    RotRCtx(s, z, t, ParentOf(z));
    Refill(RotatedR(s, t.n), z, RotR(t));
    FillBst(z, t);
    RotROrder(z, t);
    FillBst(z, RotR(t));
    FillElems(z, t);
    FillElems(z, RotR(t));
  }

  // What a round of RB_INSERT_COLOR reads.
  lemma InsertReads(s: Store, z: Ctx, t: Tree)
    requires At(s, Fill(z, t)) && t.Br? && !z.Top? && !z.up.Top?
    ensures t.n in s.m && z.n in s.m && z.up.n in s.m && s.m[t.n].parent == z.n && s.m[z.n].parent == z.up.n
    ensures (s.m[z.n].left == t.n <==> z.LeftOf?) && (s.m[z.n].right == t.n <==> z.RightOf?)
    ensures z.up.LeftOf? ==> var u := s.m[z.up.n].right;
      u == RootOf(z.up.r) && (u != null ==> u in s.m && s.m[u].color == z.up.r.c)
    ensures z.up.RightOf? ==> var u := s.m[z.up.n].left;
      u == RootOf(z.up.l) && (u != null ==> u in s.m && s.m[u].color == z.up.l.c)
  {
    Focus(s, z, t);
    Focus(s, z.up, Up(z, t));
    if z.LeftOf? && z.r.Br? { assert z.r.n in Elems(z.r); }
  }

  // One round of RB_INSERT_COLOR keeps the tree well coloured but for a red focus below
  // a red parent.
  ghost predicate RedFocus(z: Ctx, t: Tree, h: nat) { IsRed(t) && Rb(t, h) && RbCtx(z, Black, h) }

  lemma UncleRedL(s: Store, z: Ctx, t: Tree, h: nat) returns (t': Tree)
    requires RedFocus(z, t, h) && !z.Top? && z.c == Red && z.up.LeftOf? && IsRed(z.up.r) && At(s, Fill(z, t))
    ensures z.n in s.m && z.up.n in s.m && z.up.r.n in s.m
    ensures RedFocus(z.up.up, t', h + 1) && t'.n == z.up.n && Elems(Fill(z.up.up, t')) == Elems(Fill(z, t))
    ensures At(SetC(SetC(SetC(s, z.up.r.n, Black), z.n, Black), z.up.n, Red), Fill(z.up.up, t'))
  {
    assert RbCtx(z.up, Red, h);
    var g, u, p := z.up.n, z.up.r, Up(z, t);
    var u', p' := u.(c := Black), p.(c := Black);
    var zu, zp := RightOf(Black, p, g, z.up.up), LeftOf(Black, g, u', z.up.up);
    assert Fill(z, t) == Fill(z.up, p) == Fill(zu, u);
    ColorAt(s, zu, u, Black);
    assert Fill(zu, u') == Fill(zp, p);
    var s1 := SetC(s, u.n, Black);
    ColorAt(s1, zp, p, Black);
    assert Fill(zp, p') == Fill(z.up.up, Br(Black, p', g, u'));
    ColorAt(SetC(s1, p.n, Black), z.up.up, Br(Black, p', g, u'), Red);
    t' := Br(Red, p', g, u');
  }

  lemma TurnedL(s: Store, z: Ctx, t: Tree, h: nat) returns (z': Ctx)
    requires RedFocus(z, t, h) && z.LeftOf? && z.c == Red && z.up.LeftOf? && !IsRed(z.up.r) && At(s, Fill(z, t))
    ensures z.n in s.m && z.up.n in s.m && CanRotR(SetC(SetC(s, z.n, Black), z.up.n, Red), z.up.n)
    ensures RedFocus(z', t, h) && Elems(Fill(z', t)) == Elems(Fill(z, t)) && Depth(z') < Depth(z)
    ensures At(RotatedR(SetC(SetC(s, z.n, Black), z.up.n, Red), z.up.n), Fill(z', t))
  {
    assert RbCtx(z.up, Red, h);
    var g, up, u, p := z.up.n, z.up.up, z.up.r, Up(z, t);
    ColorAt(s, z.up, p, Black);
    var s1 := SetC(s, p.n, Black);
    var q := Br(Black, p.(c := Black), g, u);
    assert Fill(z, t) == Fill(z.up, p) && Fill(z.up, p.(c := Black)) == Fill(up, q);
    ColorAt(s1, up, q, Red);
    RotRAt(SetC(s1, g, Red), up, q.(c := Red));
    z' := LeftOf(Black, z.n, Br(Red, z.r, g, u), up);
    assert Fill(z', t) == Fill(up, RotR(q.(c := Red)));
  }

  // The inner grandchild becomes its parent's parent; the focus is then the old parent.
  lemma StraightenedL(s: Store, z: Ctx, t: Tree, h: nat) returns (z': Ctx, t': Tree)
    requires RedFocus(z, t, h) && z.RightOf? && z.c == Red && z.up.LeftOf? && At(s, Fill(z, t))
    ensures CanRotL(s, z.n) && z'.LeftOf? && z'.c == Red && z'.n == t.n && z'.up == z.up && t'.Br? && t'.n == z.n
    ensures RedFocus(z', t', h) && Elems(Fill(z', t')) == Elems(Fill(z, t)) && At(RotatedL(s, z.n), Fill(z', t'))
  {
    assert RbCtx(z.up, Red, h);
    RotLAt(s, z.up, Up(z, t));
    z', t' := LeftOf(Red, t.n, t.r, z.up), Br(Red, z.l, z.n, t.l);
    assert Fill(z, t) == Fill(z.up, Up(z, t)) && Fill(z', t') == Fill(z.up, RotL(Up(z, t)));
  }

  lemma UncleRedR(s: Store, z: Ctx, t: Tree, h: nat) returns (t': Tree)
    requires RedFocus(z, t, h) && !z.Top? && z.c == Red && z.up.RightOf? && IsRed(z.up.l) && At(s, Fill(z, t))
    ensures z.n in s.m && z.up.n in s.m && z.up.l.n in s.m
    ensures RedFocus(z.up.up, t', h + 1) && t'.n == z.up.n && Elems(Fill(z.up.up, t')) == Elems(Fill(z, t))
    ensures At(SetC(SetC(SetC(s, z.up.l.n, Black), z.n, Black), z.up.n, Red), Fill(z.up.up, t'))
  {
    assert RbCtx(z.up, Red, h);
    var g, u, p := z.up.n, z.up.l, Up(z, t);
    var u', p' := u.(c := Black), p.(c := Black);
    var zu, zp := LeftOf(Black, g, p, z.up.up), RightOf(Black, u', g, z.up.up);
    assert Fill(z, t) == Fill(z.up, p) == Fill(zu, u);
    ColorAt(s, zu, u, Black);
    assert Fill(zu, u') == Fill(zp, p);
    var s1 := SetC(s, u.n, Black);
    ColorAt(s1, zp, p, Black);
    assert Fill(zp, p') == Fill(z.up.up, Br(Black, u', g, p'));
    ColorAt(SetC(s1, p.n, Black), z.up.up, Br(Black, u', g, p'), Red);
    t' := Br(Red, u', g, p');
  }

  lemma TurnedR(s: Store, z: Ctx, t: Tree, h: nat) returns (z': Ctx)
    requires RedFocus(z, t, h) && z.RightOf? && z.c == Red && z.up.RightOf? && !IsRed(z.up.l) && At(s, Fill(z, t))
    ensures z.n in s.m && z.up.n in s.m && CanRotL(SetC(SetC(s, z.n, Black), z.up.n, Red), z.up.n)
    ensures RedFocus(z', t, h) && Elems(Fill(z', t)) == Elems(Fill(z, t)) && Depth(z') < Depth(z)
    ensures At(RotatedL(SetC(SetC(s, z.n, Black), z.up.n, Red), z.up.n), Fill(z', t))
  {
    assert RbCtx(z.up, Red, h);
    var g, up, u, p := z.up.n, z.up.up, z.up.l, Up(z, t);
    ColorAt(s, z.up, p, Black);
    var s1 := SetC(s, p.n, Black);
    var q := Br(Black, u, g, p.(c := Black));
    assert Fill(z, t) == Fill(z.up, p) && Fill(z.up, p.(c := Black)) == Fill(up, q);
    ColorAt(s1, up, q, Red);
    RotLAt(SetC(s1, g, Red), up, q.(c := Red));
    z' := RightOf(Black, Br(Red, u, g, z.l), z.n, up);
    assert Fill(z', t) == Fill(up, RotL(q.(c := Red)));
  }

  // The inner grandchild becomes its parent's parent; the focus is then the old parent.
  lemma StraightenedR(s: Store, z: Ctx, t: Tree, h: nat) returns (z': Ctx, t': Tree)
    requires RedFocus(z, t, h) && z.LeftOf? && z.c == Red && z.up.RightOf? && At(s, Fill(z, t))
    ensures CanRotR(s, z.n) && z'.RightOf? && z'.c == Red && z'.n == t.n && z'.up == z.up && t'.Br? && t'.n == z.n
    ensures RedFocus(z', t', h) && Elems(Fill(z', t')) == Elems(Fill(z, t)) && At(RotatedR(s, z.n), Fill(z', t'))
  {
    assert RbCtx(z.up, Red, h);
    RotRAt(s, z.up, Up(z, t));
    z', t' := RightOf(Red, t.l, t.n, z.up), Br(Red, t.r, z.n, z.r);
    assert Fill(z, t) == Fill(z.up, Up(z, t)) && Fill(z', t') == Fill(z.up, RotR(Up(z, t)));
  }

  // What the loop test of RB_INSERT_COLOR reads.
  lemma LoopReads(s: Store, z: Ctx, t: Tree)
    requires At(s, Fill(z, t)) && t.Br?
    ensures t.n in s.m && s.m[t.n].parent == ParentOf(z)
    ensures !z.Top? ==> z.n in s.m && s.m[z.n].color == z.c && s.m[z.n].parent == ParentOf(z.up)
    ensures !z.Top? && !z.up.Top? ==> z.up.n in s.m && (s.m[z.up.n].left == z.n <==> z.up.LeftOf?)
  {
    Focus(s, z, t);
    if !z.Top? { Focus(s, z.up, Up(z, t)); }
  }

  // The last assignment of RB_INSERT_COLOR: the root becomes black.
  lemma InsertDone(s: Store, z: Ctx, t: Tree, h: nat) returns (t': Tree)
    requires RedFocus(z, t, h) && At(s, Fill(z, t)) && (z.Top? || z.c == Black)
    ensures s.root != null && s.root in s.m && At(SetC(s, s.root, Black), t')
    ensures Elems(t') == Elems(Fill(z, t)) && WellColored(t')
  {
    var w := Fill(z, t);
    Focus(s, z, t);
    if !z.Top? { FillRb(z, t, h); RootInCtx(s, z, RootOf(t), ParentOf(z)); }
    assert w.Br?;
    assert Fill(Top, w) == w;
    ColorAt(s, Top, w, Black);
    t' := w.(c := Black);
    RbHeight(t', if z.Top? then h + 1 else BlackHeight(t'));
  }

  // Storing a new red leaf in the hole that the search ended in.
  lemma AttachedCtx(s: Store, z: Ctx, n: Node, s1: Store, s': Store)
    requires RepCtx(s, z, null, ParentOf(z)) && CtxDistinct(z) && n !in CtxElems(z)
    requires s1 == s.(m := s.m[n := Cell(null, null, ParentOf(z), Red)])
    requires z.Top? ==> s' == s1.(root := n)
    requires z.LeftOf? ==> s' == SetL(s1, z.n, n)
    requires z.RightOf? ==> s' == SetR(s1, z.n, n)
    ensures RepCtx(s', z, n, ParentOf(z))
  {
    match z
    case Top =>
    case LeftOf(_, p, r, up) => RepAgree(s, s', r, s.m[p].right, p); CtxAgree(s, s', up, p, s.m[p].parent);
    case RightOf(_, l, p, up) => RepAgree(s, s', l, s.m[p].left, p); CtxAgree(s, s', up, p, s.m[p].parent);
  }

  lemma Attached(s: Store, z: Ctx, n: Node, s1: Store, s': Store)
    requires At(s, Fill(z, Leaf)) && Fits(z, n.key) && n !in Elems(Fill(z, Leaf))
    requires s1 == s.(m := s.m[n := Cell(null, null, ParentOf(z), Red)]) && (!z.Top? ==> z.n in s.m)
    requires z.Top? ==> s' == s1.(root := n)
    requires z.LeftOf? ==> s' == SetL(s1, z.n, n)
    requires z.RightOf? ==> s' == SetR(s1, z.n, n)
    ensures At(s', Fill(z, Br(Red, Leaf, n, Leaf)))
    ensures Elems(Fill(z, Br(Red, Leaf, n, Leaf))) == Elems(Fill(z, Leaf)) + {n}
  {
    var t := Br(Red, Leaf, n, Leaf);
    Focus(s, z, Leaf);
    FillElems(z, Leaf);
    FillElems(z, t);
    FillBst(z, Leaf);
    FillBst(z, t);
    AttachedCtx(s, z, n, s1, s');
    assert Rep(s', t, n, ParentOf(z));
    Refill(s', z, t);
  }

  lemma RedLeaf(z: Ctx, n: Node) returns (h: nat)
    requires WellColored(Fill(z, Leaf))
    ensures RedFocus(z, Br(Red, Leaf, n, Leaf), h)
    ensures Elems(Fill(z, Br(Red, Leaf, n, Leaf))) == Elems(Fill(z, Leaf)) + {n}
  {
    h := UnfillRb(z, Leaf, BlackHeight(Fill(z, Leaf)));
    FillElems(z, Leaf);
    FillElems(z, Br(Red, Leaf, n, Leaf));
  }

  // ---------- Rebalancing after a removal ----------

  // The focus is one black node short: the context expects black height h + 1. A red
  // focus makes up for it once it is coloured black.
  ghost predicate Short(z: Ctx, t: Tree, h: nat) {
    RbCtx(z, Black, h + 1) && if IsRed(t) then Rb(Blacken(t), h + 1) else Rb(t, h)
  }

  // What is left to do is to colour the focus black.
  ghost predicate AlmostDone(z: Ctx, t: Tree) { WellColored(Fill(z, Blacken(t))) }

  lemma ShortDone(z: Ctx, t: Tree, h: nat)
    requires Short(z, t, h) && (IsRed(t) || z.Top?)
    ensures AlmostDone(z, t)
  {
    FillRb(z, Blacken(t), if IsRed(t) then h + 1 else h);
  }

  lemma RoundDone(z: Ctx, t: Tree)
    requires z.Top? && WellColored(t)
    ensures AlmostDone(z, t)
  {
  }

  lemma RemoveDone(s: Store, z: Ctx, t: Tree)
    requires AlmostDone(z, t) && At(s, Fill(z, t))
    ensures t.Br? ==> t.n in s.m
    ensures var s' := if t.Br? then SetC(s, t.n, Black) else s; At(s', Fill(z, Blacken(t)))
    ensures Elems(Fill(z, Blacken(t))) == Elems(Fill(z, t))
  {
    if t.Br? { ColorAt(s, z, t, Black); }
  }

  // What a round of RB_REMOVE_COLOR reads on this side; the sibling is never missing.
  lemma RemoveReadsL(s: Store, z: Ctx, t: Tree, h: nat)
    requires z.LeftOf? && !IsRed(t) && Short(z, t, h) && At(s, Fill(z, t))
    ensures z.r.Br? && z.n in s.m && s.m[z.n].color == z.c && s.m[z.n].parent == ParentOf(z.up)
    ensures var w := z.r;
            && s.m[z.n].right == w.n && w.n in s.m && s.m[w.n].color == w.c
            && (var a := s.m[w.n].left; a == RootOf(w.l) && (a != null ==> a in s.m && s.m[a].color == w.l.c))
            && (var b := s.m[w.n].right; b == RootOf(w.r) && (b != null ==> b in s.m && s.m[b].color == w.r.c))
  {
    Focus(s, z, t);
    Focus(s, z.up, Up(z, t));
    var w := z.r;
    assert Rep(s, w, s.m[z.n].right, z.n);
    assert Rep(s, w.l, s.m[w.n].left, w.n) && Rep(s, w.r, s.m[w.n].right, w.n);
  }

  lemma SiblingRedL(s: Store, z: Ctx, t: Tree, h: nat) returns (z': Ctx)
    requires z.LeftOf? && !IsRed(t) && Short(z, t, h) && At(s, Fill(z, t)) && IsRed(z.r)
    ensures z.r.n in s.m && z.n in s.m && CanRotL(SetC(SetC(s, z.r.n, Black), z.n, Red), z.n)
    ensures z'.LeftOf? && z'.n == z.n && z'.r.Br? && !IsRed(z'.r) && z'.c == Red && Short(z', t, h)
    ensures Depth(z') == Depth(z) + 1
    ensures At(RotatedL(SetC(SetC(s, z.r.n, Black), z.n, Red), z.n), Fill(z', t))
      && Elems(Fill(z', t)) == Elems(Fill(z, t))
  {
    var w, p, up := z.r, z.n, z.up;
    var w' := w.(c := Black);
    assert Rb(w, h + 1) && Rb(w.l, h + 1);
    var zw := RightOf(z.c, t, p, up);
    assert Fill(zw, w) == Fill(z, t);
    ColorAt(s, zw, w, Black);
    var s1 := SetC(s, w.n, Black);
    var b := Br(z.c, t, p, w');
    assert Fill(zw, w') == Fill(up, b);
    ColorAt(s1, up, b, Red);
    RotLAt(SetC(s1, p, Red), up, b.(c := Red));
    z' := LeftOf(Red, p, w.l, LeftOf(Black, w.n, w.r, up));
    assert Fill(z', t) == Fill(up, RotL(b.(c := Red)));
  }

  lemma NephewsBlackL(s: Store, z: Ctx, t: Tree, h: nat) returns (t': Tree, h': nat)
    requires z.LeftOf? && !IsRed(t) && Short(z, t, h) && At(s, Fill(z, t))
    requires z.r.Br? && !IsRed(z.r) && !IsRed(z.r.l) && !IsRed(z.r.r)
    ensures z.r.n in s.m && t'.Br? && t'.n == z.n && t'.c == z.c && Short(z.up, t', h')
    ensures At(SetC(s, z.r.n, Red), Fill(z.up, t')) && Elems(Fill(z.up, t')) == Elems(Fill(z, t))
  {
    var w, p, up := z.r, z.n, z.up;
    var zw := RightOf(z.c, t, p, up);
    assert Fill(zw, w) == Fill(z, t);
    ColorAt(s, zw, w, Red);
    t', h' := Br(z.c, t, p, w.(c := Red)), if z.c == Red then h else h + 1;
    assert Fill(zw, w.(c := Red)) == Fill(up, t');
    assert Rb(w, h + 1) && Rb(w.(c := Red), h);
    assert RbCtx(up, z.c, h' + 1);
  }

  // The near nephew is red and the far one is not: turn the sibling.
  lemma NearRedL(s: Store, z: Ctx, t: Tree, h: nat) returns (z': Ctx)
    requires z.LeftOf? && !IsRed(t) && Short(z, t, h) && At(s, Fill(z, t))
    requires z.r.Br? && !IsRed(z.r) && IsRed(z.r.l) && !IsRed(z.r.r)
    ensures var w := z.r.n; var a := z.r.l.n;
            && a in s.m && w in s.m && CanRotR(SetC(SetC(s, a, Black), w, Red), w)
            && At(RotatedR(SetC(SetC(s, a, Black), w, Red), w), Fill(z', t))
    ensures z'.LeftOf? && z'.n == z.n && z'.r.Br? && !IsRed(z'.r) && IsRed(z'.r.r)
    ensures Short(z', t, h) && Elems(Fill(z', t)) == Elems(Fill(z, t))
  {
    var w, p, up := z.r, z.n, z.up;
    var a := w.l;
    var zw := RightOf(z.c, t, p, up);
    var za := LeftOf(Black, w.n, w.r, zw);
    assert Fill(z, t) == Fill(zw, w) == Fill(za, a);
    ColorAt(s, za, a, Black);
    var w1 := Br(Black, a.(c := Black), w.n, w.r);
    assert Fill(za, a.(c := Black)) == Fill(zw, w1);
    ColorAt(SetC(s, a.n, Black), zw, w1, Red);
    RotRAt(SetC(SetC(s, a.n, Black), w.n, Red), zw, w1.(c := Red));
    var w2 := RotR(w1.(c := Red));
    z' := LeftOf(z.c, p, w2, up);
    assert Rb(w, h + 1) && Rb(a, h) && Rb(w.r, h);
    assert Rb(w2, h + 1);
    assert Fill(zw, w2) == Fill(z', t);
  }

  // The far nephew is red: turn the parent and the deficit is gone.
  lemma FarRedL(s: Store, z: Ctx, t: Tree, h: nat) returns (t': Tree)
    requires z.LeftOf? && !IsRed(t) && Short(z, t, h) && At(s, Fill(z, t))
    requires z.r.Br? && !IsRed(z.r) && IsRed(z.r.r)
    ensures var w := z.r.n; var b := z.r.r.n;
            && w in s.m && z.n in s.m && b in s.m && CanRotL(SetC(SetC(SetC(s, w, z.c), z.n, Black), b, Black), z.n)
            && At(RotatedL(SetC(SetC(SetC(s, w, z.c), z.n, Black), b, Black), z.n), t')
    ensures WellColored(t') && Elems(t') == Elems(Fill(z, t))
  {
    var w, p, up, c := z.r, z.n, z.up, z.c;
    var b := w.r;
    var zw := RightOf(c, t, p, up);
    assert Fill(zw, w) == Fill(z, t);
    ColorAt(s, zw, w, c);
    var s1, w1 := SetC(s, w.n, c), w.(c := c);
    var q := Br(c, t, p, w1);
    assert Fill(zw, w1) == Fill(up, q);
    ColorAt(s1, up, q, Black);
    var s2 := SetC(s1, p, Black);
    var zb := RightOf(c, w.l, w.n, RightOf(Black, t, p, up));
    assert Fill(up, q.(c := Black)) == Fill(zb, b);
    ColorAt(s2, zb, b, Black);
    var q' := Br(Black, t, p, Br(c, w.l, w.n, b.(c := Black)));
    assert Fill(zb, b.(c := Black)) == Fill(up, q');
    RotLAt(SetC(s2, b.n, Black), up, q');
    t' := Fill(up, RotL(q'));
    assert Rb(w, h + 1) && Rb(b, h) && Rb(w.l, h);
    assert Rb(b.(c := Black), h + 1) && Rb(Br(Black, t, p, w.l), h + 1);
    FillRb(up, RotL(q'), if c == Black then h + 2 else h + 1);
  }

  // What a round of RB_REMOVE_COLOR reads on this side; the sibling is never missing.
  lemma RemoveReadsR(s: Store, z: Ctx, t: Tree, h: nat)
    requires z.RightOf? && !IsRed(t) && Short(z, t, h) && At(s, Fill(z, t))
    ensures z.l.Br? && z.n in s.m && s.m[z.n].color == z.c && s.m[z.n].parent == ParentOf(z.up)
    ensures var w := z.l;
            && s.m[z.n].left == w.n && w.n in s.m && s.m[w.n].color == w.c
            && (var a := s.m[w.n].left; a == RootOf(w.l) && (a != null ==> a in s.m && s.m[a].color == w.l.c))
            && (var b := s.m[w.n].right; b == RootOf(w.r) && (b != null ==> b in s.m && s.m[b].color == w.r.c))
  {
    Focus(s, z, t);
    Focus(s, z.up, Up(z, t));
    var w := z.l;
    assert Rep(s, w, s.m[z.n].left, z.n);
    assert Rep(s, w.l, s.m[w.n].left, w.n) && Rep(s, w.r, s.m[w.n].right, w.n);
  }

  lemma SiblingRedR(s: Store, z: Ctx, t: Tree, h: nat) returns (z': Ctx)
    requires z.RightOf? && !IsRed(t) && Short(z, t, h) && At(s, Fill(z, t)) && IsRed(z.l)
    ensures z.l.n in s.m && z.n in s.m && CanRotR(SetC(SetC(s, z.l.n, Black), z.n, Red), z.n)
    ensures z'.RightOf? && z'.n == z.n && z'.l.Br? && !IsRed(z'.l) && z'.c == Red && Short(z', t, h)
    ensures Depth(z') == Depth(z) + 1
    ensures At(RotatedR(SetC(SetC(s, z.l.n, Black), z.n, Red), z.n), Fill(z', t))
      && Elems(Fill(z', t)) == Elems(Fill(z, t))
  {
    var w, p, up := z.l, z.n, z.up;
    var w' := w.(c := Black);
    assert Rb(w, h + 1) && Rb(w.r, h + 1);
    var zw := LeftOf(z.c, p, t, up);
    assert Fill(zw, w) == Fill(z, t);
    ColorAt(s, zw, w, Black);
    var s1 := SetC(s, w.n, Black);
    var b := Br(z.c, w', p, t);
    assert Fill(zw, w') == Fill(up, b);
    ColorAt(s1, up, b, Red);
    RotRAt(SetC(s1, p, Red), up, b.(c := Red));
    z' := RightOf(Red, w.r, p, RightOf(Black, w.l, w.n, up));
    assert Fill(z', t) == Fill(up, RotR(b.(c := Red)));
  }

  lemma NephewsBlackR(s: Store, z: Ctx, t: Tree, h: nat) returns (t': Tree, h': nat)
    requires z.RightOf? && !IsRed(t) && Short(z, t, h) && At(s, Fill(z, t))
    requires z.l.Br? && !IsRed(z.l) && !IsRed(z.l.l) && !IsRed(z.l.r)
    ensures z.l.n in s.m && t'.Br? && t'.n == z.n && t'.c == z.c && Short(z.up, t', h')
    ensures At(SetC(s, z.l.n, Red), Fill(z.up, t')) && Elems(Fill(z.up, t')) == Elems(Fill(z, t))
  {
    var w, p, up := z.l, z.n, z.up;
    var zw := LeftOf(z.c, p, t, up);
    assert Fill(zw, w) == Fill(z, t);
    ColorAt(s, zw, w, Red);
    t', h' := Br(z.c, w.(c := Red), p, t), if z.c == Red then h else h + 1;
    assert Fill(zw, w.(c := Red)) == Fill(up, t');
    assert Rb(w, h + 1) && Rb(w.(c := Red), h);
    assert RbCtx(up, z.c, h' + 1);
  }

  // The near nephew is red and the far one is not: turn the sibling.
  lemma NearRedR(s: Store, z: Ctx, t: Tree, h: nat) returns (z': Ctx)
    requires z.RightOf? && !IsRed(t) && Short(z, t, h) && At(s, Fill(z, t))
    requires z.l.Br? && !IsRed(z.l) && IsRed(z.l.r) && !IsRed(z.l.l)
    ensures var w := z.l.n; var a := z.l.r.n;
            && a in s.m && w in s.m && CanRotL(SetC(SetC(s, a, Black), w, Red), w)
            && At(RotatedL(SetC(SetC(s, a, Black), w, Red), w), Fill(z', t))
    ensures z'.RightOf? && z'.n == z.n && z'.l.Br? && !IsRed(z'.l) && IsRed(z'.l.l)
    ensures Short(z', t, h) && Elems(Fill(z', t)) == Elems(Fill(z, t))
  {
    var w, p, up := z.l, z.n, z.up;
    var a := w.r;
    var zw := LeftOf(z.c, p, t, up);
    var za := RightOf(Black, w.l, w.n, zw);
    assert Fill(z, t) == Fill(zw, w) == Fill(za, a);
    ColorAt(s, za, a, Black);
    var w1 := Br(Black, w.l, w.n, a.(c := Black));
    assert Fill(za, a.(c := Black)) == Fill(zw, w1);
    ColorAt(SetC(s, a.n, Black), zw, w1, Red);
    RotLAt(SetC(SetC(s, a.n, Black), w.n, Red), zw, w1.(c := Red));
    var w2 := RotL(w1.(c := Red));
    z' := RightOf(z.c, w2, p, up);
    assert Rb(w, h + 1) && Rb(a, h) && Rb(w.l, h);
    assert Rb(w2, h + 1);
    assert Fill(zw, w2) == Fill(z', t);
  }

  // The far nephew is red: turn the parent and the deficit is gone.
  lemma FarRedR(s: Store, z: Ctx, t: Tree, h: nat) returns (t': Tree)
    requires z.RightOf? && !IsRed(t) && Short(z, t, h) && At(s, Fill(z, t))
    requires z.l.Br? && !IsRed(z.l) && IsRed(z.l.l)
    ensures var w := z.l.n; var b := z.l.l.n;
            && w in s.m && z.n in s.m && b in s.m && CanRotR(SetC(SetC(SetC(s, w, z.c), z.n, Black), b, Black), z.n)
            && At(RotatedR(SetC(SetC(SetC(s, w, z.c), z.n, Black), b, Black), z.n), t')
    ensures WellColored(t') && Elems(t') == Elems(Fill(z, t))
  {
    var w, p, up, c := z.l, z.n, z.up, z.c;
    var b := w.l;
    var zw := LeftOf(c, p, t, up);
    assert Fill(zw, w) == Fill(z, t);
    ColorAt(s, zw, w, c);
    var s1, w1 := SetC(s, w.n, c), w.(c := c);
    var q := Br(c, w1, p, t);
    assert Fill(zw, w1) == Fill(up, q);
    ColorAt(s1, up, q, Black);
    var s2 := SetC(s1, p, Black);
    var zb := LeftOf(c, w.n, w.r, LeftOf(Black, p, t, up));
    assert Fill(up, q.(c := Black)) == Fill(zb, b);
    ColorAt(s2, zb, b, Black);
    var q' := Br(Black, Br(c, b.(c := Black), w.n, w.r), p, t);
    assert Fill(zb, b.(c := Black)) == Fill(up, q');
    RotRAt(SetC(s2, b.n, Black), up, q');
    t' := Fill(up, RotR(q'));
    assert Rb(w, h + 1) && Rb(b, h) && Rb(w.r, h);
    assert Rb(b.(c := Black), h + 1) && Rb(Br(Black, w.r, p, t), h + 1);
    FillRb(up, RotR(q'), if c == Black then h + 2 else h + 1);
  }

  function SiblingOf(z: Ctx): Tree
    requires !z.Top?
  { if z.LeftOf? then z.r else z.l }

  lemma SiblingThere(z: Ctx, h: nat)
    requires !z.Top? && RbCtx(z, Black, h + 1)
    ensures SiblingOf(z).Br?
  {
  }

  lemma RemoveLoopReads(s: Store, z: Ctx, t: Tree)
    requires At(s, Fill(z, t))
    ensures t.Br? ==> t.n in s.m && s.m[t.n].color == t.c && s.m[t.n].parent == ParentOf(z)
    ensures In(s, ParentOf(z)) && (z.Top? <==> RootOf(t) == s.root)
    ensures !z.Top? && (t.Br? || SiblingOf(z).Br?) ==> (s.m[z.n].left == RootOf(t) <==> z.LeftOf?)
  {
    Focus(s, z, t);
  }

  function Compare(a: int, b: int): int { if a < b then -1 else if a > b then 1 else 0 }

  lemma NotStored(z: Ctx, k: int)
    requires Fits(z, k) && Bst(Fill(z, Leaf))
    ensures forall m :: m in Elems(Fill(z, Leaf)) ==> m.key != k
  {
    FillBst(z, Leaf);
    FitsApart(z, k);
    FillElems(z, Leaf);
  }

  // ---------- Taking a node out ----------

  // The subtree that moves up when a node with at most one child is unlinked.
  function OnlyChild(t: Tree): Tree
    requires t.Br? && (t.l.Leaf? || t.r.Leaf?)
  { if t.l.Leaf? then t.r else t.l }

  ghost function Unlinked(s: Store, z: Ctx, t: Tree): Store
    requires t.Br? && (t.l.Leaf? || t.r.Leaf?) && In(s, RootOf(OnlyChild(t))) && In(s, ParentOf(z))
  {
    var c := OnlyChild(t);
    Relinked(if c.Br? then SetP(s, c.n, ParentOf(z)) else s, t.n, RootOf(c), ParentOf(z))
  }

  lemma UnlinkedOrder(z: Ctx, t: Tree)
    requires t.Br? && (t.l.Leaf? || t.r.Leaf?) && Bst(Fill(z, t))
    ensures Bst(Fill(z, OnlyChild(t)))
    ensures Elems(Fill(z, OnlyChild(t))) == Elems(Fill(z, t)) - {t.n} && t.n in Elems(Fill(z, t))
  {
    var c := OnlyChild(t);
    FillBst(z, t);
    OrderedApart(z, t);
    FillBst(z, c);
    FillElems(z, t);
    FillElems(z, c);
  }

  lemma UnlinkedLink(s: Store, n: Node, c: Node?, up: Node?)
    requires n in s.m && In(s, c) && In(s, up) && n != up && (c != null ==> c != up)
    ensures var s1, s' := Relinked(s, n, c, up), Relinked(if c != null then SetP(s, c, up) else s, n, c, up);
            s' == (if c != null then SetP(s1, c, up) else s1) && s'.m.Keys == s.m.Keys && (n != c ==> s'.m[n] == s.m[n])
  {
  }

  lemma UnlinkedCells(s: Store, z: Ctx, t: Tree)
    requires t.Br? && (t.l.Leaf? || t.r.Leaf?) && Apart(z, t) && Rep(s, t, t.n, ParentOf(z))
      && RepCtx(s, z, t.n, ParentOf(z))
    ensures var c, up := OnlyChild(t), ParentOf(z);
            && In(s, RootOf(c)) && In(s, up) && (up != null ==> up in CtxElems(z)) && (c.Br? ==> c.n in Elems(c))
            && Rep(s, c, RootOf(c), t.n) && Distinct(c) && t.n in s.m && t.n !in Elems(c) && Elems(c) !! CtxElems(z)
            && var s1, s' := Relinked(s, t.n, RootOf(c), up), Unlinked(s, z, t);
            && s' == (if c.Br? then SetP(s1, c.n, up) else s1) && s'.m.Keys == s.m.Keys && s'.m[t.n] == s.m[t.n]
  {
    var c := OnlyChild(t);
    ParentInCtx(s, z, t.n, ParentOf(z));
    assert Rep(s, c, RootOf(c), t.n);
    assert c.Br? ==> c.n in Elems(c);
    UnlinkedLink(s, t.n, RootOf(c), ParentOf(z));
    hide Relinked, SetP, CtxElems, RepCtx;
  }

  lemma UnlinkedRep(s: Store, z: Ctx, t: Tree)
    requires t.Br? && (t.l.Leaf? || t.r.Leaf?) && Apart(z, t) && Rep(s, t, t.n, ParentOf(z))
      && RepCtx(s, z, t.n, ParentOf(z))
    ensures var c, up := OnlyChild(t), ParentOf(z);
            && In(s, RootOf(c)) && In(s, up) && t.n in s.m
            && Rep(Unlinked(s, z, t), c, RootOf(c), up) && RepCtx(Unlinked(s, z, t), z, RootOf(c), up)
            && Unlinked(s, z, t).m.Keys == s.m.Keys && Unlinked(s, z, t).m[t.n] == s.m[t.n]
  {
    var c, up := OnlyChild(t), ParentOf(z);
    UnlinkedCells(s, z, t);
    CtxRelinked(s, z, t.n, RootOf(c), up);
    var s1 := Relinked(s, t.n, RootOf(c), up);
    var s' := Unlinked(s, z, t);
    CtxAgree(s1, s', z, RootOf(c), up);
    RepAgree(s, s1, c, RootOf(c), t.n);
    RepMoved(s1, s', c, RootOf(c), t.n, up);
  }

  lemma UnlinkedAt(s: Store, z: Ctx, t: Tree)
    requires t.Br? && (t.l.Leaf? || t.r.Leaf?) && At(s, Fill(z, t))
    ensures var c := OnlyChild(t);
            && In(s, RootOf(c)) && In(s, ParentOf(z)) && At(Unlinked(s, z, t), Fill(z, c))
            && t.n in s.m && Unlinked(s, z, t).m.Keys == s.m.Keys && Unlinked(s, z, t).m[t.n] == s.m[t.n]
            && Elems(Fill(z, c)) == Elems(Fill(z, t)) - {t.n} && t.n in Elems(Fill(z, t))
  {
    Focus(s, z, t);
    UnlinkedRep(s, z, t);
    UnlinkedOrder(z, t);
    Refill(Unlinked(s, z, t), z, OnlyChild(t));
  }

  // Unlinking a red node keeps the colouring; unlinking a black one leaves it one short.
  lemma UnlinkedRb(z: Ctx, t: Tree, h: nat) returns (h': nat)
    requires t.Br? && (t.l.Leaf? || t.r.Leaf?) && Rb(t, h) && RbCtx(z, t.c, h)
    ensures if t.c == Red then WellColored(Fill(z, OnlyChild(t))) else Short(z, OnlyChild(t), h')
  {
    var c := OnlyChild(t);
    h' := if t.c == Red then h else h - 1;
    if t.c == Red { FillRb(z, c, h); }
  }

  function Append(a: Ctx, b: Ctx): Ctx {
    match a
    case Top => b
    case LeftOf(c, n, r, up) => LeftOf(c, n, r, Append(up, b))
    case RightOf(c, l, n, up) => RightOf(c, l, n, Append(up, b))
  }

  lemma {:induction false} FillAppend(a: Ctx, b: Ctx, t: Tree)
    ensures Fill(Append(a, b), t) == Fill(b, Fill(a, t))
  {
    match a
    case Top =>
    case LeftOf(c, n, r, up) => FillAppend(up, b, Br(c, t, n, r));
    case RightOf(c, l, n, up) => FillAppend(up, b, Br(c, l, n, t));
  }

  // Colours do not depend on which node sits at a place.
  lemma {:induction false} RbCtxSwap(a: Ctx, c: Color, l: Tree, n: Node, n': Node, z: Ctx, d: Color, h: nat)
    requires RbCtx(Append(a, RightOf(c, l, n, z)), d, h)
    ensures RbCtx(Append(a, RightOf(c, l, n', z)), d, h)
  {
    if !a.Top? { RbCtxSwap(a.up, c, l, n, n', z, a.c, if a.c == Black then h + 1 else h); }
  }

  predicate LeftSpine(a: Ctx) { a.Top? || (a.LeftOf? && LeftSpine(a.up)) }

  lemma {:induction false} SpineAbove(a: Ctx, k: int)
    requires LeftSpine(a) && BstCtx(a) && Fits(a, k)
    ensures forall m :: m in CtxElems(a) ==> k < m.key
  {
    if !a.Top? { SpineAbove(a.up, k); }
  }

  // The node at the end of the left spine is the least of its tree.
  lemma SpineLeast(a: Ctx, t: Tree)
    requires t.Br? && t.l.Leaf? && LeftSpine(a) && Bst(Fill(a, t))
    ensures Above(Fill(a, t.r), t.n.key) && Bst(Fill(a, t.r)) && Elems(Fill(a, t)) == Elems(Fill(a, t.r)) + {t.n}
  {
    FillBst(a, t);
    FillBst(a, t.r);
    SpineAbove(a, t.n.key);
    FillElems(a, t);
    FillElems(a, t.r);
  }

  // (elm)->field = (old)->field, then elm is hung where old hung and old's children below it.
  ghost predicate CanReplace(s: Store, o: Node, y: Node) {
    o in s.m && y in s.m && In(s, s.m[o].parent) && s.m[o].left != null && s.m[o].left in s.m && In(s, s.m[o].right)
    && s.m[o].parent !in {o, y} && s.m[o].left !in {o, y} && s.m[o].right !in {o, y}
  }

  ghost function Replaced(s: Store, o: Node, y: Node): Store
    requires CanReplace(s, o, y)
  {
    var s1 := s.(m := s.m[y := s.m[o]]);
    var s2 := Relinked(s1, o, y, s1.m[o].parent);
    var s3 := SetP(s2, s.m[o].left, y);
    if s.m[o].right != null then SetP(s3, s.m[o].right, y) else s3
  }

  lemma ReplacedCells(s: Store, o: Node, y: Node)
    requires CanReplace(s, o, y) && s.m[o].left != s.m[o].right && s.m[o].parent != s.m[o].left && o != y
    requires s.m[o].parent != null ==> s.m[o].parent != s.m[o].right
    ensures var s', l, r, up := Replaced(s, o, y), s.m[o].left, s.m[o].right, s.m[o].parent;
            && s'.m.Keys == s.m.Keys && Relinked(s, o, y, up).m.Keys == s.m.Keys && s'.m[y] == s.m[o]
               && s'.m[l] == s.m[l].(parent := y)
            && (r != null ==> s'.m[r] == s.m[r].(parent := y))
            && (forall n :: n in s.m && n !in {l, y} && n != r ==> s'.m[n] == Relinked(s, o, y, up).m[n])
            && s'.root == Relinked(s, o, y, up).root
  {
  }

  // Changes outside a context.
  lemma CtxOutside(s: Store, s': Store, z: Ctx, hole: Node?, parent: Node?, l: Node, r: Node?, y: Node)
    requires RepCtx(s, z, hole, parent) && s'.root == s.root && s'.m.Keys == s.m.Keys
    requires l !in CtxElems(z) && y !in CtxElems(z) && (r != null ==> r !in CtxElems(z))
    requires forall n :: n in s.m && n !in {l, y} && n != r ==> s'.m[n] == s.m[n]
    ensures RepCtx(s', z, hole, parent)
  {
    CtxAgree(s, s', z, hole, parent);
  }

  lemma ReplaceReady(s: Store, z: Ctx, t: Tree, y: Node)
    requires t.Br? && t.l.Br? && Apart(z, t) && Rep(s, t, t.n, ParentOf(z)) && RepCtx(s, z, t.n, ParentOf(z))
    requires y in s.m && y !in Elems(t) && y !in CtxElems(z)
    ensures CanReplace(s, t.n, y) && s.m[t.n].left in Elems(t.l) && (t.r.Br? ==> s.m[t.n].right in Elems(t.r))
    ensures s.m[t.n].left == RootOf(t.l) && s.m[t.n].right == RootOf(t.r)
      && (ParentOf(z) != null ==> ParentOf(z) in CtxElems(z))
  {
    assert Rep(s, t.l, s.m[t.n].left, t.n) && Rep(s, t.r, s.m[t.n].right, t.n);
    assert t.l.n in Elems(t.l) && (t.r.Br? ==> t.r.n in Elems(t.r));
  }

  lemma ReplacedCtx(s: Store, z: Ctx, t: Tree, y: Node)
    requires t.Br? && t.l.Br? && Apart(z, t) && Rep(s, t, t.n, ParentOf(z)) && RepCtx(s, z, t.n, ParentOf(z))
    requires y in s.m && y !in Elems(t) && y !in CtxElems(z) && CanReplace(s, t.n, y)
    ensures RepCtx(Replaced(s, t.n, y), z, y, ParentOf(z))
  {
    var o, up := t.n, ParentOf(z);
    ReplaceReady(s, z, t, y);
    CtxRelinked(s, z, o, y, up);
    ReplacedCells(s, o, y);
    var s1, s', l, r := Relinked(s, o, y, up), Replaced(s, o, y), s.m[o].left, s.m[o].right;
    CtxOutside(s1, s', z, y, up, l, r, y);
  }

  lemma ReplacedRep(s: Store, z: Ctx, t: Tree, y: Node)
    requires t.Br? && t.l.Br? && Apart(z, t) && Rep(s, t, t.n, ParentOf(z)) && RepCtx(s, z, t.n, ParentOf(z))
    requires y in s.m && y !in Elems(t) && y !in CtxElems(z) && CanReplace(s, t.n, y)
    ensures Rep(Replaced(s, t.n, y), Br(t.c, t.l, y, t.r), y, ParentOf(z))
  {
    var o, up, l, r := t.n, ParentOf(z), t.l, t.r;
    assert Rep(s, l, s.m[o].left, o) && Rep(s, r, s.m[o].right, o);
    assert l.n in Elems(l) && (r.Br? ==> r.n in Elems(r));
    assert up != null ==> up in CtxElems(z);
    ReplacedCells(s, o, y);
    var s' := Replaced(s, o, y);
    assert forall n :: n in s.m && n != up ==> Relinked(s, o, y, up).m[n] == s.m[n];
    RepMoved(s, s', l, s.m[o].left, o, y);
    RepMoved(s, s', r, s.m[o].right, o, y);
  }

  lemma ReplacedAt(s: Store, z: Ctx, t: Tree, y: Node)
    requires t.Br? && t.l.Br? && At(s, Fill(z, t)) && y in s.m && y !in Elems(Fill(z, t))
    requires Below(t.l, y.key) && Above(t.r, y.key) && Fits(z, y.key)
    ensures CanReplace(s, t.n, y) && At(Replaced(s, t.n, y), Fill(z, Br(t.c, t.l, y, t.r)))
    ensures t.n in Elems(Fill(z, t)) && Elems(Fill(z, Br(t.c, t.l, y, t.r))) == Elems(Fill(z, t)) - {t.n} + {y}
  {
    var t' := Br(t.c, t.l, y, t.r);
    FillElems(z, t);
    FillElems(z, t');
    Focus(s, z, t);
    ReplaceReady(s, z, t, y);
    ReplacedCtx(s, z, t, y);
    ReplacedRep(s, z, t, y);
    Refill(Replaced(s, t.n, y), z, t');
    FillBst(z, t);
    FillBst(z, t');
  }

  // A node's place in the tree.
  lemma {:induction false} Place(z: Ctx, t: Tree, n: Node) returns (z': Ctx, t': Tree)
    requires n in Elems(t)
    ensures t'.Br? && t'.n == n && Fill(z', t') == Fill(z, t)
    decreases t
  {
    if t.n == n {
      z', t' := z, t;
    } else if n in Elems(t.l) {
      z', t' := Place(LeftOf(t.c, t.n, t.r, z), t.l, n);
    } else {
      z', t' := Place(RightOf(t.c, t.l, t.n, z), t.r, n);
    }
  }

  lemma ChildFields(s: Store, z: Ctx, t: Tree)
    requires t.Br? && At(s, Fill(z, t))
    ensures t.n in s.m && s.m[t.n].left == RootOf(t.l) && s.m[t.n].right == RootOf(t.r)
    ensures s.m[t.n].parent == ParentOf(z) && s.m[t.n].color == t.c
    ensures In(s, ParentOf(z)) && In(s, RootOf(t.l)) && In(s, RootOf(t.r))
  {
    Focus(s, z, t);
  }

  // The successor y of an inner node comes next in the order.
  lemma SuccessorOrder(z: Ctx, t: Tree, a: Ctx, y: Tree)
    requires t.Br? && Bst(Fill(z, t)) && LeftSpine(a) && Fill(a, y) == t.r && y.Br? && y.l.Leaf?
    ensures Below(t.l, y.n.key) && Above(Fill(a, y.r), y.n.key) && Fits(z, y.n.key) && t.n != y.n
    ensures y.n in Elems(Fill(z, t)) && (!a.Top? ==> a.n != t.n)
  {
    FillBst(z, t);
    SpineLeast(a, y);
    FillElems(z, t);
    FillElems(a, y);
    assert y.n in Elems(t.r) && y.n in Elems(t);
    if !a.Top? { assert a.n in CtxElems(a) && a.n in Elems(t.r); }
  }

  lemma SuccessorPlace(z: Ctx, t: Tree, a: Ctx, y: Tree)
    requires t.Br? && Fill(a, y) == t.r && y.Br?
    ensures var zz := Append(a, RightOf(t.c, t.l, t.n, z));
            && Fill(zz, y) == Fill(z, t) && Fill(zz, y.r) == Fill(z, Br(t.c, t.l, t.n, Fill(a, y.r)))
  {
    var b := RightOf(t.c, t.l, t.n, z);
    FillAppend(a, b, y);
    FillAppend(a, b, y.r);
  }

  lemma TakenAndPut(e: set<Node>, o: Node, y: Node)
    requires y in e && o != y
    ensures e - {y} - {o} + {y} == e - {o}
  {
  }

  lemma AppendParent(a: Ctx, b: Ctx)
    ensures ParentOf(Append(a, b)) == if a.Top? then ParentOf(b) else a.n
  {
    match a
    case Top =>
    case LeftOf(_, _, _, _) =>
    case RightOf(_, _, _, _) =>
  }

  // It is unlinked and then put in the node's place.
  lemma InnerStart(s: Store, z: Ctx, t: Tree, a: Ctx, y: Tree)
    requires t.Br? && t.l.Br? && t.r.Br? && At(s, Fill(z, t)) && LeftSpine(a) && Fill(a, y) == t.r && y.Br? && y.l.Leaf?
    ensures var zz := Append(a, RightOf(t.c, t.l, t.n, z));
            && In(s, RootOf(y.r)) && In(s, ParentOf(zz)) && (a.Top? <==> ParentOf(zz) == t.n)
            && y.n in s.m && s.m[y.n].parent == ParentOf(zz) && s.m[y.n].right == RootOf(y.r) && s.m[y.n].color == y.c
            && Unlinked(s, zz, y).m[y.n].parent == ParentOf(zz)
            && CanReplace(Unlinked(s, zz, y), t.n, y.n)
            && At(Replaced(Unlinked(s, zz, y), t.n, y.n), Fill(z, Br(t.c, t.l, y.n, Fill(a, y.r))))
            && Elems(Fill(z, Br(t.c, t.l, y.n, Fill(a, y.r)))) == Elems(Fill(z, t)) - {t.n}
  {
    var zz := Append(a, RightOf(t.c, t.l, t.n, z));
    SuccessorPlace(z, t, a, y);
    AppendParent(a, RightOf(t.c, t.l, t.n, z));
    SuccessorOrder(z, t, a, y);
    ChildFields(s, zz, y);
    UnlinkedAt(s, zz, y);
    var t1 := Br(t.c, t.l, t.n, Fill(a, y.r));
    ReplacedAt(Unlinked(s, zz, y), z, t1, y.n);
    TakenAndPut(Elems(Fill(z, t)), t.n, y.n);
  }

  lemma InnerDone(z: Ctx, t: Tree, a: Ctx, y: Tree) returns (z': Ctx, h: nat)
    requires t.Br? && t.l.Br? && t.r.Br? && WellColored(Fill(z, t)) && Fill(a, y) == t.r && y.Br? && y.l.Leaf?
    ensures Fill(z', y.r) == Fill(z, Br(t.c, t.l, y.n, Fill(a, y.r)))
    ensures if y.c == Red then WellColored(Fill(z', y.r)) else Short(z', y.r, h)
    ensures ParentOf(z') == if a.Top? then y.n else ParentOf(Append(a, RightOf(t.c, t.l, t.n, z)))
  {
    var b, b' := RightOf(t.c, t.l, t.n, z), RightOf(t.c, t.l, y.n, z);
    FillAppend(a, b, y);
    h := UnfillRb(Append(a, b), y, BlackHeight(Fill(z, t)));
    RbCtxSwap(a, t.c, t.l, t.n, y.n, z, y.c, h);
    z' := Append(a, b');
    FillAppend(a, b', y.r);
    h := UnlinkedRb(z', y, h);
  }

  // What RB_REMOVE does to a node with at most one child, up to the label color.
  lemma OuterDone(s: Store, z: Ctx, t: Tree) returns (h: nat)
    requires t.Br? && (t.l.Leaf? || t.r.Leaf?) && At(s, Fill(z, t)) && WellColored(Fill(z, t))
    ensures In(s, RootOf(OnlyChild(t))) && In(s, ParentOf(z)) && At(Unlinked(s, z, t), Fill(z, OnlyChild(t)))
    ensures Elems(Fill(z, OnlyChild(t))) == Elems(Fill(z, t)) - {t.n}
    ensures if t.c == Red then WellColored(Fill(z, OnlyChild(t))) else Short(z, OnlyChild(t), h)
  {
    UnlinkedAt(s, z, t);
    h := UnfillRb(z, t, BlackHeight(Fill(z, t)));
    h := UnlinkedRb(z, t, h);
  }

  // The store may forget nodes that the tree does not hold.
  lemma Forget(s: Store, s': Store, t: Tree)
    requires At(s, t) && s'.root == s.root && Elems(t) <= s'.m.Keys
    requires forall n :: n in s'.m ==> n in s.m && s'.m[n] == s.m[n]
    ensures At(s', t)
  {
    RepAgree(s, s', t, s.root, null);
  }

  // ---------- The height bound of the header comment ----------

  function Height(t: Tree): nat {
    match t
    case Leaf => 0
    case Br(_, l, _, r) => 1 + (if Height(l) < Height(r) then Height(r) else Height(l))
  }

  lemma {:induction false} RbSize(t: Tree, h: nat)
    requires Rb(t, h) && Distinct(t)
    ensures Pow2(h) <= |Elems(t)| + 1 && Height(t) <= 2 * h + (if IsRed(t) then 1 else 0)
  {
    if t.Br? {
      var k := if t.c == Red then h else h - 1;
      RbSize(t.l, k);
      RbSize(t.r, k);
      assert |Elems(t)| == |Elems(t.l) + {t.n}| + |Elems(t.r)| == |Elems(t.l)| + 1 + |Elems(t.r)|;
    }
  }

  lemma {:induction false} Pow2Double(h: nat)
    ensures Pow2(2 * h) == Pow2(h) * Pow2(h)
  {
    if h > 0 {
      Pow2Double(h - 1);
      assert Pow2(2 * h) == 2 * Pow2(2 * h - 1) == 4 * Pow2(2 * (h - 1));
    }
  }

  lemma {:induction false} Pow2Monotone(a: nat, b: nat)
    requires a <= b
    ensures Pow2(a) <= Pow2(b)
  {
    if a < b { Pow2Monotone(a, b - 1); }
  }

  // "The maximum height of a red-black tree is 2lg (n+1)": 2 to the height is at most (n+1) squared.
  lemma HeightBound(t: Tree)
    requires Bst(t) && WellColored(t)
    ensures Pow2(Height(t)) <= (|Elems(t)| + 1) * (|Elems(t)| + 1)
  {
    var h, n := BlackHeight(t), |Elems(t)| + 1;
    BstDistinct(t);
    RbSize(t, h);
    Pow2Monotone(Height(t), 2 * h);
    Pow2Double(h);
    SquareMonotone(Pow2(h), n);
  }

  lemma SquareMonotone(a: nat, b: nat)
    requires a <= b
    ensures a * a <= b * b
  {
    assert b * b - a * a == (b - a) * (b + a);
  }

  // ---------- Walking in order ----------

  // Every key outside the focus lies on one side of all keys that fit the focus.
  lemma {:induction false} SameSide(z: Ctx, j: int, k: int)
    requires BstCtx(z) && Fits(z, j) && Fits(z, k)
    ensures forall m :: m in CtxElems(z) ==> (m.key < j <==> m.key < k) && (j < m.key <==> k < m.key)
  {
    if !z.Top? { SameSide(z.up, j, k); SameSide(z.up, z.n.key, j); }
  }

  ghost predicate IsNext(s: set<Node>, k: int, n: Node?) {
    if n == null then forall m :: m in s ==> m.key <= k
    else n in s && k < n.key && forall m :: m in s && k < m.key ==> n.key <= m.key
  }

  // The next key after those of a left subtree is its parent's.
  lemma NextIsParent(z: Ctx, t: Tree, k: int)
    requires z.LeftOf? && Bst(Fill(z, t)) && Fits(z, k) && (forall m :: m in Elems(t) ==> m.key <= k)
    ensures IsNext(Elems(Fill(z, t)), k, z.n)
  {
    FillBst(z, t);
    FillElems(z, t);
    SameSide(z.up, k, z.n.key);
  }

  lemma NextIsNone(t: Tree, k: int)
    requires forall m :: m in Elems(t) ==> m.key <= k
    ensures IsNext(Elems(t), k, null)
  {
  }

  // The next key after a node is the least one of its right subtree.
  lemma NextIsLeast(z: Ctx, t: Tree, a: Ctx, y: Tree)
    requires t.Br? && Bst(Fill(z, t)) && LeftSpine(a) && Fill(a, y) == t.r && y.Br? && y.l.Leaf?
    ensures IsNext(Elems(Fill(z, t)), t.n.key, y.n)
  {
    hide Fill, LeftSpine;
    FillBst(z, t);
    FillElems(z, t);
    FillElems(a, y);
    SpineLeast(a, y);
    assert t.n in Elems(t) && y.n in Elems(t.r) && y.n in Elems(t);
    SameSide(z, t.n.key, y.n.key);
  }

  lemma ClimbRight(z: Ctx, t: Tree, k: int)
    requires z.RightOf? && Bst(Fill(z, t)) && t.Br? && Fits(z, k) && (forall m :: m in Elems(t) ==> m.key <= k)
    ensures forall m :: m in Elems(Up(z, t)) ==> m.key <= k
  {
    FillBst(z, t);
    assert t.n in Elems(t) && Fits(z, t.n.key);
  }

  lemma ParentSide(s: Store, z: Ctx, t: Tree)
    requires At(s, Fill(z, t)) && t.Br?
    ensures !z.Top? ==> z.n in s.m && (s.m[z.n].left == t.n <==> z.LeftOf?) && (s.m[z.n].right == t.n <==> z.RightOf?)
  {
    Focus(s, z, t);
    if z.LeftOf? && z.r.Br? { assert z.r.n in Elems(z.r); }
  }

  class RbHead {
    var root: Node?
    ghost var nodes: set<Node>
    ghost var tree: Tree

    ghost predicate Valid()
      reads this, nodes
    {
      nodes == Elems(tree) && At(Snap(), tree) && WellColored(tree)
    }

    // RB_INIT
    constructor ()
      ensures Valid() && nodes == {}
    {
      root, nodes, tree := null, {}, Leaf;
    }

    ghost function Snap(): Store
      reads this`root, this`nodes, nodes
    {
      Store(root, map n | n in nodes :: Cell(n.left, n.right, n.parent, n.color))
    }

    // RB_LEFT, RB_RIGHT, RB_PARENT and RB_COLOR as assignment targets.
    method PutLeft(n: Node, v: Node?)
      requires n in nodes
      modifies n`left
      ensures Snap() == SetL(old(Snap()), n, v)
    { n.left := v; }

    method PutRight(n: Node, v: Node?)
      requires n in nodes
      modifies n`right
      ensures Snap() == SetR(old(Snap()), n, v)
    { n.right := v; }

    method PutParent(n: Node, v: Node?)
      requires n in nodes
      modifies n`parent
      ensures Snap() == SetP(old(Snap()), n, v)
    { n.parent := v; }

    method PutColor(n: Node, c: Color)
      requires n in nodes
      modifies n`color
      ensures Snap() == SetC(old(Snap()), n, c)
    { n.color := c; }

    // The lines that RB_ROTATE_LEFT, RB_ROTATE_RIGHT and RB_REMOVE share: hang "now" where
    // "was" hangs below "parent", or at the root.
    method Relink(was: Node, now: Node?, parent: Node?)
      requires In(Snap(), parent)
      modifies this`root, nodes
      ensures Snap() == Relinked(old(Snap()), was, now, parent)
    {
      if parent != null {
        if was == parent.left {
          PutLeft(parent, now);
        } else {
          PutRight(parent, now);
        }
      } else {
        root := now;
      }
    }

    method RotateLeft(elm: Node)
      requires CanRotL(Snap(), elm)
      modifies this`root, nodes
      ensures Snap() == RotatedL(old(Snap()), elm)
    {
      var tmp := elm.right;
      PutRight(elm, tmp.left);
      if elm.right != null {
        PutParent(tmp.left, elm);
      }
      PutParent(tmp, elm.parent);
      Relink(elm, tmp, tmp.parent);
      PutLeft(tmp, elm);
      PutParent(elm, tmp);
    }

    method RotateRight(elm: Node)
      requires CanRotR(Snap(), elm)
      modifies this`root, nodes
      ensures Snap() == RotatedR(old(Snap()), elm)
    {
      var tmp := elm.left;
      PutLeft(elm, tmp.right);
      if elm.left != null {
        PutParent(tmp.right, elm);
      }
      PutParent(tmp, elm.parent);
      Relink(elm, tmp, tmp.parent);
      PutRight(tmp, elm);
      PutParent(elm, tmp);
    }

    // The last three lines of the round for a parent that is a left child.
    method TurnL(parent: Node, gparent: Node, ghost z: Ctx, ghost t: Tree, ghost h: nat) returns (ghost z': Ctx)
      requires RedFocus(z, t, h) && z.LeftOf? && z.c == Red && z.up.LeftOf? && !IsRed(z.up.r) && At(Snap(), Fill(z, t))
      requires parent == z.n && gparent == z.up.n
      modifies this`root, nodes
      ensures RedFocus(z', t, h) && Depth(z') < Depth(z)
      ensures At(Snap(), Fill(z', t)) && Elems(Fill(z', t)) == Elems(Fill(z, t))
    {
      z' := TurnedL(Snap(), z, t, h);
      PutColor(parent, Black);
      PutColor(gparent, Red);
      RotateRight(gparent);
    }

    // The round for a parent that is a left child.
    method InsertRoundL(elm: Node, ghost z: Ctx, ghost t: Tree, ghost h: nat)
      returns (cur: Node, ghost z': Ctx, ghost t': Tree, ghost h': nat)
      requires RedFocus(z, t, h) && t.n == elm && !z.Top? && z.c == Red && z.up.LeftOf? && At(Snap(), Fill(z, t))
      modifies this`root, nodes
      ensures RedFocus(z', t', h') && t'.n == cur && Depth(z') < Depth(z)
      ensures At(Snap(), Fill(z', t')) && Elems(Fill(z', t')) == Elems(Fill(z, t))
    {
      InsertReads(Snap(), z, t);
      cur, z', t', h' := elm, z, t, h;
      var parent := elm.parent;
      var gparent := parent.parent;
      var tmp := gparent.right;
      if tmp != null && tmp.color == Red {
        t' := UncleRedL(Snap(), z, t, h);
        PutColor(tmp, Black);
        PutColor(parent, Black);
        PutColor(gparent, Red);
        cur, z', h' := gparent, z.up.up, h + 1;
      } else {
        if parent.right == elm {
          z', t' := StraightenedL(Snap(), z, t, h);
          RotateLeft(parent);
          parent, cur := elm, parent;
        }
        z' := TurnL(parent, gparent, z', t', h);
      }
    }

    // The last three lines of the round for a parent that is a right child.
    method TurnR(parent: Node, gparent: Node, ghost z: Ctx, ghost t: Tree, ghost h: nat) returns (ghost z': Ctx)
      requires RedFocus(z, t, h) && z.RightOf? && z.c == Red && z.up.RightOf? && !IsRed(z.up.l)
        && At(Snap(), Fill(z, t))
      requires parent == z.n && gparent == z.up.n
      modifies this`root, nodes
      ensures RedFocus(z', t, h) && Depth(z') < Depth(z)
      ensures At(Snap(), Fill(z', t)) && Elems(Fill(z', t)) == Elems(Fill(z, t))
    {
      z' := TurnedR(Snap(), z, t, h);
      PutColor(parent, Black);
      PutColor(gparent, Red);
      RotateLeft(gparent);
    }

    // The round for a parent that is a right child.
    method InsertRoundR(elm: Node, ghost z: Ctx, ghost t: Tree, ghost h: nat)
      returns (cur: Node, ghost z': Ctx, ghost t': Tree, ghost h': nat)
      requires RedFocus(z, t, h) && t.n == elm && !z.Top? && z.c == Red && z.up.RightOf? && At(Snap(), Fill(z, t))
      modifies this`root, nodes
      ensures RedFocus(z', t', h') && t'.n == cur && Depth(z') < Depth(z)
      ensures At(Snap(), Fill(z', t')) && Elems(Fill(z', t')) == Elems(Fill(z, t))
    {
      InsertReads(Snap(), z, t);
      cur, z', t', h' := elm, z, t, h;
      var parent := elm.parent;
      var gparent := parent.parent;
      var tmp := gparent.left;
      if tmp != null && tmp.color == Red {
        t' := UncleRedR(Snap(), z, t, h);
        PutColor(tmp, Black);
        PutColor(parent, Black);
        PutColor(gparent, Red);
        cur, z', h' := gparent, z.up.up, h + 1;
      } else {
        if parent.left == elm {
          z', t' := StraightenedR(Snap(), z, t, h);
          RotateRight(parent);
          parent, cur := elm, parent;
        }
        z' := TurnR(parent, gparent, z', t', h);
      }
    }

    // RB_INSERT_COLOR. elm is red and the tree is well coloured but for elm's own parent
    // (or elm being a red root).
    method InsertColor(elm0: Node, ghost z0: Ctx, ghost t0: Tree, ghost h0: nat) returns (ghost tree': Tree)
      requires RedFocus(z0, t0, h0) && t0.n == elm0 && At(Snap(), Fill(z0, t0))
      modifies this`root, nodes
      ensures At(Snap(), tree') && Elems(tree') == Elems(Fill(z0, t0)) && WellColored(tree')
    {
      ghost var z: Ctx, t: Tree, h: nat := z0, t0, h0;
      var elm := elm0;
      LoopReads(Snap(), z, t);
      while elm.parent != null && elm.parent.color == Red
        invariant RedFocus(z, t, h) && t.n == elm && At(Snap(), Fill(z, t)) && Elems(Fill(z, t)) == Elems(Fill(z0, t0))
        invariant elm in nodes && elm.parent == ParentOf(z)
        invariant !z.Top? ==> z.n in nodes && z.n.color == z.c && z.n.parent == ParentOf(z.up)
        invariant !z.Top? && !z.up.Top? ==> z.up.n in nodes && (z.up.n.left == z.n <==> z.up.LeftOf?)
        decreases Depth(z)
      {
        assert z.c == Red && RbCtx(z.up, Red, h);
        if elm.parent == elm.parent.parent.left {
          elm, z, t, h := InsertRoundL(elm, z, t, h);
        } else {
          elm, z, t, h := InsertRoundR(elm, z, t, h);
        }
        LoopReads(Snap(), z, t);
      }
      tree' := InsertDone(Snap(), z, t, h);
      PutColor(root, Black);
    }

    // The search loop of RB_INSERT: the node with an equal key, or the hole it belongs in.
    method Descend(k: int) returns (tmp: Node?, parent: Node?, comp: int, ghost z: Ctx, ghost t: Tree)
      requires Valid()
      ensures Fill(z, t) == tree && tmp == RootOf(t) && Fits(z, k) && parent == ParentOf(z)
      ensures if tmp != null then tmp in nodes && tmp.key == k else forall m :: m in nodes ==> m.key != k
      ensures tmp == null && parent != null ==> parent in nodes && comp == (if z.LeftOf? then -1 else 1)
    {
      tmp, parent, comp := root, null, 0;
      z, t := Top, tree;
      while tmp != null
        invariant Fill(z, t) == tree && tmp == RootOf(t) && parent == ParentOf(z) && Fits(z, k)
        invariant Rep(Snap(), t, tmp, parent)
        invariant parent != null ==> parent in nodes && comp == (if z.LeftOf? then -1 else 1)
        decreases t
      {
        comp := Compare(k, tmp.key);
        if comp < 0 {
          parent, z, t := tmp, LeftOf(t.c, t.n, t.r, z), t.l;
          tmp := tmp.left;
        } else if comp > 0 {
          parent, z, t := tmp, RightOf(t.c, t.l, t.n, z), t.r;
          tmp := tmp.right;
        } else {
          return;
        }
      }
      NotStored(z, k);
    }

    // RB_INSERT: the new node is stored, or the node with an equal key, which may be elm
    // itself, is returned and nothing changes.
    method Insert(elm: Node) returns (existing: Node?)
      requires Valid()
      modifies this, nodes, elm
      ensures Valid()
      ensures existing == null <==> forall m :: m in old(nodes) ==> m.key != elm.key
      ensures existing == null ==> nodes == old(nodes) + {elm}
      ensures existing != null ==> existing in old(nodes) && existing.key == elm.key
      ensures existing != null ==> nodes == old(nodes) && tree == old(tree) && Snap() == old(Snap())
    {
      var tmp, parent, comp;
      ghost var z, t;
      tmp, parent, comp, z, t := Descend(elm.key);
      existing := tmp;
      if tmp == null {
        InsertNew(elm, parent, comp, z);
      }
    }

    // RB_INSERT after its search loop.
    method InsertNew(elm: Node, parent: Node?, comp: int, ghost z: Ctx)
      requires Valid() && elm !in nodes && Fill(z, Leaf) == tree && Fits(z, elm.key) && parent == ParentOf(z)
      requires parent != null ==> parent in nodes && comp == (if z.LeftOf? then -1 else 1)
      modifies this, nodes, elm
      ensures Valid() && nodes == old(nodes) + {elm}
    {
      hide At;
      hide WellColored;
      hide RedFocus;
      hide Fits;
      hide Fill;
      hide Elems;
      ghost var h := RedLeaf(z, elm);
      Link(elm, parent, comp, z);
      tree := InsertColor(elm, z, Br(Red, Leaf, elm, Leaf), h);
    }

    // RB_SET and the link from the parent.
    method Link(elm: Node, parent: Node?, comp: int, ghost z: Ctx)
      requires At(Snap(), Fill(z, Leaf)) && elm !in nodes && Elems(Fill(z, Leaf)) == nodes
      requires Fits(z, elm.key) && parent == ParentOf(z)
      requires parent != null ==> parent in nodes && comp == (if z.LeftOf? then -1 else 1)
      modifies this`root, this`nodes, nodes, elm
      ensures nodes == old(nodes) + {elm} && At(Snap(), Fill(z, Br(Red, Leaf, elm, Leaf)))
    {
      ghost var s := Snap();
      elm.parent := parent;
      elm.left, elm.right := null, null;
      elm.color := Red;
      nodes := nodes + {elm};
      ghost var s1 := Snap();
      assert s1 == s.(m := s.m[elm := Cell(null, null, parent, Red)]);
      if parent != null {
        if comp < 0 {
          PutLeft(parent, elm);
        } else {
          PutRight(parent, elm);
        }
      } else {
        root := elm;
      }
      Attached(s, z, elm, s1, Snap());
    }

    // RB_FIND
    method Find(k: int) returns (tmp: Node?)
      requires Valid()
      ensures if tmp != null then tmp in nodes && tmp.key == k else forall m :: m in nodes ==> m.key != k
    {
      tmp := root;
      ghost var z, t := Top, tree;
      while tmp != null
        invariant Fill(z, t) == tree && tmp == RootOf(t) && Fits(z, k) && Rep(Snap(), t, tmp, ParentOf(z))
        decreases t
      {
        var comp := Compare(k, tmp.key);
        if comp < 0 {
          z, t := LeftOf(t.c, t.n, t.r, z), t.l;
          tmp := tmp.left;
        } else if comp > 0 {
          z, t := RightOf(t.c, t.l, t.n, z), t.r;
          tmp := tmp.right;
        } else {
          return;
        }
      }
      NotStored(z, k);
    }

    // RB_NFIND: the least node whose key is at least k.
    method Nfind(k: int) returns (res: Node?)
      requires Valid()
      ensures res == null ==> forall m :: m in nodes ==> m.key < k
      ensures res != null ==> res in nodes && k <= res.key && forall m :: m in nodes && k <= m.key ==> res.key <= m.key
    {
      var tmp := root;
      res := null;
      ghost var z, t := Top, tree;
      while tmp != null
        invariant Fill(z, t) == tree && tmp == RootOf(t) && Rep(Snap(), t, tmp, ParentOf(z))
        invariant res != null ==> res in nodes && k <= res.key && Below(t, res.key)
        invariant forall m :: m in nodes && m !in Elems(t) && k <= m.key ==> res != null && res.key <= m.key
        decreases t
      {
        var comp := Compare(k, tmp.key);
        FillBst(z, t);
        FillElems(z, t);
        if comp < 0 {
          res := tmp;
          z, t := LeftOf(t.c, t.n, t.r, z), t.l;
          tmp := tmp.left;
        } else if comp > 0 {
          z, t := RightOf(t.c, t.l, t.n, z), t.r;
          tmp := tmp.right;
        } else {
          return tmp;
        }
      }
    }

    // One round of RB_REMOVE_COLOR for a node that is a left child, in three pieces. done
    // means that the code breaks out of the loop.
    method RemoveRoundL(parent: Node, ghost z: Ctx, ghost t: Tree, ghost h: nat)
      returns (done: bool, ghost z': Ctx, ghost t': Tree, ghost h': nat)
      requires z.LeftOf? && !IsRed(t) && Short(z, t, h) && At(Snap(), Fill(z, t)) && parent == z.n
      modifies this`root, nodes
      ensures At(Snap(), Fill(z', t')) && Elems(Fill(z', t')) == Elems(Fill(z, t))
      ensures if done then z'.Top? && WellColored(t') else Short(z', t', h') && t'.Br? && t'.n == parent
      ensures !done ==> Depth(z') < Depth(z) || (Depth(z') == Depth(z) && IsRed(t'))
    {
      z', t', h' := z, t, h;
      RemoveReadsL(Snap(), z', t, h);
      var tmp := parent.right;
      if tmp.color == Red {
        tmp, z' := TurnRedSiblingL(parent, z, t, h);
        RemoveReadsL(Snap(), z', t, h);
      }
      if (tmp.left == null || tmp.left.color == Black) && (tmp.right == null || tmp.right.color == Black) {
        t', h' := NephewsBlackL(Snap(), z', t, h);
        PutColor(tmp, Red);
        done, z' := false, z'.up;
      } else {
        if tmp.right == null || tmp.right.color == Black {
          tmp, z' := TurnNephewL(parent, tmp, z', t, h);
        }
        t' := TurnParentL(parent, tmp, z', t, h);
        done, z' := true, Top;
      }
    }

    method TurnRedSiblingL(parent: Node, ghost z: Ctx, ghost t: Tree, ghost h: nat) returns (tmp: Node, ghost z': Ctx)
      requires z.LeftOf? && !IsRed(t) && Short(z, t, h) && At(Snap(), Fill(z, t)) && IsRed(z.r) && parent == z.n
      modifies this`root, nodes
      ensures z'.LeftOf? && z'.n == parent && z'.r.Br? && tmp == z'.r.n && !IsRed(z'.r) && Short(z', t, h)
      ensures z'.c == Red && Depth(z') == Depth(z) + 1
      ensures At(Snap(), Fill(z', t)) && Elems(Fill(z', t)) == Elems(Fill(z, t))
    {
      RemoveReadsL(Snap(), z, t, h);
      tmp := parent.right;
      z' := SiblingRedL(Snap(), z, t, h);
      PutColor(tmp, Black);
      PutColor(parent, Red);
      RotateLeft(parent);
      RemoveReadsL(Snap(), z', t, h);
      tmp := parent.right;
    }

    method TurnNephewL(parent: Node, sibling: Node, ghost z: Ctx, ghost t: Tree, ghost h: nat)
      returns (tmp: Node, ghost z': Ctx)
      requires z.LeftOf? && !IsRed(t) && Short(z, t, h) && At(Snap(), Fill(z, t)) && parent == z.n
      requires z.r.Br? && sibling == z.r.n && !IsRed(z.r) && IsRed(z.r.l) && !IsRed(z.r.r)
      modifies this`root, nodes
      ensures z'.LeftOf? && z'.n == parent && z'.r.Br? && tmp == z'.r.n && !IsRed(z'.r) && IsRed(z'.r.r)
      ensures Short(z', t, h) && At(Snap(), Fill(z', t)) && Elems(Fill(z', t)) == Elems(Fill(z, t))
    {
      RemoveReadsL(Snap(), z, t, h);
      z' := NearRedL(Snap(), z, t, h);
      var oleft := sibling.left;
      if oleft != null {
        PutColor(oleft, Black);
      }
      PutColor(sibling, Red);
      RotateRight(sibling);
      RemoveReadsL(Snap(), z', t, h);
      tmp := parent.right;
    }

    method TurnParentL(parent: Node, tmp: Node, ghost z: Ctx, ghost t: Tree, ghost h: nat) returns (ghost t': Tree)
      requires z.LeftOf? && !IsRed(t) && Short(z, t, h) && At(Snap(), Fill(z, t)) && parent == z.n
      requires z.r.Br? && tmp == z.r.n && !IsRed(z.r) && IsRed(z.r.r)
      modifies this`root, nodes
      ensures WellColored(t') && At(Snap(), t') && Elems(t') == Elems(Fill(z, t))
    {
      RemoveReadsL(Snap(), z, t, h);
      t' := FarRedL(Snap(), z, t, h);
      PutColor(tmp, parent.color);
      PutColor(parent, Black);
      if tmp.right != null {
        PutColor(tmp.right, Black);
      }
      RotateLeft(parent);
    }

    // One round of RB_REMOVE_COLOR for a node that is a right child, in three pieces. done
    // means that the code breaks out of the loop.
    method RemoveRoundR(parent: Node, ghost z: Ctx, ghost t: Tree, ghost h: nat)
      returns (done: bool, ghost z': Ctx, ghost t': Tree, ghost h': nat)
      requires z.RightOf? && !IsRed(t) && Short(z, t, h) && At(Snap(), Fill(z, t)) && parent == z.n
      modifies this`root, nodes
      ensures At(Snap(), Fill(z', t')) && Elems(Fill(z', t')) == Elems(Fill(z, t))
      ensures if done then z'.Top? && WellColored(t') else Short(z', t', h') && t'.Br? && t'.n == parent
      ensures !done ==> Depth(z') < Depth(z) || (Depth(z') == Depth(z) && IsRed(t'))
    {
      z', t', h' := z, t, h;
      RemoveReadsR(Snap(), z', t, h);
      var tmp := parent.left;
      if tmp.color == Red {
        tmp, z' := TurnRedSiblingR(parent, z, t, h);
        RemoveReadsR(Snap(), z', t, h);
      }
      if (tmp.left == null || tmp.left.color == Black) && (tmp.right == null || tmp.right.color == Black) {
        t', h' := NephewsBlackR(Snap(), z', t, h);
        PutColor(tmp, Red);
        done, z' := false, z'.up;
      } else {
        if tmp.left == null || tmp.left.color == Black {
          tmp, z' := TurnNephewR(parent, tmp, z', t, h);
        }
        t' := TurnParentR(parent, tmp, z', t, h);
        done, z' := true, Top;
      }
    }

    method TurnRedSiblingR(parent: Node, ghost z: Ctx, ghost t: Tree, ghost h: nat) returns (tmp: Node, ghost z': Ctx)
      requires z.RightOf? && !IsRed(t) && Short(z, t, h) && At(Snap(), Fill(z, t)) && IsRed(z.l) && parent == z.n
      modifies this`root, nodes
      ensures z'.RightOf? && z'.n == parent && z'.l.Br? && tmp == z'.l.n && !IsRed(z'.l) && Short(z', t, h)
      ensures z'.c == Red && Depth(z') == Depth(z) + 1
      ensures At(Snap(), Fill(z', t)) && Elems(Fill(z', t)) == Elems(Fill(z, t))
    {
      RemoveReadsR(Snap(), z, t, h);
      tmp := parent.left;
      z' := SiblingRedR(Snap(), z, t, h);
      PutColor(tmp, Black);
      PutColor(parent, Red);
      RotateRight(parent);
      RemoveReadsR(Snap(), z', t, h);
      tmp := parent.left;
    }

    method TurnNephewR(parent: Node, sibling: Node, ghost z: Ctx, ghost t: Tree, ghost h: nat)
      returns (tmp: Node, ghost z': Ctx)
      requires z.RightOf? && !IsRed(t) && Short(z, t, h) && At(Snap(), Fill(z, t)) && parent == z.n
      requires z.l.Br? && sibling == z.l.n && !IsRed(z.l) && IsRed(z.l.r) && !IsRed(z.l.l)
      modifies this`root, nodes
      ensures z'.RightOf? && z'.n == parent && z'.l.Br? && tmp == z'.l.n && !IsRed(z'.l) && IsRed(z'.l.l)
      ensures Short(z', t, h) && At(Snap(), Fill(z', t)) && Elems(Fill(z', t)) == Elems(Fill(z, t))
    {
      RemoveReadsR(Snap(), z, t, h);
      z' := NearRedR(Snap(), z, t, h);
      var oright := sibling.right;
      if oright != null {
        PutColor(oright, Black);
      }
      PutColor(sibling, Red);
      RotateLeft(sibling);
      RemoveReadsR(Snap(), z', t, h);
      tmp := parent.left;
    }

    method TurnParentR(parent: Node, tmp: Node, ghost z: Ctx, ghost t: Tree, ghost h: nat) returns (ghost t': Tree)
      requires z.RightOf? && !IsRed(t) && Short(z, t, h) && At(Snap(), Fill(z, t)) && parent == z.n
      requires z.l.Br? && tmp == z.l.n && !IsRed(z.l) && IsRed(z.l.l)
      modifies this`root, nodes
      ensures WellColored(t') && At(Snap(), t') && Elems(t') == Elems(Fill(z, t))
    {
      RemoveReadsR(Snap(), z, t, h);
      t' := FarRedR(Snap(), z, t, h);
      PutColor(tmp, parent.color);
      PutColor(parent, Black);
      if tmp.left != null {
        PutColor(tmp.left, Black);
      }
      RotateRight(parent);
    }

    // One round of RB_REMOVE_COLOR.
    method RemoveRound(parent0: Node, elm0: Node?, ghost z: Ctx, ghost t: Tree, ghost h: nat)
      returns (elm: Node?, parent: Node?, done: bool, ghost z': Ctx, ghost t': Tree, ghost h': nat)
      requires !z.Top? && !IsRed(t) && Short(z, t, h) && At(Snap(), Fill(z, t)) && parent0 == z.n && elm0 == RootOf(t)
      requires parent0 in nodes && (t.Br? || SiblingOf(z).Br? ==> (parent0.left == elm0 <==> z.LeftOf?))
      modifies this`root, nodes
      ensures At(Snap(), Fill(z', t')) && Elems(Fill(z', t')) == Elems(Fill(z, t)) && elm == RootOf(t')
      ensures if done then z'.Top? && WellColored(t') else Short(z', t', h') && parent == ParentOf(z')
      ensures !done ==> Depth(z') < Depth(z) || (Depth(z') == Depth(z) && IsRed(t'))
    {
      SiblingThere(z, h);
      if parent0.left == elm0 {
        done, z', t', h' := RemoveRoundL(parent0, z, t, h);
      } else {
        done, z', t', h' := RemoveRoundR(parent0, z, t, h);
      }
      RemoveLoopReads(Snap(), z', t');
      if done {
        elm, parent := root, parent0;
      } else {
        elm := parent0;
        parent := elm.parent;
      }
    }

    // RB_REMOVE_COLOR. The subtree at elm, which may be empty, is one black node short.
    method RemoveColor(parent0: Node?, elm0: Node?, ghost z0: Ctx, ghost t0: Tree, ghost h0: nat)
      returns (ghost tree': Tree)
      requires Short(z0, t0, h0) && At(Snap(), Fill(z0, t0)) && elm0 == RootOf(t0) && parent0 == ParentOf(z0)
      modifies this`root, nodes
      ensures At(Snap(), tree') && Elems(tree') == Elems(Fill(z0, t0)) && WellColored(tree')
    {
      hide Rep;
      hide Bst;
      hide Fill;
      hide Elems;
      hide Short;
      hide WellColored;
      hide Blacken;
      ghost var z: Ctx, t: Tree, h: nat := z0, t0, h0;
      var elm, parent, done := elm0, parent0, false;
      RemoveLoopReads(Snap(), z, t);
      while !done && (elm == null || elm.color == Black) && elm != root
        invariant At(Snap(), Fill(z, t)) && Elems(Fill(z, t)) == Elems(Fill(z0, t0))
        invariant if done then z.Top? && WellColored(t) else Short(z, t, h)
        invariant elm == RootOf(t) && (elm != null ==> elm in nodes && elm.color == t.c)
        invariant !done ==> parent == ParentOf(z) && In(Snap(), parent) && (elm == root <==> z.Top?)
        invariant !done && !z.Top? && (t.Br? || SiblingOf(z).Br?) ==> (z.n.left == elm <==> z.LeftOf?)
        decreases !done, Depth(z), !IsRed(t)
      {
        elm, parent, done, z, t, h := RemoveRound(parent, elm, z, t, h);
        RemoveLoopReads(Snap(), z, t);
      }
      if done { RoundDone(z, t); } else { ShortDone(z, t, h); }
      RemoveDone(Snap(), z, t);
      if elm != null {
        PutColor(elm, Black);
      }
      tree' := Fill(z, Blacken(t));
    }

    // RB_REMOVE: unlinking a node that has at most one child.
    method Unlink(elm: Node, child: Node?, ghost z: Ctx, ghost t: Tree) returns (parent: Node?, color: Color)
      requires t.Br? && t.n == elm && (t.l.Leaf? || t.r.Leaf?) && child == RootOf(OnlyChild(t))
      requires elm in nodes && elm.parent == ParentOf(z) && elm.color == t.c && In(Snap(), child)
        && In(Snap(), elm.parent)
      modifies this`root, nodes
      ensures parent == ParentOf(z) && color == t.c && Snap() == Unlinked(old(Snap()), z, t)
    {
      parent := elm.parent;
      color := elm.color;
      if child != null {
        PutParent(child, parent);
      }
      Relink(elm, child, parent);
    }

    method CopyFields(elm: Node, gone: Node)
      requires elm in nodes && gone in nodes
      modifies elm
      ensures Snap() == (var s := old(Snap()); s.(m := s.m[elm := s.m[gone]]))
    {
      elm.left, elm.right, elm.parent, elm.color := gone.left, gone.right, gone.parent, gone.color;
    }

    method AdoptChildren(gone: Node, elm: Node)
      requires gone in nodes && gone.left != null && gone.left in nodes && gone.left != gone && In(Snap(), gone.right)
      modifies nodes
      ensures var s := old(Snap()); var s1 := SetP(s, s.m[gone].left, elm);
              Snap() == if s.m[gone].right != null then SetP(s1, s.m[gone].right, elm) else s1
    {
      PutParent(gone.left, elm);
      if gone.right != null {
        PutParent(gone.right, elm);
      }
    }

    // RB_REMOVE: putting elm in the place of old.
    method Replace(gone: Node, elm: Node)
      requires CanReplace(Snap(), gone, elm)
      modifies this`root, nodes
      ensures Snap() == Replaced(old(Snap()), gone, elm)
    {
      CopyFields(elm, gone);
      Relink(gone, elm, gone.parent);
      AdoptChildren(gone, elm);
    }

    // RB_REMOVE: the walk to the in-order successor.
    method Successor(gone: Node, ghost z: Ctx, ghost t: Tree) returns (elm: Node, ghost a: Ctx, ghost y: Tree)
      requires t.Br? && t.n == gone && t.r.Br? && At(Snap(), Fill(z, t))
      ensures LeftSpine(a) && Fill(a, y) == t.r && y.Br? && y.l.Leaf? && y.n == elm
    {
      ChildFields(Snap(), z, t);
      elm := gone.right;
      a, y := Top, t.r;
      assert Rep(Snap(), y, elm, gone) by { Focus(Snap(), z, t); }
      while elm.left != null
        invariant LeftSpine(a) && Fill(a, y) == t.r && y.Br? && y.n == elm
        invariant elm in nodes && Rep(Snap(), y, elm, elm.parent)
        decreases y
      {
        a, y := LeftOf(y.c, y.n, y.r, a), y.l;
        elm := elm.left;
      }
    }

    // RB_REMOVE of a node with two children, up to the label color.
    method RemoveInner(gone: Node, ghost z: Ctx, ghost t: Tree)
      returns (child: Node?, parent: Node?, color: Color, ghost z': Ctx, ghost t': Tree, ghost h: nat)
      requires t.Br? && t.n == gone && t.l.Br? && t.r.Br? && At(Snap(), Fill(z, t)) && WellColored(Fill(z, t))
      modifies this`root, nodes
      ensures At(Snap(), Fill(z', t')) && Elems(Fill(z', t')) == Elems(Fill(z, t)) - {gone}
      ensures if color == Red then WellColored(Fill(z', t')) else Short(z', t', h)
      ensures child == RootOf(t') && parent == ParentOf(z')
    {
      var elm;
      ghost var a, y;
      elm, a, y := Successor(gone, z, t);
      ghost var zz := Append(a, RightOf(t.c, t.l, gone, z));
      t' := y.r;
      InnerStart(Snap(), z, t, a, y);
      child := elm.right;
      parent, color := Unlink(elm, child, zz, y);
      if elm.parent == gone {
        parent := elm;
      }
      Replace(gone, elm);
      z', h := InnerDone(z, t, a, y);
    }

    // RB_REMOVE
    method Remove(elm: Node) returns (removed: Node)
      requires Valid() && elm in nodes
      modifies this, nodes
      ensures Valid() && removed == elm && nodes == old(nodes) - {elm}
    {
      hide Rep;
      hide Bst;
      ghost var z, t := Place(Top, tree, elm);
      ChildFields(Snap(), z, t);
      var child, parent, color;
      ghost var z', t', h, tree';
      if elm.left == null || elm.right == null {
        child := if elm.left == null then elm.right else elm.left;
        h := OuterDone(Snap(), z, t);
        z', t' := z, OnlyChild(t);
        parent, color := Unlink(elm, child, z, t);
      } else {
        child, parent, color, z', t', h := RemoveInner(elm, z, t);
      }
      tree' := Fill(z', t');
      if color == Black {
        tree' := RemoveColor(parent, child, z', t', h);
      }
      ghost var s := Snap();
      nodes := nodes - {elm};
      tree := tree';
      Forget(s, Snap(), tree);
      removed := elm;
    }

    // RB_NEXT
    method Next(elm0: Node) returns (elm: Node?)
      requires Valid() && elm0 in nodes
      ensures IsNext(nodes, elm0.key, elm)
    {
      ghost var z, t := Place(Top, tree, elm0);
      ChildFields(Snap(), z, t);
      FillBst(z, t);
      ghost var k := elm0.key;
      if elm0.right != null {
        ghost var a, y;
        elm, a, y := Successor(elm0, z, t);
        NextIsLeast(z, t, a, y);
      } else {
        LoopReads(Snap(), z, t);
        ParentSide(Snap(), z, t);
        elm := elm0;
        if elm.parent != null && elm == elm.parent.left {
          NextIsParent(z, t, k);
          elm := elm.parent;
        } else {
          while elm.parent != null && elm == elm.parent.right
            invariant Fill(z, t) == tree && t.Br? && t.n == elm && elm in nodes && Fits(z, k)
            invariant forall m :: m in Elems(t) ==> m.key <= k
            invariant elm.parent == ParentOf(z) && In(Snap(), elm.parent)
            invariant !z.Top? ==> (z.n.left == elm <==> z.LeftOf?) && (z.n.right == elm <==> z.RightOf?)
            decreases Depth(z)
          {
            ClimbRight(z, t, k);
            elm := elm.parent;
            z, t := z.up, Up(z, t);
            LoopReads(Snap(), z, t);
            ParentSide(Snap(), z, t);
          }
          if z.Top? { NextIsNone(t, k); } else { NextIsParent(z, t, k); }
          elm := elm.parent;
        }
      }
    }

    // RB_MIN and RB_MAX
    method MinMax(val: int) returns (parent: Node?)
      requires Valid()
      ensures parent == null <==> nodes == {}
      ensures parent != null ==>
        parent in nodes && forall m :: m in nodes ==> if val < 0 then parent.key <= m.key else m.key <= parent.key
    {
      var tmp := root;
      parent := null;
      ghost var z, t := Top, tree;
      while tmp != null
        invariant Fill(z, t) == tree && tmp == RootOf(t) && Rep(Snap(), t, tmp, ParentOf(z))
        invariant parent == ParentOf(z) && (z.Top? ==> t == tree) && (parent != null ==> parent in nodes)
        invariant !z.Top? ==> (if val < 0 then z.LeftOf? else z.RightOf?)
        invariant forall m :: m in nodes && m !in Elems(t) ==>
          parent != null && if val < 0 then parent.key <= m.key else m.key <= parent.key
        decreases t
      {
        FillBst(z, t);
        FillElems(z, t);
        if !z.Top? { assert t.n in Elems(t) && Fits(z, t.n.key); }
        parent := tmp;
        if val < 0 {
          z, t := LeftOf(t.c, t.n, t.r, z), t.l;
          tmp := tmp.left;
        } else {
          z, t := RightOf(t.c, t.l, t.n, z), t.r;
          tmp := tmp.right;
        }
      }
    }
  }
}
