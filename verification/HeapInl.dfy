// The pointer-based binary min heap of libuv's heap-inl.h. Nodes are linked by left, right
// and parent pointers; the code finds the insertion point and the last node from the
// binary digits of the element count.

module HeapInl {

  import opened Powers

  // struct heap_node together with the key that the comparison function reads.
  class Node<K> {
    var left: Node?<K>
    var right: Node?<K>
    var parent: Node?<K>
    var key: K

    constructor (key: K)
      ensures this.key == key
    {
      this.key := key;
      left, right, parent := null, null, null;
    }
  }

  datatype Tree<K> = Leaf | Br(l: Tree<K>, n: Node<K>, k: K, r: Tree<K>)

  // A tree with one hole. LeftOf(n, k, r, up): the hole is n's left subtree.
  datatype Ctx<K> = Top | LeftOf(n: Node<K>, k: K, r: Tree<K>, up: Ctx<K>)
    | RightOf(l: Tree<K>, n: Node<K>, k: K, up: Ctx<K>)

  function Fill<K>(z: Ctx<K>, t: Tree<K>): Tree<K> {
    match z
    case Top => t
    case LeftOf(n, k, r, up) => Fill(up, Br(t, n, k, r))
    case RightOf(l, n, k, up) => Fill(up, Br(l, n, k, t))
  }

  ghost function Elems<K>(t: Tree<K>): set<Node<K>> {
    match t
    case Leaf => {}
    case Br(l, n, _, r) => Elems(l) + {n} + Elems(r)
  }

  ghost function CtxElems<K>(z: Ctx<K>): set<Node<K>> {
    match z
    case Top => {}
    case LeftOf(n, _, r, up) => {n} + Elems(r) + CtxElems(up)
    case RightOf(l, n, _, up) => {n} + Elems(l) + CtxElems(up)
  }

  lemma {:induction false} FillElems<K>(z: Ctx<K>, t: Tree<K>)
    ensures Elems(Fill(z, t)) == CtxElems(z) + Elems(t)
  {
    match z
    case Top =>
    case LeftOf(n, k, r, up) => FillElems(up, Br(t, n, k, r));
    case RightOf(l, n, k, up) => FillElems(up, Br(l, n, k, t));
  }

  ghost predicate Distinct<K>(t: Tree<K>) {
    t.Br? ==> t.n !in Elems(t.l) && t.n !in Elems(t.r) && Elems(t.l) !! Elems(t.r) && Distinct(t.l) && Distinct(t.r)
  }

  ghost predicate CtxDistinct<K>(z: Ctx<K>) {
    match z
    case Top => true
    case LeftOf(n, _, r, up) =>
      n !in Elems(r) && n !in CtxElems(up) && Elems(r) !! CtxElems(up) && Distinct(r) && CtxDistinct(up)
    case RightOf(l, n, _, up) =>
      n !in Elems(l) && n !in CtxElems(up) && Elems(l) !! CtxElems(up) && Distinct(l) && CtxDistinct(up)
  }

  ghost predicate Apart<K>(z: Ctx<K>, t: Tree<K>) {
    Distinct(t) && CtxDistinct(z) && Elems(t) !! CtxElems(z)
  }

  lemma {:induction false} FillDistinct<K>(z: Ctx<K>, t: Tree<K>)
    ensures Distinct(Fill(z, t)) <==> Apart(z, t)
  {
    match z
    case Top =>
    case LeftOf(n, k, r, up) => FillDistinct(up, Br(t, n, k, r));
    case RightOf(l, n, k, up) => FillDistinct(up, Br(l, n, k, t));
  }

  // ---------- Heap order ----------

  // less is a strict weak order: "not less" is a total preorder.
  ghost predicate StrictWeakOrder<K(!new)>(less: (K, K) -> bool) {
    && (forall a, b :: less(a, b) ==> !less(b, a))
    && (forall a, b, c :: !less(b, a) && !less(c, b) ==> !less(c, a))
  }

  ghost predicate KidsAbove<K>(less: (K, K) -> bool, k: K, t: Tree<K>) { t.Br? ==> !less(t.k, k) }

  ghost predicate Ordered<K>(less: (K, K) -> bool, t: Tree<K>) {
    t.Br? ==> KidsAbove(less, t.k, t.l) && KidsAbove(less, t.k, t.r) && Ordered(less, t.l) && Ordered(less, t.r)
  }

  // What surrounds the hole is ordered, whatever the hole holds.
  ghost predicate OrderedCtx<K>(less: (K, K) -> bool, z: Ctx<K>) {
    match z
    case Top => true
    case LeftOf(_, k, r, up) =>
      KidsAbove(less, k, r) && Ordered(less, r) && OrderedCtx(less, up) && (!up.Top? ==> !less(k, up.k))
    case RightOf(l, _, k, up) =>
      KidsAbove(less, k, l) && Ordered(less, l) && OrderedCtx(less, up) && (!up.Top? ==> !less(k, up.k))
  }

  // The children of the focus are not less than the focus's parent.
  ghost predicate Bridged<K>(less: (K, K) -> bool, z: Ctx<K>, t: Tree<K>) {
    !z.Top? && t.Br? ==> KidsAbove(less, z.k, t.l) && KidsAbove(less, z.k, t.r)
  }

  // All is in order but perhaps the focus against its parent.
  ghost predicate Rising<K>(less: (K, K) -> bool, z: Ctx<K>, t: Tree<K>) {
    OrderedCtx(less, z) && Ordered(less, t) && Bridged(less, z, t)
  }

  // All is in order but perhaps the focus against its children and its parent.
  ghost predicate Sinking<K>(less: (K, K) -> bool, z: Ctx<K>, t: Tree<K>) {
    OrderedCtx(less, z) && t.Br? && Ordered(less, t.l) && Ordered(less, t.r) && Bridged(less, z, t)
  }

  lemma {:induction false} FillOrdered<K>(less: (K, K) -> bool, z: Ctx<K>, t: Tree<K>)
    ensures Ordered(less, Fill(z, t)) <==>
      OrderedCtx(less, z) && Ordered(less, t) && (!z.Top? ==> KidsAbove(less, z.k, t))
  {
    match z
    case Top =>
    case LeftOf(n, k, r, up) => FillOrdered(less, up, Br(t, n, k, r));
    case RightOf(l, n, k, up) => FillOrdered(less, up, Br(l, n, k, t));
  }

  // ---------- Shape: the nodes occupy the positions 1 to n of a complete tree ----------

  // The subtree at position i of a heap of n nodes; its children are at 2i and 2i + 1.
  predicate Shape<K>(t: Tree<K>, n: nat, i: nat) {
    match t
    case Leaf => i > n
    case Br(l, _, _, r) => 1 <= i <= n && Shape(l, n, 2 * i) && Shape(r, n, 2 * i + 1)
  }

  predicate ShapeCtx<K>(z: Ctx<K>, n: nat, i: nat) {
    match z
    case Top => i == 1
    case LeftOf(_, _, r, up) => i % 2 == 0 && 1 <= i / 2 <= n && Shape(r, n, i + 1) && ShapeCtx(up, n, i / 2)
    case RightOf(l, _, _, up) => i % 2 == 1 && 1 <= i / 2 <= n && Shape(l, n, i - 1) && ShapeCtx(up, n, i / 2)
  }

  lemma {:induction false} FillShape<K>(z: Ctx<K>, t: Tree<K>, n: nat, i: nat)
    requires ShapeCtx(z, n, i) && Shape(t, n, i)
    ensures Shape(Fill(z, t), n, 1)
  {
    match z
    case Top =>
    case LeftOf(m, k, r, up) => FillShape(up, Br(t, m, k, r), n, i / 2);
    case RightOf(l, m, k, up) => FillShape(up, Br(l, m, k, t), n, i / 2);
  }

  lemma {:induction false} UnfillShape<K>(z: Ctx<K>, t: Tree<K>, n: nat) returns (i: nat)
    requires Shape(Fill(z, t), n, 1)
    ensures ShapeCtx(z, n, i) && Shape(t, n, i)
  {
    match z
    case Top => i := 1;
    case LeftOf(m, k, r, up) =>
      var j := UnfillShape(up, Br(t, m, k, r), n);
      i := 2 * j;
      assert i / 2 == j && i % 2 == 0;
    case RightOf(l, m, k, up) =>
      var j := UnfillShape(up, Br(l, m, k, t), n);
      i := 2 * j + 1;
      assert i / 2 == j && i % 2 == 1;
  }

  // m lies in the subtree at position i.
  predicate Under(i: nat, m: nat) { 1 <= i <= m && (m == i || Under(i, m / 2)) }

  lemma {:induction false} UnderChild(i: nat, m: nat)
    requires 1 <= i && (Under(2 * i, m) || Under(2 * i + 1, m))
    ensures Under(i, m)
  {
    if m != 2 * i && m != 2 * i + 1 { UnderChild(i, m / 2); }
  }

  // Two positions of one row share no descendant.
  lemma {:induction false} UnderSibling(i: nat, j: nat, m: nat)
    requires 1 <= i < j < 2 * i
    ensures !(Under(i, m) && Under(j, m))
  {
    if m > j { UnderSibling(i, j, m / 2); }
  }

  // Growing the heap by one position, or shrinking it by its last, leaves the subtrees
  // alone that do not contain that position.
  lemma {:induction false} ShapeElsewhere<K>(t: Tree<K>, n: nat, i: nat)
    requires !Under(i, n + 1) && 1 <= i
    ensures Shape(t, n, i) <==> Shape(t, n + 1, i)
  {
    if t.Br? {
      if Under(2 * i, n + 1) || Under(2 * i + 1, n + 1) { UnderChild(i, n + 1); }
      ShapeElsewhere(t.l, n, 2 * i);
      ShapeElsewhere(t.r, n, 2 * i + 1);
    }
  }

  lemma {:induction false} CtxShapeElsewhere<K>(z: Ctx<K>, n: nat, i: nat)
    requires Under(i, n + 1)
    ensures ShapeCtx(z, n, i) ==> ShapeCtx(z, n + 1, i)
    ensures ShapeCtx(z, n + 1, i) && i / 2 <= n ==> ShapeCtx(z, n, i)
  {
    if z.Top? {
    } else if z.LeftOf? && i % 2 == 0 {
      if Under(i + 1, n + 1) { UnderSibling(i, i + 1, n + 1); }
      ShapeElsewhere(z.r, n, i + 1);
      if i >= 2 { UnderChild(i / 2, n + 1); CtxShapeElsewhere(z.up, n, i / 2); }
    } else if z.RightOf? && i % 2 == 1 && i > 1 {
      if Under(i - 1, n + 1) { UnderSibling(i - 1, i, n + 1); }
      ShapeElsewhere(z.l, n, i - 1);
      UnderChild(i / 2, n + 1); CtxShapeElsewhere(z.up, n, i / 2);
    }
  }

  // The height bound of the header comment: 2 to the height minus one is at most the count.
  function Height<K>(t: Tree<K>): nat {
    match t
    case Leaf => 0
    case Br(l, _, _, r) => 1 + (if Height(l) < Height(r) then Height(r) else Height(l))
  }

  lemma {:induction false} ShapeHeight<K>(t: Tree<K>, n: nat, i: nat)
    requires Shape(t, n, i) && t.Br?
    ensures Pow2(Height(t) - 1) * i <= n
  {
    if t.l.Br? { ShapeHeight(t.l, n, 2 * i); }
    if t.r.Br? { ShapeHeight(t.r, n, 2 * i + 1); }
    var h := Height(t) - 1;
    if h > 0 { DoubleTimes(Pow2(h - 1), i, n); }
  }

  lemma DoubleTimes(p: nat, i: nat, n: nat)
    ensures 2 * p * i == p * (2 * i) <= p * (2 * i + 1)
  {
  }

  // ---------- Stores: the fields of a set of nodes, as a value ----------

  datatype Cell<K> = Cell(left: Node?<K>, right: Node?<K>, parent: Node?<K>, key: K)
  datatype Store<K> = Store(min: Node?<K>, m: map<Node<K>, Cell<K>>)

  ghost function SetL<K>(s: Store<K>, n: Node<K>, v: Node?<K>): Store<K>
    requires n in s.m
  { s.(m := s.m[n := s.m[n].(left := v)]) }

  ghost function SetR<K>(s: Store<K>, n: Node<K>, v: Node?<K>): Store<K>
    requires n in s.m
  { s.(m := s.m[n := s.m[n].(right := v)]) }

  ghost function SetP<K>(s: Store<K>, n: Node<K>, v: Node?<K>): Store<K>
    requires n in s.m
  { s.(m := s.m[n := s.m[n].(parent := v)]) }

  ghost predicate In<K>(s: Store<K>, n: Node?<K>) { n != null ==> n in s.m }

  // A child's parent pointer, if there is a child.
  ghost function Adopted<K>(s: Store<K>, c: Node?<K>, p: Node<K>): Store<K>
    requires In(s, c)
  { if c != null then SetP(s, c, p) else s }

  // Hang "now" where "was" hung below "parent".
  ghost function Relinked<K>(s: Store<K>, was: Node<K>, now: Node?<K>, parent: Node?<K>): Store<K>
    requires In(s, parent)
  {
    if parent == null then s.(min := now)
    else if s.m[parent].left == was then SetL(s, parent, now)
    else SetR(s, parent, now)
  }

  ghost predicate Rep<K>(s: Store<K>, t: Tree<K>, p: Node?<K>, up: Node?<K>) {
    match t
    case Leaf => p == null
    case Br(l, n, k, r) =>
      p == n && n in s.m && s.m[n].parent == up && s.m[n].key == k && Rep(s, l, s.m[n].left, n)
        && Rep(s, r, s.m[n].right, n)
  }

  ghost predicate RepCtx<K>(s: Store<K>, z: Ctx<K>, hole: Node?<K>, parent: Node?<K>) {
    match z
    case Top => s.min == hole && parent == null
    case LeftOf(n, k, r, up) =>
      parent == n && n in s.m && s.m[n].left == hole && s.m[n].key == k && Rep(s, r, s.m[n].right, n)
      && RepCtx(s, up, n, s.m[n].parent)
    case RightOf(l, n, k, up) =>
      parent == n && n in s.m && s.m[n].right == hole && s.m[n].key == k && Rep(s, l, s.m[n].left, n)
      && RepCtx(s, up, n, s.m[n].parent)
  }

  ghost function RootOf<K>(t: Tree<K>): Node?<K> { if t.Br? then t.n else null }
  ghost function ParentOf<K>(z: Ctx<K>): Node?<K> { if z.Top? then null else z.n }

  ghost predicate At<K>(s: Store<K>, t: Tree<K>) { Rep(s, t, s.min, null) && Distinct(t) }

  ghost predicate Agree<K>(s: Store<K>, s': Store<K>, e: set<Node<K>>) {
    forall n :: n in e && n in s.m ==> n in s'.m && s'.m[n] == s.m[n]
  }

  lemma {:induction false} RepAgree<K>(s: Store<K>, s': Store<K>, t: Tree<K>, p: Node?<K>, up: Node?<K>)
    requires Rep(s, t, p, up) && Agree(s, s', Elems(t))
    ensures Rep(s', t, p, up)
  {
    if t.Br? {
      RepAgree(s, s', t.l, s.m[t.n].left, t.n);
      RepAgree(s, s', t.r, s.m[t.n].right, t.n);
    }
  }

  lemma {:induction false} CtxAgree<K>(s: Store<K>, s': Store<K>, z: Ctx<K>, hole: Node?<K>, parent: Node?<K>)
    requires RepCtx(s, z, hole, parent) && Agree(s, s', CtxElems(z)) && s'.min == s.min
    ensures RepCtx(s', z, hole, parent)
  {
    match z
    case Top =>
    case LeftOf(n, _, r, up) => RepAgree(s, s', r, s.m[n].right, n); CtxAgree(s, s', up, n, s.m[n].parent);
    case RightOf(l, n, _, up) => RepAgree(s, s', l, s.m[n].left, n); CtxAgree(s, s', up, n, s.m[n].parent);
  }

  // A subtree that only got a new parent.
  lemma {:induction false} RepMoved<K>(s: Store<K>, s': Store<K>, t: Tree<K>, p: Node?<K>, up: Node?<K>, up': Node?<K>)
    requires Rep(s, t, p, up) && Distinct(t)
    requires p == null || (p in s'.m && p in s.m && s'.m[p] == s.m[p].(parent := up') && Agree(s, s', Elems(t) - {p}))
    ensures Rep(s', t, p, up')
  {
    if t.Br? {
      RepAgree(s, s', t.l, s.m[t.n].left, t.n);
      RepAgree(s, s', t.r, s.m[t.n].right, t.n);
    }
  }

  lemma CtxRelinked<K>(s: Store<K>, z: Ctx<K>, was: Node<K>, now: Node?<K>, parent: Node?<K>)
    requires RepCtx(s, z, was, parent) && CtxDistinct(z) && was !in CtxElems(z)
    ensures In(s, parent) && (parent != null ==> parent in CtxElems(z))
      && RepCtx(Relinked(s, was, now, parent), z, now, parent)
  {
    var s' := Relinked(s, was, now, parent);
    match z
    case Top =>
    case LeftOf(n, _, r, up) => RepAgree(s, s', r, s.m[n].right, n); CtxAgree(s, s', up, n, s.m[n].parent);
    case RightOf(l, n, _, up) =>
      assert l.Br? ==> l.n in Elems(l);
      RepAgree(s, s', l, s.m[n].left, n); CtxAgree(s, s', up, n, s.m[n].parent);
  }

  lemma {:induction false} Unfill<K>(s: Store<K>, z: Ctx<K>, t: Tree<K>)
    requires Rep(s, Fill(z, t), s.min, null)
    ensures Rep(s, t, RootOf(t), ParentOf(z)) && RepCtx(s, z, RootOf(t), ParentOf(z))
  {
    match z
    case Top =>
    case LeftOf(n, k, r, up) => Unfill(s, up, Br(t, n, k, r));
    case RightOf(l, n, k, up) => Unfill(s, up, Br(l, n, k, t));
  }

  lemma {:induction false} Refill<K>(s: Store<K>, z: Ctx<K>, t: Tree<K>)
    requires Rep(s, t, RootOf(t), ParentOf(z)) && RepCtx(s, z, RootOf(t), ParentOf(z))
    ensures Rep(s, Fill(z, t), s.min, null)
  {
    match z
    case Top =>
    case LeftOf(n, k, r, up) => Refill(s, up, Br(t, n, k, r));
    case RightOf(l, n, k, up) => Refill(s, up, Br(l, n, k, t));
  }

  ghost function Up<K>(z: Ctx<K>, t: Tree<K>): (u: Tree<K>)
    requires !z.Top?
    ensures u.Br?
  {
    if z.LeftOf? then Br(t, z.n, z.k, z.r) else Br(z.l, z.n, z.k, t)
  }

  // The fields that a step at the focus reads.
  lemma Focus<K>(s: Store<K>, z: Ctx<K>, t: Tree<K>)
    requires At(s, Fill(z, t))
    ensures Rep(s, t, RootOf(t), ParentOf(z)) && RepCtx(s, z, RootOf(t), ParentOf(z)) && Apart(z, t)
  {
    Unfill(s, z, t);
    FillDistinct(z, t);
  }

  // ---------- heap_node_swap ----------

  // A child and its parent change places; the child's key moves up with it.
  function Swap<K>(t: Tree<K>, left: bool): Tree<K>
    requires t.Br? && (if left then t.l.Br? else t.r.Br?)
  {
    if left then Br(Br(t.l.l, t.n, t.k, t.l.r), t.l.n, t.l.k, t.r)
    else Br(t.l, t.r.n, t.r.k, Br(t.r.l, t.n, t.k, t.r.r))
  }

  // The link fields are exchanged, keys stay with their nodes.
  ghost function Exchanged<K>(s: Store<K>, p: Node<K>, c: Node<K>): Store<K>
    requires p in s.m && c in s.m
  {
    var cp, cc := s.m[p], s.m[c];
    s.(m := s.m[p := cc.(key := cp.key)][c := cp.(key := cc.key)])
  }

  ghost predicate CanSwap<K>(s: Store<K>, p: Node<K>, c: Node<K>) {
    && p in s.m && c in s.m && p != c && (s.m[p].left == c || s.m[p].right == c)
    && In(s, s.m[p].left) && In(s, s.m[p].right) && In(s, s.m[p].parent) && In(s, s.m[c].left) && In(s, s.m[c].right)
  }

  // heap_node_swap up to the choice of the sibling.
  ghost function SwapHead<K>(s: Store<K>, p: Node<K>, c: Node<K>): Store<K>
    requires CanSwap(s, p, c)
  {
    var s1 := SetP(Exchanged(s, p, c), p, c);
    if s1.m[c].left == c then SetL(s1, c, p) else SetR(s1, c, p)
  }

  // Its last part: the neighbours' pointers.
  ghost predicate CanMend<K>(s: Store<K>, p: Node<K>, c: Node<K>, sibling: Node?<K>) {
    p in s.m && c in s.m && In(s, sibling) && In(s, s.m[p].left) && In(s, s.m[p].right) && In(s, s.m[c].parent)
  }

  ghost function Mended<K>(s: Store<K>, p: Node<K>, c: Node<K>, sibling: Node?<K>): Store<K>
    requires CanMend(s, p, c, sibling)
  {
    var s1 := Adopted(s, sibling, c);
    var s2 := Adopted(s1, s.m[p].left, p);
    var s3 := Adopted(s2, s.m[p].right, p);
    Relinked(s3, p, c, s3.m[c].parent)
  }

  ghost function Swapped<K>(s: Store<K>, p: Node<K>, c: Node<K>): Store<K>
    requires CanSwap(s, p, c)
  {
    var sibling := if s.m[p].left == c then s.m[p].right else s.m[p].left;
    Mended(SwapHead(s, p, c), p, c, sibling)
  }

  ghost predicate Unlike<K>(x: Node?<K>, s: set<Node<K>>) { x != null ==> x !in s }

  lemma SwapHeadCells<K>(s: Store<K>, p: Node<K>, c: Node<K>)
    requires CanSwap(s, p, c)
    ensures var h := SwapHead(s, p, c);
            && h.m.Keys == s.m.Keys && h.min == s.min
            && h.m[p] == s.m[c].(parent := c, key := s.m[p].key)
            && h.m[c] == (if s.m[p].left == c then s.m[p].(left := p, key := s.m[c].key)
               else s.m[p].(right := p, key := s.m[c].key))
            && (forall n :: n in s.m && n !in {p, c} ==> h.m[n] == s.m[n])
  {
  }

  // The cells after a swap: a and b are the child's children, d its sibling, up the parent's
  // parent. All other cells are those that hanging the child below up leaves.
  lemma SwapCells<K>(s: Store<K>, p: Node<K>, c: Node<K>, a: Node?<K>, b: Node?<K>, d: Node?<K>, up: Node?<K>)
    requires CanSwap(s, p, c) && a == s.m[c].left && b == s.m[c].right && up == s.m[p].parent
    requires d == (if s.m[p].left == c then s.m[p].right else s.m[p].left)
    requires Unlike(a, {p, c}) && Unlike(b, {p, c}) && Unlike(d, {p, c}) && Unlike(up, {p, c})
    requires (a == null || a != b) && (a == null || a != d) && (b == null || b != d)
    requires up == null || (up != a && up != b && up != d)
    ensures var s', r := Swapped(s, p, c), Relinked(s, p, c, up);
            && s'.m.Keys == s.m.Keys == r.m.Keys && s'.min == r.min
            && s'.m[p] == s.m[c].(parent := c, key := s.m[p].key)
            && s'.m[c] == (if s.m[p].left == c then Cell(p, d, up, s.m[c].key) else Cell(d, p, up, s.m[c].key))
            && (a != null ==> s'.m[a] == s.m[a].(parent := p))
            && (b != null ==> s'.m[b] == s.m[b].(parent := p))
            && (d != null ==> s'.m[d] == s.m[d].(parent := c))
            && (forall n :: n in s.m && n !in {p, c} && n != a && n != b && n != d ==> s'.m[n] == r.m[n])
            && (forall n :: n in s.m && n != up ==> r.m[n] == s.m[n])
  {
    var h := SwapHead(s, p, c);
    SwapHeadCells(s, p, c);
    MendCells(h, p, c, a, b, d, up);
    RelinkedAgree(s, h, p, c, up);
  }

  lemma RelinkedAgree<K>(s: Store<K>, h: Store<K>, p: Node<K>, c: Node<K>, up: Node?<K>)
    requires In(s, up) && Unlike(up, {p, c}) && h.m.Keys == s.m.Keys && h.min == s.min
    requires forall n :: n in s.m && n !in {p, c} ==> h.m[n] == s.m[n]
    ensures var r, q := Relinked(s, p, c, up), Relinked(h, p, c, up);
            && r.min == q.min && r.m.Keys == q.m.Keys == s.m.Keys
            && (forall n :: n in s.m && n !in {p, c} ==> q.m[n] == r.m[n])
            && (forall n :: n in s.m && n != up ==> r.m[n] == s.m[n])
  {
  }

  lemma MendCells<K>(h: Store<K>, p: Node<K>, c: Node<K>, a: Node?<K>, b: Node?<K>, d: Node?<K>, up: Node?<K>)
    requires CanMend(h, p, c, d) && a == h.m[p].left && b == h.m[p].right && up == h.m[c].parent && p != c
    requires Unlike(a, {p, c}) && Unlike(b, {p, c}) && Unlike(d, {p, c}) && Unlike(up, {p, c})
    requires (a == null || a != b) && (a == null || a != d) && (b == null || b != d)
    requires up == null || (up != a && up != b && up != d)
    ensures var s', r := Mended(h, p, c, d), Relinked(h, p, c, up);
            && s'.m.Keys == h.m.Keys && s'.min == r.min && s'.m[p] == h.m[p] && s'.m[c] == h.m[c]
            && (a != null ==> s'.m[a] == h.m[a].(parent := p))
            && (b != null ==> s'.m[b] == h.m[b].(parent := p))
            && (d != null ==> s'.m[d] == h.m[d].(parent := c))
            && (forall n :: n in h.m && n != a && n != b && n != d ==> s'.m[n] == r.m[n])
  {
  }

  // The nodes around a swap are what the tree says they are.
  lemma SwapSets<K>(z: Ctx<K>, t: Tree<K>, left: bool)
    requires Apart(z, t) && t.Br? && (if left then t.l.Br? else t.r.Br?)
    ensures var p, u, w := t.n, if left then t.l else t.r, if left then t.r else t.l;
            && Elems(t) == Elems(u.l) + Elems(u.r) + Elems(w) + {p, u.n}
            && Elems(u.l) !! Elems(u.r) !! Elems(w) !! {p} !! {u.n} && Distinct(u.l) && Distinct(u.r) && Distinct(w)
            && Elems(t) !! CtxElems(z)
  {
    var u := if left then t.l else t.r;
    assert Distinct(u);
    assert Elems(u) == Elems(u.l) + {u.n} + Elems(u.r);
  }

  lemma SwapLinks<K>(s: Store<K>, z: Ctx<K>, t: Tree<K>, left: bool)
    requires At(s, Fill(z, t)) && t.Br? && (if left then t.l.Br? else t.r.Br?)
    ensures var p, u, w, up := t.n, if left then t.l else t.r, if left then t.r else t.l, ParentOf(z);
            && p in s.m && u.n in s.m && In(s, up) && up == s.m[p].parent
            && (if left then s.m[p].left == u.n && s.m[p].right == RootOf(w)
               else s.m[p].right == u.n && s.m[p].left == RootOf(w))
            && Rep(s, u.l, s.m[u.n].left, u.n) && Rep(s, u.r, s.m[u.n].right, u.n) && Rep(s, w, RootOf(w), p)
            && s.m[p].key == t.k && s.m[u.n].key == u.k && (up != null ==> up in CtxElems(z))
  {
    Focus(s, z, t);
    var u := if left then t.l else t.r;
    assert Rep(s, u, u.n, t.n);
  }

  lemma RootIn<K>(s: Store<K>, t: Tree<K>, p: Node?<K>, up: Node?<K>)
    requires Rep(s, t, p, up)
    ensures p == RootOf(t) && In(s, p) && (p != null ==> p in Elems(t))
  {
  }

  lemma SwapReads<K>(s: Store<K>, z: Ctx<K>, t: Tree<K>, left: bool)
    requires At(s, Fill(z, t)) && t.Br? && (if left then t.l.Br? else t.r.Br?)
    ensures var p, u, w, up := t.n, if left then t.l else t.r, if left then t.r else t.l, ParentOf(z);
            p in s.m && u.n in s.m &&
            var c, a, b, d := u.n, s.m[u.n].left, s.m[u.n].right, RootOf(w);
            && a == RootOf(u.l) && b == RootOf(u.r) && CanSwap(s, p, c) && up == s.m[p].parent
            && (s.m[p].left == c <==> left) && d == (if left then s.m[p].right else s.m[p].left)
            && Unlike(a, {p, c}) && Unlike(b, {p, c}) && Unlike(d, {p, c}) && Unlike(up, {p, c})
            && (a == null || a != b) && (a == null || a != d) && (b == null || b != d)
            && (up == null || (up != a && up != b && up != d))
            && Rep(s, u.l, a, c) && Rep(s, u.r, b, c) && Rep(s, w, d, p) && s.m[p].key == t.k && s.m[c].key == u.k
            && Elems(u.l) !! Elems(u.r) !! Elems(w) !! {p} !! {c} && Distinct(u.l) && Distinct(u.r) && Distinct(w)
            && Elems(t) == Elems(u.l) + Elems(u.r) + Elems(w) + {p, c} && Elems(t) !! CtxElems(z)
            && (up != null ==> up in CtxElems(z)) && (a != null ==> a in Elems(u.l)) && (b != null ==> b in Elems(u.r))
            && (d != null ==> d in Elems(w))
  {
    var u, w := if left then t.l else t.r, if left then t.r else t.l;
    FillDistinct(z, t);
    SwapLinks(s, z, t, left);
    SwapSets(z, t, left);
    RootIn(s, u.l, s.m[u.n].left, u.n);
    RootIn(s, u.r, s.m[u.n].right, u.n);
    RootIn(s, w, RootOf(w), t.n);
  }

  lemma CtxOutside<K>(s: Store<K>, s': Store<K>, z: Ctx<K>, hole: Node?<K>, parent: Node?<K>, p: Node<K>, c: Node<K>,
    a: Node?<K>, b: Node?<K>, d: Node?<K>)
    requires RepCtx(s, z, hole, parent) && s'.min == s.min && s'.m.Keys == s.m.Keys
    requires {p, c} !! CtxElems(z) && Unlike(a, CtxElems(z)) && Unlike(b, CtxElems(z)) && Unlike(d, CtxElems(z))
    requires forall n :: n in s.m && n !in {p, c} && n != a && n != b && n != d ==> s'.m[n] == s.m[n]
    ensures RepCtx(s', z, hole, parent)
  {
    CtxAgree(s, s', z, hole, parent);
  }

  lemma SwapCtx<K>(s: Store<K>, z: Ctx<K>, t: Tree<K>, left: bool)
    requires At(s, Fill(z, t)) && t.Br? && (if left then t.l.Br? else t.r.Br?)
    ensures var c := Swap(t, left).n; CanSwap(s, t.n, c) && RepCtx(Swapped(s, t.n, c), z, c, ParentOf(z))
  {
    var p, u, w, up := t.n, if left then t.l else t.r, if left then t.r else t.l, ParentOf(z);
    SwapReads(s, z, t, left);
    SwapCells(s, p, u.n, RootOf(u.l), RootOf(u.r), RootOf(w), up);
    Focus(s, z, t);
    CtxRelinked(s, z, p, u.n, up);
    var r, s' := Relinked(s, p, u.n, up), Swapped(s, p, u.n);
    CtxOutside(r, s', z, u.n, up, p, u.n, RootOf(u.l), RootOf(u.r), RootOf(w));
  }

  lemma MovedOutside<K>(s: Store<K>, r: Store<K>, s': Store<K>, t: Tree<K>, q: Node?<K>, old_: Node<K>, now: Node<K>,
                        p: Node<K>, c: Node<K>, x: Node?<K>, y: Node?<K>, up: Node?<K>)
    requires Rep(s, t, q, old_) && Distinct(t) && q == RootOf(t) && s'.m.Keys == s.m.Keys == r.m.Keys
    requires q != null ==> q in s.m && s'.m[q] == s.m[q].(parent := now)
    requires {p, c} !! Elems(t) && Unlike(x, Elems(t)) && Unlike(y, Elems(t)) && Unlike(up, Elems(t))
    requires forall n :: n in s.m && n !in {p, c} && n != q && n != x && n != y ==> s'.m[n] == r.m[n]
    requires forall n :: n in s.m && n != up ==> r.m[n] == s.m[n]
    ensures Rep(s', t, q, now)
  {
    RepMoved(s, s', t, q, old_, now);
  }

  lemma SwapRep<K>(s: Store<K>, z: Ctx<K>, t: Tree<K>, left: bool)
    requires At(s, Fill(z, t)) && t.Br? && (if left then t.l.Br? else t.r.Br?)
    ensures var c := Swap(t, left).n; CanSwap(s, t.n, c) && Rep(Swapped(s, t.n, c), Swap(t, left), c, ParentOf(z))
  {
    var p, u, w, up := t.n, if left then t.l else t.r, if left then t.r else t.l, ParentOf(z);
    var c, a, b, d := u.n, RootOf(u.l), RootOf(u.r), RootOf(w);
    SwapReads(s, z, t, left);
    SwapCells(s, p, c, a, b, d, up);
    var r, s' := Relinked(s, p, c, up), Swapped(s, p, c);
    MovedOutside(s, r, s', u.l, a, c, p, p, c, b, d, up);
    MovedOutside(s, r, s', u.r, b, c, p, p, c, a, d, up);
    MovedOutside(s, r, s', w, d, p, c, p, c, a, b, up);
    assert Rep(s', Br(u.l, p, t.k, u.r), p, c);
  }

  lemma SwapAt<K>(s: Store<K>, z: Ctx<K>, t: Tree<K>, left: bool)
    requires At(s, Fill(z, t)) && t.Br? && (if left then t.l.Br? else t.r.Br?)
    ensures var t' := Swap(t, left);
            CanSwap(s, t.n, t'.n) && At(Swapped(s, t.n, t'.n), Fill(z, t')) && Elems(Fill(z, t')) == Elems(Fill(z, t))
  {
    var t' := Swap(t, left);
    SwapCtx(s, z, t, left);
    SwapRep(s, z, t, left);
    Refill(Swapped(s, t.n, t'.n), z, t');
    FillDistinct(z, t);
    SwapElems(z, t, left);
  }

  lemma SwapElems<K>(z: Ctx<K>, t: Tree<K>, left: bool)
    requires Apart(z, t) && t.Br? && (if left then t.l.Br? else t.r.Br?)
    ensures Distinct(Fill(z, Swap(t, left))) && Elems(Fill(z, Swap(t, left))) == Elems(Fill(z, t))
  {
    var t', u, w := Swap(t, left), if left then t.l else t.r, if left then t.r else t.l;
    assert Distinct(u) && Elems(u) == Elems(u.l) + {u.n} + Elems(u.r);
    var v := if left then t'.l else t'.r;
    assert Elems(v) == Elems(u.l) + {t.n} + Elems(u.r) && Distinct(v);
    assert Elems(t') == Elems(t);
    FillDistinct(z, t');
    FillElems(z, t);
    FillElems(z, t');
  }

  // ---------- Rising and sinking ----------

  ghost function Depth<K>(z: Ctx<K>): nat { if z.Top? then 0 else 1 + Depth(z.up) }

  lemma RiseStep<K(!new)>(less: (K, K) -> bool, z: Ctx<K>, t: Tree<K>)
    requires StrictWeakOrder(less) && t.Br? && !z.Top? && Rising(less, z, t) && less(t.k, z.k)
    ensures Rising(less, z.up, Swap(Up(z, t), z.LeftOf?)) && Fill(z, t) == Fill(z.up, Up(z, t))
  {
  }

  lemma RiseDone<K>(less: (K, K) -> bool, z: Ctx<K>, t: Tree<K>)
    requires t.Br? && Rising(less, z, t) && (z.Top? || !less(t.k, z.k))
    ensures Ordered(less, Fill(z, t))
  {
    FillOrdered(less, z, t);
  }

  // The focus goes down, its child goes up into the context.
  function SinkCtx<K>(z: Ctx<K>, t: Tree<K>, left: bool): Ctx<K>
    requires t.Br? && (if left then t.l.Br? else t.r.Br?)
  { if left then LeftOf(t.l.n, t.l.k, t.r, z) else RightOf(t.l, t.r.n, t.r.k, z) }

  function SinkTree<K>(t: Tree<K>, left: bool): Tree<K>
    requires t.Br? && (if left then t.l.Br? else t.r.Br?)
  { if left then Br(t.l.l, t.n, t.k, t.l.r) else Br(t.r.l, t.n, t.k, t.r.r) }

  lemma SinkStep<K(!new)>(less: (K, K) -> bool, z: Ctx<K>, t: Tree<K>, left: bool)
    requires StrictWeakOrder(less) && Sinking(less, z, t) && (if left then t.l.Br? else t.r.Br?)
    requires var u, w := if left then t.l else t.r, if left then t.r else t.l; less(u.k, t.k) && KidsAbove(less, u.k, w)
    ensures Sinking(less, SinkCtx(z, t, left), SinkTree(t, left))
    ensures Fill(SinkCtx(z, t, left), SinkTree(t, left)) == Fill(z, Swap(t, left))
      && Height(SinkTree(t, left)) < Height(t)
  {
  }

  lemma {:induction false} SwapShape<K>(z: Ctx<K>, t: Tree<K>, left: bool, n: nat)
    requires t.Br? && (if left then t.l.Br? else t.r.Br?) && Shape(Fill(z, t), n, 1)
    ensures Shape(Fill(z, Swap(t, left)), n, 1)
  {
    var i := UnfillShape(z, t, n);
    FillShape(z, Swap(t, left), n, i);
  }

  // The root is a least element.
  lemma {:induction false} RootLeast<K(!new)>(less: (K, K) -> bool, s: Store<K>, t: Tree<K>, p: Node?<K>, up: Node?<K>)
    requires StrictWeakOrder(less) && Ordered(less, t) && t.Br? && Rep(s, t, p, up)
    ensures forall n :: n in Elems(t) ==> n in s.m && !less(s.m[n].key, t.k)
  {
    if t.l.Br? { RootLeast(less, s, t.l, s.m[t.n].left, t.n); }
    if t.r.Br? { RootLeast(less, s, t.r, s.m[t.n].right, t.n); }
    assert !less(t.k, t.k);
  }

  // ---------- Counting ----------

  function CountUnder(n: nat, i: nat): nat
    requires 1 <= i
    decreases n + 1 - i
  { if i > n then 0 else 1 + CountUnder(n, 2 * i) + CountUnder(n, 2 * i + 1) }

  lemma {:induction false} CountGrows(n: nat, i: nat)
    requires 1 <= i
    ensures CountUnder(n + 1, i) == CountUnder(n, i) + (if Under(i, n + 1) then 1 else 0)
    decreases n + 1 - i
  {
    if i > n {
    } else {
      CountGrows(n, 2 * i);
      CountGrows(n, 2 * i + 1);
      UnderSibling(2 * i, 2 * i + 1, n + 1);
      if Under(2 * i, n + 1) || Under(2 * i + 1, n + 1) { UnderChild(i, n + 1); }
      UnderParent(i, n + 1);
    }
  }

  lemma {:induction false} UnderParent(i: nat, m: nat)
    requires 1 <= i
    ensures Under(i, m) && m != i ==> Under(2 * i, m) || Under(2 * i + 1, m)
  {
    if i < m && m / 2 != i { UnderParent(i, m / 2); }
  }

  lemma {:induction false} UnderRoot(m: nat)
    requires 1 <= m
    ensures Under(1, m)
  {
    if m > 1 { UnderRoot(m / 2); }
  }

  lemma {:induction false} CountAll(n: nat)
    ensures CountUnder(n, 1) == n
  {
    if n > 0 { CountAll(n - 1); CountGrows(n - 1, 1); UnderRoot(n); }
  }

  lemma {:induction false} ElemsCount<K>(t: Tree<K>, n: nat, i: nat)
    requires Shape(t, n, i) && Distinct(t) && 1 <= i
    ensures |Elems(t)| == CountUnder(n, i)
  {
    if t.Br? {
      ElemsCount(t.l, n, 2 * i);
      ElemsCount(t.r, n, 2 * i + 1);
      assert |Elems(t)| == |Elems(t.l) + {t.n}| + |Elems(t.r)| == |Elems(t.l)| + 1 + |Elems(t.r)|;
    }
  }

  // A heap of nelts elements holds nelts nodes.
  lemma HeapCount<K>(t: Tree<K>, n: nat)
    requires Shape(t, n, 1) && Distinct(t)
    ensures |Elems(t)| == n
  {
    ElemsCount(t, n, 1);
    CountAll(n);
  }

  // ---------- The path to a position ----------

  // The turns from the root to position n, true for right.
  function Turns(n: nat): seq<bool> { if n < 2 then [] else Turns(n / 2) + [n % 2 == 1] }

  // The low k bits of path, lowest first.
  function Bits(path: nat, k: nat): seq<bool> { if k == 0 then [] else [path % 2 == 1] + Bits(path / 2, k - 1) }

  function Goto(i: nat, turns: seq<bool>): nat
    decreases turns
  {
    if turns == [] then i else Goto(2 * i + (if turns[0] then 1 else 0), turns[1..])
  }

  lemma {:induction false} GotoAppend(i: nat, a: seq<bool>, b: bool)
    ensures Goto(i, a + [b]) == 2 * Goto(i, a) + (if b then 1 else 0)
    decreases a
  {
    if a != [] {
      assert (a + [b])[1..] == a[1..] + [b];
      GotoAppend(2 * i + (if a[0] then 1 else 0), a[1..], b);
    } else {
      assert [b][1..] == [];
    }
  }

  lemma {:induction false} TurnsLead(n: nat)
    requires 1 <= n
    ensures Goto(1, Turns(n)) == n
  {
    if n >= 2 { TurnsLead(n / 2); GotoAppend(1, Turns(n / 2), n % 2 == 1); }
  }

  lemma {:induction false} GotoBelow(i: nat, turns: seq<bool>)
    requires 1 <= i
    ensures i <= Goto(i, turns) && (turns != [] ==> 2 * i <= Goto(i, turns)) && Under(i, Goto(i, turns))
    decreases turns
  {
    if turns != [] {
      var j := 2 * i + (if turns[0] then 1 else 0);
      GotoBelow(j, turns[1..]);
      UnderChild(i, Goto(i, turns));
    }
  }

  // While turns are left, the walk is at a node, and the next turn leads to its child.
  lemma DescendStep<K>(i: nat, path: nat, k: nat, n: nat, z: Ctx<K>, t: Tree<K>)
    requires 1 <= i && 1 <= k && Goto(i, Bits(path, k)) <= n + 1 && ShapeCtx(z, n, i) && Shape(t, n, i)
    ensures t.Br? && Goto(2 * i + path % 2, Bits(path / 2, k - 1)) == Goto(i, Bits(path, k))
    ensures ShapeCtx(LeftOf(t.n, t.k, t.r, z), n, 2 * i) && ShapeCtx(RightOf(t.l, t.n, t.k, z), n, 2 * i + 1)
    ensures Shape(t.l, n, 2 * i) && Shape(t.r, n, 2 * i + 1)
  {
    var turns := Bits(path, k);
    GotoBelow(i, turns);
    assert turns[1..] == Bits(path / 2, k - 1);
  }

  // ---------- Links into the heap: &heap->min, &node->left, &node->right ----------

  datatype Slot<K> = Min | LeftSlot(n: Node<K>) | RightSlot(n: Node<K>)

  function SlotOf<K>(z: Ctx<K>): Slot<K> {
    match z
    case Top => Min
    case LeftOf(n, _, _, _) => LeftSlot(n)
    case RightOf(_, n, _, _) => RightSlot(n)
  }

  ghost predicate SlotIn<K>(s: Store<K>, x: Slot<K>) { x.Min? || x.n in s.m }

  ghost function GetSlot<K>(s: Store<K>, x: Slot<K>): Node?<K>
    requires SlotIn(s, x)
  { if x.Min? then s.min else if x.LeftSlot? then s.m[x.n].left else s.m[x.n].right }

  ghost function SetSlot<K>(s: Store<K>, x: Slot<K>, v: Node?<K>): Store<K>
    requires SlotIn(s, x)
  { if x.Min? then s.(min := v) else if x.LeftSlot? then SetL(s, x.n, v) else SetR(s, x.n, v) }

  lemma SlotHolds<K>(s: Store<K>, z: Ctx<K>, t: Tree<K>)
    requires At(s, Fill(z, t))
    ensures SlotIn(s, SlotOf(z)) && GetSlot(s, SlotOf(z)) == RootOf(t) && In(s, RootOf(t)) && In(s, ParentOf(z))
    ensures t.Br? ==>
      s.m[t.n].key == t.k && s.m[t.n].left == RootOf(t.l) && s.m[t.n].right == RootOf(t.r)
      && s.m[t.n].parent == ParentOf(z)
    ensures t.Br? ==> In(s, RootOf(t.l)) && In(s, RootOf(t.r))
    ensures t.Br? && t.l.Br? ==> s.m[t.l.n].key == t.l.k
    ensures t.Br? && t.r.Br? ==> s.m[t.r.n].key == t.r.k
    ensures !z.Top? ==> s.m[z.n].key == z.k
  {
    Focus(s, z, t);
    if t.Br? { assert Rep(s, t.l, s.m[t.n].left, t.n) && Rep(s, t.r, s.m[t.n].right, t.n); }
  }

  lemma RootSlot<K>(s: Store<K>, t: Tree<K>)
    requires At(s, t)
    ensures s.min == RootOf(t)
  {
  }

  lemma ChildSlots<K>(s: Store<K>, z: Ctx<K>, t: Tree<K>)
    requires t.Br? && At(s, Fill(z, t))
    ensures t.n in s.m && s.m[t.n].left == RootOf(t.l) && s.m[t.n].right == RootOf(t.r)
  {
    SlotHolds(s, z, t);
  }

  lemma SlotCtx<K>(s: Store<K>, s0: Store<K>, z: Ctx<K>, was: Node?<K>, now: Node?<K>)
    requires RepCtx(s, z, was, ParentOf(z)) && CtxDistinct(z) && SlotIn(s0, SlotOf(z)) && Agree(s, s0, CtxElems(z))
      && s0.min == s.min
    ensures RepCtx(SetSlot(s0, SlotOf(z), now), z, now, ParentOf(z))
  {
    var s' := SetSlot(s0, SlotOf(z), now);
    match z
    case Top =>
    case LeftOf(n, _, r, up) => RepAgree(s, s', r, s.m[n].right, n); CtxAgree(s, s', up, n, s.m[n].parent);
    case RightOf(l, n, _, up) => RepAgree(s, s', l, s.m[n].left, n); CtxAgree(s, s', up, n, s.m[n].parent);
  }

  // The walk has come to position i, the subtree t in the context z, by way of parent.
  ghost predicate OnWalk<K>(s: Store<K>, tree: Tree<K>, n: nat, i: nat, z: Ctx<K>, t: Tree<K>, parent: Slot<K>,
    child: Slot<K>) {
    && i >= 1 && At(s, tree) && Fill(z, t) == tree && ShapeCtx(z, n, i) && Shape(t, n, i)
    && child == SlotOf(z) && SlotIn(s, child) && GetSlot(s, child) == RootOf(t) && SlotIn(s, parent)
    && (if z.Top? then parent.Min? && i == 1 else GetSlot(s, parent) == ParentOf(z) && i > 1)
  }

  lemma WalkBegins<K>(s: Store<K>, tree: Tree<K>, n: nat)
    requires At(s, tree) && Shape(tree, n, 1)
    ensures OnWalk(s, tree, n, 1, Top, tree, Min, Min)
  {
    RootSlot(s, tree);
  }

  lemma WalkStep<K>(s: Store<K>, tree: Tree<K>, n: nat, i: nat, z: Ctx<K>, t: Tree<K>, parent: Slot<K>, child: Slot<K>,
                    path: nat, k: nat)
    requires OnWalk(s, tree, n, i, z, t, parent, child) && k >= 1 && Goto(i, Bits(path, k)) <= n + 1
    ensures t.Br? && SlotIn(s, child) && GetSlot(s, child) == t.n
    ensures Goto(2 * i + path % 2, Bits(path / 2, k - 1)) == Goto(i, Bits(path, k))
    ensures OnWalk(s, tree, n, 2 * i, LeftOf(t.n, t.k, t.r, z), t.l, child, LeftSlot(t.n))
    ensures OnWalk(s, tree, n, 2 * i + 1, RightOf(t.l, t.n, t.k, z), t.r, child, RightSlot(t.n))
  {
    hide Goto;
    hide Bits;
    hide At;
    hide Shape;
    hide ShapeCtx;
    DescendStep(i, path, k, n, z, t);
    ChildSlots(s, z, t);
  }

  lemma WalkEnds<K>(s: Store<K>, tree: Tree<K>, n: nat, i: nat, z: Ctx<K>, t: Tree<K>, parent: Slot<K>, child: Slot<K>,
    path: nat)
    requires OnWalk(s, tree, n, i, z, t, parent, child)
    ensures var position := Goto(i, Bits(path, 0));
            && Fill(z, t) == tree && child == SlotOf(z) && ShapeCtx(z, n, position) && Shape(t, n, position)
            && SlotIn(s, parent) && (t.Leaf? || position > 1 ==> GetSlot(s, parent) == ParentOf(z))
  {
  }

  // Hanging a new node at the end of the heap.
  lemma Attached<K>(s: Store<K>, z: Ctx<K>, n: Node<K>, k: K, s0: Store<K>)
    requires At(s, Fill(z, Leaf)) && n !in Elems(Fill(z, Leaf))
      && s0 == s.(m := s.m[n := Cell(null, null, ParentOf(z), k)])
    ensures SlotIn(s0, SlotOf(z)) && At(SetSlot(s0, SlotOf(z), n), Fill(z, Br(Leaf, n, k, Leaf)))
    ensures Elems(Fill(z, Br(Leaf, n, k, Leaf))) == Elems(Fill(z, Leaf)) + {n}
  {
    var t := Br(Leaf, n, k, Leaf);
    FillElems(z, Leaf);
    FillElems(z, t);
    FillDistinct(z, t);
    SlotHolds(s, z, Leaf);
    Focus(s, z, Leaf);
    SlotCtx(s, s0, z, null, n);
    assert Elems(t) == {n};
    Refill(SetSlot(s0, SlotOf(z), n), z, t);
  }

  // Unlinking the last node.
  lemma Detached<K>(s: Store<K>, z: Ctx<K>, n: Node<K>, k: K)
    requires At(s, Fill(z, Br(Leaf, n, k, Leaf)))
    ensures SlotIn(s, SlotOf(z)) && At(SetSlot(s, SlotOf(z), null), Fill(z, Leaf)) && n in s.m && s.m[n].key == k
    ensures Elems(Fill(z, Leaf)) == Elems(Fill(z, Br(Leaf, n, k, Leaf))) - {n}
      && n in Elems(Fill(z, Br(Leaf, n, k, Leaf)))
  {
    var t := Br(Leaf, n, k, Leaf);
    SlotHolds(s, z, t);
    Focus(s, z, t);
    SlotCtx(s, s, z, n, null);
    Refill(SetSlot(s, SlotOf(z), null), z, Leaf);
    FillElems(z, t);
    FillElems(z, Leaf);
    FillDistinct(z, Leaf);
  }

  lemma {:induction false} DetachedOrder<K>(less: (K, K) -> bool, z: Ctx<K>, t: Tree<K>, n: nat)
    requires t.Br? && t.l.Leaf? && t.r.Leaf? && Ordered(less, Fill(z, t)) && ShapeCtx(z, n + 1, n + 1)
    ensures Ordered(less, Fill(z, Leaf)) && Shape(Fill(z, Leaf), n, 1)
  {
    FillOrdered(less, z, t);
    FillOrdered(less, z, Leaf);
    CtxShapeElsewhere(z, n, n + 1);
    FillShape(z, Leaf, n, n + 1);
  }

  // Both at once, as heap_remove needs them.
  lemma LastUnlinked<K>(s: Store<K>, less: (K, K) -> bool, z: Ctx<K>, t: Tree<K>, n: nat)
    requires At(s, Fill(z, t)) && Ordered(less, Fill(z, t)) && ShapeCtx(z, n + 1, n + 1) && Shape(t, n + 1, n + 1)
    ensures t.Br? && SlotIn(s, SlotOf(z)) && GetSlot(s, SlotOf(z)) == t.n && t.n in s.m
    ensures At(SetSlot(s, SlotOf(z), null), Fill(z, Leaf)) && t.n in Elems(Fill(z, t))
    ensures Elems(Fill(z, Leaf)) == Elems(Fill(z, t)) - {t.n} && Ordered(less, Fill(z, Leaf))
      && Shape(Fill(z, Leaf), n, 1)
  {
    assert t.Br? && t.l.Leaf? && t.r.Leaf?;
    SlotHolds(s, z, t);
    Detached(s, z, t.n, t.k);
    DetachedOrder(less, z, t, n);
  }

  // ---------- Replacing the removed node by the unlinked one ----------

  ghost predicate CanReplace<K>(s: Store<K>, o: Node<K>, y: Node<K>) {
    o in s.m && y in s.m && o != y && In(s, s.m[o].parent) && In(s, s.m[o].left) && In(s, s.m[o].right)
    && Unlike(s.m[o].left, {o, y}) && Unlike(s.m[o].right, {o, y})
  }

  ghost function Copied<K>(s: Store<K>, o: Node<K>, y: Node<K>): Store<K>
    requires o in s.m && y in s.m
  { s.(m := s.m[y := s.m[o].(key := s.m[y].key)]) }

  ghost function Replaced<K>(s: Store<K>, o: Node<K>, y: Node<K>): Store<K>
    requires CanReplace(s, o, y)
  {
    var s2 := Adopted(Copied(s, o, y), s.m[o].left, y);
    var s3 := Adopted(s2, s.m[o].right, y);
    Relinked(s3, o, y, s.m[o].parent)
  }

  lemma ReplacedCells<K>(s: Store<K>, o: Node<K>, y: Node<K>, a: Node?<K>, b: Node?<K>, up: Node?<K>)
    requires CanReplace(s, o, y) && a == s.m[o].left && b == s.m[o].right && up == s.m[o].parent
    requires Unlike(a, {o, y}) && Unlike(b, {o, y}) && Unlike(up, {o, y}) && (a == null || a != b)
      && (up == null || (up != a && up != b))
    ensures var s', r := Replaced(s, o, y), Relinked(s, o, y, up);
            && s'.m.Keys == s.m.Keys == r.m.Keys && s'.min == r.min && s'.m[y] == s.m[o].(key := s.m[y].key)
            && (a != null ==> s'.m[a] == s.m[a].(parent := y))
            && (b != null ==> s'.m[b] == s.m[b].(parent := y))
            && (forall n :: n in s.m && n != y && n != a && n != b ==> s'.m[n] == r.m[n])
            && (forall n :: n in s.m && n != up ==> r.m[n] == s.m[n])
  {
  }

  lemma {:induction false} ReplacedReads<K>(s: Store<K>, z: Ctx<K>, t: Tree<K>, y: Node<K>)
    requires t.Br? && At(s, Fill(z, t)) && y in s.m && y !in Elems(Fill(z, t))
    ensures var o, a, b, up := t.n, RootOf(t.l), RootOf(t.r), ParentOf(z);
            && CanReplace(s, o, y) && a == s.m[o].left && b == s.m[o].right && up == s.m[o].parent
            && Unlike(a, {o, y}) && Unlike(b, {o, y}) && Unlike(up, {o, y}) && (a == null || a != b)
               && (up == null || (up != a && up != b))
            && Rep(s, t.l, a, o) && Rep(s, t.r, b, o) && Distinct(t.l) && Distinct(t.r) && Elems(t.l) !! Elems(t.r)
            && o !in Elems(t.l) && o !in Elems(t.r) && y !in Elems(t) && y !in CtxElems(z)
            && (up != null ==> up in CtxElems(z)) && Elems(t) !! CtxElems(z) && o !in CtxElems(z)
            && (a != null ==> a in Elems(t.l)) && (b != null ==> b in Elems(t.r))
  {
    Focus(s, z, t);
    FillElems(z, t);
    RootIn(s, t.l, s.m[t.n].left, t.n);
    RootIn(s, t.r, s.m[t.n].right, t.n);
  }

  lemma ReplacedCtx<K>(s: Store<K>, z: Ctx<K>, t: Tree<K>, y: Node<K>)
    requires t.Br? && At(s, Fill(z, t)) && y in s.m && y !in Elems(Fill(z, t))
    ensures CanReplace(s, t.n, y) && RepCtx(Replaced(s, t.n, y), z, y, ParentOf(z))
  {
    var o, a, b, up := t.n, RootOf(t.l), RootOf(t.r), ParentOf(z);
    ReplacedReads(s, z, t, y);
    ReplacedCells(s, o, y, a, b, up);
    Focus(s, z, t);
    CtxRelinked(s, z, o, y, up);
    CtxOutside(Relinked(s, o, y, up), Replaced(s, o, y), z, y, up, y, o, a, b, null);
  }

  lemma ReplacedRep<K>(s: Store<K>, z: Ctx<K>, t: Tree<K>, y: Node<K>)
    requires t.Br? && At(s, Fill(z, t)) && y in s.m && y !in Elems(Fill(z, t))
    ensures CanReplace(s, t.n, y) && Rep(Replaced(s, t.n, y), Br(t.l, y, s.m[y].key, t.r), y, ParentOf(z))
  {
    var o, a, b, up := t.n, RootOf(t.l), RootOf(t.r), ParentOf(z);
    ReplacedReads(s, z, t, y);
    ReplacedCells(s, o, y, a, b, up);
    var r, s' := Relinked(s, o, y, up), Replaced(s, o, y);
    MovedOutside(s, r, s', t.l, a, o, y, o, y, b, null, up);
    MovedOutside(s, r, s', t.r, b, o, y, o, y, a, null, up);
  }

  lemma ReplacedAt<K>(s: Store<K>, z: Ctx<K>, t: Tree<K>, y: Node<K>)
    requires t.Br? && At(s, Fill(z, t)) && y in s.m && y !in Elems(Fill(z, t))
    ensures CanReplace(s, t.n, y) && At(Replaced(s, t.n, y), Fill(z, Br(t.l, y, s.m[y].key, t.r)))
    ensures t.n in Elems(Fill(z, t)) && Elems(Fill(z, Br(t.l, y, s.m[y].key, t.r))) == Elems(Fill(z, t)) - {t.n} + {y}
  {
    var t' := Br(t.l, y, s.m[y].key, t.r);
    ReplacedCtx(s, z, t, y);
    ReplacedRep(s, z, t, y);
    Refill(Replaced(s, t.n, y), z, t');
    FillDistinct(z, t);
    FillElems(z, t);
    FillElems(z, t');
    FillDistinct(z, t');
  }

  // A node's place in the tree.
  lemma {:induction false} Place<K>(z: Ctx<K>, t: Tree<K>, n: Node<K>) returns (z': Ctx<K>, t': Tree<K>)
    requires n in Elems(t)
    ensures t'.Br? && t'.n == n && Fill(z', t') == Fill(z, t)
    decreases t
  {
    if t.n == n {
      z', t' := z, t;
    } else if n in Elems(t.l) {
      z', t' := Place(LeftOf(t.n, t.k, t.r, z), t.l, n);
    } else {
      z', t' := Place(RightOf(t.l, t.n, t.k, z), t.r, n);
    }
  }

  // The replacement may be out of order both ways; everything else is in order.
  lemma ReplacedOrder<K(!new)>(less: (K, K) -> bool, z: Ctx<K>, t: Tree<K>, y: Node<K>, k: K, n: nat)
    requires StrictWeakOrder(less) && t.Br? && Ordered(less, Fill(z, t)) && Shape(Fill(z, t), n, 1)
    ensures Sinking(less, z, Br(t.l, y, k, t.r)) && Shape(Fill(z, Br(t.l, y, k, t.r)), n, 1)
  {
    FillOrdered(less, z, t);
    var i := UnfillShape(z, t, n);
    FillShape(z, Br(t.l, y, k, t.r), n, i);
  }

  lemma {:induction false} AttachedOrder<K>(less: (K, K) -> bool, z: Ctx<K>, n: Node<K>, k: K, nelts: nat)
    requires Ordered(less, Fill(z, Leaf)) && ShapeCtx(z, nelts, nelts + 1)
    ensures Rising(less, z, Br(Leaf, n, k, Leaf)) && Shape(Fill(z, Br(Leaf, n, k, Leaf)), nelts + 1, 1)
  {
    FillOrdered(less, z, Leaf);
    CtxShapeElsewhere(z, nelts, nelts + 1);
    FillShape(z, Br(Leaf, n, k, Leaf), nelts + 1, nelts + 1);
  }

  // The store may forget nodes that the tree does not hold.
  lemma Forget<K>(s: Store<K>, s': Store<K>, t: Tree<K>)
    requires At(s, t) && s'.min == s.min && Elems(t) <= s'.m.Keys
    requires forall n :: n in s'.m ==> n in s.m && s'.m[n] == s.m[n]
    ensures At(s', t)
  {
    RepAgree(s, s', t, s.min, null);
  }

  class Heap<K(!new)> {
    var min: Node?<K>
    var nelts: nat
    ghost var nodes: set<Node<K>>
    ghost var tree: Tree<K>

    ghost function Snap(): Store<K>
      reads this`min, this`nodes, nodes
    {
      Store(min, map n | n in nodes :: Cell(n.left, n.right, n.parent, n.key))
    }

    method PutLeft(n: Node<K>, v: Node?<K>)
      requires n in nodes
      modifies n`left
      ensures Snap() == SetL(old(Snap()), n, v)
    { n.left := v; }

    method PutRight(n: Node<K>, v: Node?<K>)
      requires n in nodes
      modifies n`right
      ensures Snap() == SetR(old(Snap()), n, v)
    { n.right := v; }

    method PutParent(n: Node<K>, v: Node?<K>)
      requires n in nodes
      modifies n`parent
      ensures Snap() == SetP(old(Snap()), n, v)
    { n.parent := v; }

    method Adopt(c: Node?<K>, p: Node<K>)
      requires In(Snap(), c)
      modifies nodes`parent
      ensures Snap() == Adopted(old(Snap()), c, p)
    {
      if c != null {
        PutParent(c, p);
      }
    }

    method Relink(was: Node<K>, now: Node?<K>, parent: Node?<K>)
      requires In(Snap(), parent)
      modifies this`min, nodes`left, nodes`right, nodes`parent
      ensures Snap() == Relinked(old(Snap()), was, now, parent)
    {
      if parent == null {
        min := now;
      } else if parent.left == was {
        PutLeft(parent, now);
      } else {
        PutRight(parent, now);
      }
    }

    // t = *parent; *parent = *child; *child = t;
    method Exchange(parent: Node<K>, child: Node<K>)
      requires parent in nodes && child in nodes && parent != child
      modifies nodes`left, nodes`right, nodes`parent
      ensures Snap() == Exchanged(old(Snap()), parent, child)
    {
      parent.left, parent.right, parent.parent, child.left, child.right, child.parent :=
        child.left, child.right, child.parent, parent.left, parent.right, parent.parent;
    }

    method Mend(parent: Node<K>, child: Node<K>, sibling: Node?<K>)
      requires CanMend(Snap(), parent, child, sibling)
      modifies this`min, nodes`left, nodes`right, nodes`parent
      ensures Snap() == Mended(old(Snap()), parent, child, sibling)
    {
      var left, right := parent.left, parent.right;
      Adopt(sibling, child);
      assert parent.left == left && parent.right == right;
      Adopt(parent.left, parent);
      Adopt(parent.right, parent);
      Relink(parent, child, child.parent);
    }

    // heap_node_swap. child moves closer to the root, parent moves away.
    method NodeSwap(parent: Node<K>, child: Node<K>)
      requires CanSwap(Snap(), parent, child)
      modifies this`min, nodes`left, nodes`right, nodes`parent
      ensures Snap() == Swapped(old(Snap()), parent, child)
    {
      var sibling: Node?<K>;
      Exchange(parent, child);
      PutParent(parent, child);
      if child.left == child {
        PutLeft(child, parent);
        sibling := child.right;
      } else {
        PutRight(child, parent);
        sibling := child.left;
      }
      Mend(parent, child, sibling);
    }
    ghost predicate Valid(less: (K, K) -> bool)
      reads this, nodes
    {
      && StrictWeakOrder(less) && nodes == Elems(tree) && At(Snap(), tree)
      && Ordered(less, tree) && Shape(tree, nelts, 1)
    }

    // heap_init
    constructor (less: (K, K) -> bool)
      requires StrictWeakOrder(less)
      ensures Valid(less) && nodes == {} && nelts == 0
    {
      min, nelts, nodes, tree := null, 0, {}, Leaf;
    }

    // heap_min: no element is less.
    method Min_(less: (K, K) -> bool) returns (m: Node?<K>)
      requires Valid(less)
      ensures m == null <==> nodes == {}
      ensures m != null ==> m in nodes && forall n :: n in nodes ==> !less(n.key, m.key)
    {
      m := min;
      if tree.Br? { RootLeast(less, Snap(), tree, min, null); }
    }

    method GetAt(x: Slot<K>) returns (n: Node?<K>)
      requires SlotIn(Snap(), x)
      ensures n == GetSlot(Snap(), x)
    {
      match x
      case Min => n := min;
      case LeftSlot(m) => n := m.left;
      case RightSlot(m) => n := m.right;
    }

    method PutAt(x: Slot<K>, v: Node?<K>)
      requires SlotIn(Snap(), x)
      modifies this`min, nodes`left, nodes`right
      ensures Snap() == SetSlot(old(Snap()), x, v)
    {
      match x
      case Min => min := v;
      case LeftSlot(m) => PutLeft(m, v);
      case RightSlot(m) => PutRight(m, v);
    }

    // The first loop of heap_insert and heap_remove: the binary digits of the position
    // below the highest, the second highest in the lowest bit.
    method PathTo(position: nat) returns (path: nat, k: nat)
      requires 1 <= position
      ensures Goto(1, Bits(path, k)) == position
    {
      var n := position;
      path, k := 0, 0;
      while n >= 2
        invariant n >= 1 && Turns(position) == Turns(n) + Bits(path, k)
      {
        assert Bits(2 * path + n % 2, k + 1) == [n % 2 == 1] + Bits(path, k);
        assert Turns(n) + Bits(path, k) == Turns(n / 2) + ([n % 2 == 1] + Bits(path, k));
        path, k, n := 2 * path + n % 2, k + 1, n / 2;
      }
      assert Turns(position) == Bits(path, k);
      TurnsLead(position);
    }

    // The second loop, the walk along the path. heap_insert also uses the link before the
    // last, heap_remove does not.
    method Descend(position: nat) returns (parent: Slot<K>, child: Slot<K>, ghost z: Ctx<K>, ghost t: Tree<K>)
      requires At(Snap(), tree) && Shape(tree, nelts, 1) && 1 <= position <= nelts + 1
      ensures Fill(z, t) == tree && child == SlotOf(z) && ShapeCtx(z, nelts, position) && Shape(t, nelts, position)
      ensures SlotIn(Snap(), parent) && (t.Leaf? || position > 1 ==> GetSlot(Snap(), parent) == ParentOf(z))
    {
      hide OnWalk;
      var path, k := PathTo(position);
      parent, child := Min, Min;
      z, t := Top, tree;
      ghost var i: nat := 1;
      WalkBegins(Snap(), tree, nelts);
      while k > 0
        invariant Goto(i, Bits(path, k)) == position && OnWalk(Snap(), tree, nelts, i, z, t, parent, child)
      {
        WalkStep(Snap(), tree, nelts, i, z, t, parent, child, path, k);
        parent := child;
        var next := GetAt(child);
        if path % 2 == 1 {
          child := RightSlot(next);
          z, t, i := RightOf(t.l, t.n, t.k, z), t.r, 2 * i + 1;
        } else {
          child := LeftSlot(next);
          z, t, i := LeftOf(t.n, t.k, t.r, z), t.l, 2 * i;
        }
        path, k := path / 2, k - 1;
      }
      WalkEnds(Snap(), tree, nelts, i, z, t, parent, child, path);
    }

    // The loop that swaps a node with its parent while it is less.
    method Rise(node: Node<K>, less: (K, K) -> bool, ghost z0: Ctx<K>, ghost t0: Tree<K>) returns (ghost tree': Tree<K>)
      requires StrictWeakOrder(less) && t0.Br? && t0.n == node && At(Snap(), Fill(z0, t0)) && Rising(less, z0, t0)
      requires Shape(Fill(z0, t0), nelts, 1)
      modifies this`min, nodes`left, nodes`right, nodes`parent
      ensures At(Snap(), tree') && Ordered(less, tree') && Shape(tree', nelts, 1) && Elems(tree') == Elems(Fill(z0, t0))
    {
      ghost var z, t := z0, t0;
      SlotHolds(Snap(), z, t);
      while node.parent != null && less(node.key, node.parent.key)
        invariant t.Br? && t.n == node && node in nodes && node.parent == ParentOf(z) && node.key == t.k
        invariant !z.Top? ==> z.n in nodes && z.n.key == z.k
        invariant At(Snap(), Fill(z, t)) && Rising(less, z, t) && Shape(Fill(z, t), nelts, 1)
          && Elems(Fill(z, t)) == Elems(Fill(z0, t0))
        decreases Depth(z)
      {
        RiseStep(less, z, t);
        SwapAt(Snap(), z.up, Up(z, t), z.LeftOf?);
        SwapShape(z.up, Up(z, t), z.LeftOf?, nelts);
        NodeSwap(node.parent, node);
        z, t := z.up, Swap(Up(z, t), z.LeftOf?);
        SlotHolds(Snap(), z, t);
      }
      RiseDone(less, z, t);
      tree' := Fill(z, t);
    }

    // The loop that swaps a node with its smallest child while that is less.
    method Sink(child: Node<K>, less: (K, K) -> bool, ghost z0: Ctx<K>, ghost t0: Tree<K>)
      returns (ghost z: Ctx<K>, ghost t: Tree<K>)
      requires StrictWeakOrder(less) && t0.Br? && t0.n == child && At(Snap(), Fill(z0, t0)) && Sinking(less, z0, t0)
      requires Shape(Fill(z0, t0), nelts, 1)
      modifies this`min, nodes`left, nodes`right, nodes`parent
      ensures t.Br? && t.n == child && At(Snap(), Fill(z, t)) && Rising(less, z, t) && Shape(Fill(z, t), nelts, 1)
      ensures Elems(Fill(z, t)) == Elems(Fill(z0, t0))
    {
      z, t := z0, t0;
      while true
        invariant t.Br? && t.n == child && At(Snap(), Fill(z, t)) && Sinking(less, z, t) && Shape(Fill(z, t), nelts, 1)
        invariant Elems(Fill(z, t)) == Elems(Fill(z0, t0))
        decreases Height(t)
      {
        SlotHolds(Snap(), z, t);
        var smallest := child;
        if child.left != null && less(child.left.key, smallest.key) {
          smallest := child.left;
        }
        if child.right != null && less(child.right.key, smallest.key) {
          smallest := child.right;
        }
        if smallest == child {
          break;
        }
        ghost var left := t.l.Br? && smallest == t.l.n;
        SwapAt(Snap(), z, t, left);
        SwapShape(z, t, left, nelts);
        SinkStep(less, z, t, left);
        NodeSwap(child, smallest);
        z, t := SinkCtx(z, t, left), SinkTree(t, left);
      }
    }

    method AddLeaf(newnode: Node<K>, up: Node?<K>)
      requires newnode !in nodes
      modifies this`nodes, newnode`left, newnode`right, newnode`parent
      ensures nodes == old(nodes) + {newnode}
      ensures Snap() == old(Snap()).(m := old(Snap()).m[newnode := Cell(null, null, up, newnode.key)])
    {
      newnode.left, newnode.right, newnode.parent := null, null, up;
      nodes := nodes + {newnode};
    }

    method LinkNew(newnode: Node<K>, up: Node?<K>, child: Slot<K>, ghost z: Ctx<K>)
      requires At(Snap(), Fill(z, Leaf)) && newnode !in nodes && Elems(Fill(z, Leaf)) == nodes && child == SlotOf(z)
        && up == ParentOf(z)
      modifies this`min, this`nelts, this`nodes, nodes`left, nodes`right, nodes`parent, newnode`left, newnode`right,
        newnode`parent
      ensures nodes == old(nodes) + {newnode} && nelts == old(nelts) + 1
      ensures At(Snap(), Fill(z, Br(Leaf, newnode, newnode.key, Leaf)))
      ensures Elems(Fill(z, Br(Leaf, newnode, newnode.key, Leaf))) == nodes
    {
      ghost var s := Snap();
      AddLeaf(newnode, up);
      hide Distinct, Rep, Elems, Fill;
      Attached(s, z, newnode, newnode.key, Snap());
      PutAt(child, newnode);
      nelts := nelts + 1;
    }

    method InsertAt(newnode: Node<K>, up: Node?<K>, child: Slot<K>, less: (K, K) -> bool, ghost z: Ctx<K>)
      requires StrictWeakOrder(less) && At(Snap(), Fill(z, Leaf)) && newnode !in nodes && Elems(Fill(z, Leaf)) == nodes
      requires child == SlotOf(z) && up == ParentOf(z) && Ordered(less, Fill(z, Leaf)) && ShapeCtx(z, nelts, nelts + 1)
      modifies this, nodes`left, nodes`right, nodes`parent, newnode`left, newnode`right, newnode`parent
      ensures nodes == old(nodes) + {newnode} == Elems(tree) && nelts == old(nelts) + 1
      ensures At(Snap(), tree) && Ordered(less, tree) && Shape(tree, nelts, 1)
    {
      hide Shape;
      hide Ordered;
      hide ShapeCtx;
      AttachedOrder(less, z, newnode, newnode.key, nelts);
      LinkNew(newnode, up, child, z);
      tree := Rise(newnode, less, z, Br(Leaf, newnode, newnode.key, Leaf));
    }

    // heap_insert
    method Insert(newnode: Node<K>, less: (K, K) -> bool)
      requires Valid(less) && newnode !in nodes
      modifies this, nodes`left, nodes`right, nodes`parent, newnode`left, newnode`right, newnode`parent
      ensures Valid(less) && nodes == old(nodes) + {newnode} && nelts == old(nelts) + 1
    {
      var parent, child;
      ghost var z, t;
      parent, child, z, t := Descend(1 + nelts);
      var up := GetAt(parent);
      InsertAt(newnode, up, child, less, z);
    }

    method CutAt(max: Slot<K>) returns (child: Node<K>)
      requires SlotIn(Snap(), max) && GetSlot(Snap(), max) != null
      modifies this`min, nodes`left, nodes`right
      ensures child == GetSlot(old(Snap()), max) && Snap() == SetSlot(old(Snap()), max, null)
    {
      child := GetAt(max);
      PutAt(max, null);
    }

    // heap_remove: the last node leaves its position.
    method UnlinkLast(ghost less: (K, K) -> bool) returns (child: Node<K>, ghost tree': Tree<K>)
      requires At(Snap(), tree) && Shape(tree, nelts, 1) && nelts > 0 && nodes == Elems(tree) && Ordered(less, tree)
      modifies this`min, this`nelts, nodes`left, nodes`right
      ensures nelts == old(nelts) - 1 && At(Snap(), tree') && Shape(tree', nelts, 1) && Ordered(less, tree')
      ensures child in nodes && Elems(tree') == nodes - {child}
    {
      hide Shape;
      hide Ordered;
      hide Elems;
      hide Fill;
      var parent, max;
      ghost var z, t;
      parent, max, z, t := Descend(nelts);
      tree' := Fill(z, Leaf);
      LastUnlinked(Snap(), less, z, t, nelts - 1);
      nelts := nelts - 1;
      child := CutAt(max);
    }

    // heap_remove: the last node takes the place of the removed one.
    method Replace(node: Node<K>, child: Node<K>)
      requires CanReplace(Snap(), node, child)
      modifies this`min, nodes`left, nodes`right, nodes`parent
      ensures Snap() == Replaced(old(Snap()), node, child)
    {
      child.left, child.right, child.parent := node.left, node.right, node.parent;
      assert Snap() == Copied(old(Snap()), node, child);
      Adopt(child.left, child);
      Adopt(child.right, child);
      Relink(node, child, node.parent);
    }

    method PutIn(node: Node<K>, child: Node<K>, ghost less: (K, K) -> bool) returns (ghost z: Ctx<K>, ghost t: Tree<K>)
      requires StrictWeakOrder(less) && At(Snap(), tree) && Ordered(less, tree) && Shape(tree, nelts, 1)
      requires node in Elems(tree) && child in nodes && child !in Elems(tree)
      modifies this`min, nodes`left, nodes`right, nodes`parent
      ensures t.Br? && t.n == child && At(Snap(), Fill(z, t)) && Sinking(less, z, t) && Shape(Fill(z, t), nelts, 1)
      ensures Elems(Fill(z, t)) == Elems(tree) - {node} + {child}
    {
      z, t := Place(Top, tree, node);
      ReplacedAt(Snap(), z, t, child);
      ReplacedOrder(less, z, t, child, child.key, nelts);
      Replace(node, child);
      t := Br(t.l, child, child.key, t.r);
    }

    // heap_remove: the replacement first sinks, then rises.
    method RemoveInner(node: Node<K>, child: Node<K>, less: (K, K) -> bool)
      requires StrictWeakOrder(less) && At(Snap(), tree) && Ordered(less, tree) && Shape(tree, nelts, 1)
      requires node in Elems(tree) && child in nodes && child !in Elems(tree)
      modifies this`min, this`tree, nodes`left, nodes`right, nodes`parent
      ensures At(Snap(), tree) && Ordered(less, tree) && Shape(tree, nelts, 1)
      ensures Elems(tree) == old(Elems(tree)) - {node} + {child}
    {
      hide *;
      ghost var z, t := PutIn(node, child, less);
      z, t := Sink(child, less, z, t);
      tree := Rise(child, less, z, t);
    }

    // heap_dequeue
    method Dequeue(less: (K, K) -> bool)
      requires Valid(less)
      modifies this, nodes`left, nodes`right, nodes`parent
      ensures Valid(less)
      ensures if old(nodes) == {} then nodes == {} else nodes == old(nodes) - {old(min)} && nelts == old(nelts) - 1
    {
      HeapCount(tree, nelts);
      Remove(min, less);
    }

    method RemoveOne(node: Node<K>, less: (K, K) -> bool)
      requires Valid(less) && nelts > 0 && node in nodes
      modifies this`min, this`nelts, this`tree, nodes`left, nodes`right, nodes`parent
      ensures At(Snap(), tree) && Ordered(less, tree) && Shape(tree, nelts, 1)
      ensures nelts == old(nelts) - 1 && Elems(tree) == nodes - {node}
    {
      var child;
      child, tree := UnlinkLast(less);
      // The code also has: if child is node and the heap's min, clear min. By then the link
      // that led to the last node, min included, is already cleared.
      assert child != min;
      if child != node {
        RemoveInner(node, child, less);
      }
    }

    // heap_remove
    method Remove(node: Node?<K>, less: (K, K) -> bool)
      requires Valid(less) && (nelts > 0 ==> node in nodes)
      modifies this, nodes`left, nodes`right, nodes`parent
      ensures Valid(less) && nelts == (if old(nelts) == 0 then 0 else old(nelts) - 1)
      ensures nodes == if old(nelts) == 0 then old(nodes) else old(nodes) - {node}
    {
      if nelts != 0 {
        RemoveOne(node, less);
        ghost var s := Snap();
        nodes := nodes - {node};
        Forget(s, Snap(), tree);
      }
    }
  }
}
