// The child lists of cJSON items: next chains that end in NULL, prev as their mirror, and
// the prev of the first element pointing at the last one.

module CJsonList {

  import opened Wrappers

  // type with its two flags, valueint, the bits of valuedouble, valuestring and string.
  datatype Data = Data(
    kind: int, isReference: bool, stringIsConst: bool, number: int, double: int,
    text: Option<seq<char>>, name: Option<seq<char>>)

  const NEW_DATA: Data := Data(0, false, false, 0, 0, None, None)

  // What a duplicate has: everything but the flag cJSON_IsReference.
  function Copied(d: Data): Data { d.(isReference := false) }

  class Node {
    var next: Node?
    var prev: Node?
    var child: Node?
    var data: Data

    // cJSON_New_Item
    constructor ()
      ensures next == null && prev == null && child == null && data == NEW_DATA
    {
      next, prev, child, data := null, null, null, NEW_DATA;
    }
  }

  // ---------- Lists ----------

  predicate Distinct<T(==)>(s: seq<T>) { forall i, j :: 0 <= i < j < |s| ==> s[i] != s[j] }

  // The next chain through s ends in NULL, and prev mirrors it.
  ghost predicate Chain(s: seq<Node>)
    reads s`next, s`prev
  {
    && (forall i :: 0 <= i < |s| - 1 ==> s[i].next == s[i + 1])
    && (forall i :: 0 < i < |s| ==> s[i].prev == s[i - 1])
    && (s != [] ==> s[|s| - 1].next == null)
  }

  // The children of parent are s.
  ghost predicate Children(parent: Node, s: seq<Node>)
    reads parent`child, s`next, s`prev
  { Distinct(s) && parent !in s && ListOk(parent, s) }

  ghost predicate ListOk(parent: Node, s: seq<Node>)
    reads parent`child, s`next, s`prev
  { Chain(s) && parent.child == (if s == [] then null else s[0]) && (s != [] ==> s[0].prev == s[|s| - 1]) }

  // add_item_to_array. With children present, item->next is not cleared: the list is well
  // formed afterwards exactly if it was NULL before.
  method AddItem(parent: Node, item: Node, ghost s: seq<Node>) returns (ok: bool)
    requires Children(parent, s) && item !in s
    modifies parent`child, item`next, item`prev, s`next, s`prev
    ensures ok <==> parent != item
    ensures !ok ==> Children(parent, s)
    ensures ok ==> (Children(parent, s + [item]) <==> s == [] || old(item.next) == null)
  {
    if parent == item { return false; }
    var child := parent.child;
    ghost var t := s + [item];
    assert t[|s|] == item && forall k :: 0 <= k < |s| ==> t[k] == s[k] && s[k] != item;
    if child == null {
      parent.child := item;
      item.prev := item;
      item.next := null;
    } else {
      var last := child.prev;
      assert last == s[|s| - 1] && last in s && s[0] in s;
      last.next := item;
      item.prev := last;
      parent.child.prev := item;
    }
    ok := true;
  }

  // It happens: an item with a sibling of its own is appended to a list of one. The call is
  // not refused, and the list is not well formed afterwards.
  method DanglingAppend(parent: Node, first: Node, item: Node, sibling: Node) returns (ok: bool)
    requires Children(parent, [first]) && item !in {parent, first}
    modifies parent`child, item`next, item`prev, first`next, first`prev
    ensures ok && !Children(parent, [first, item])
  {
    item.next := sibling;
    ok := AddItem(parent, item, [first]);
    assert [first] + [item] == [first, item];
  }

  // get_array_item
  method GetItem(parent: Node, index: nat, ghost s: seq<Node>) returns (r: Node?)
    requires Children(parent, s)
    ensures r == if index < |s| then s[index] else null
  {
    r := parent.child;
    var i := index;
    ghost var k := 0;
    while r != null && i > 0
      invariant k + i == index && 0 <= i && 0 <= k <= |s| && r == if k < |s| then s[k] else null
      decreases i
    {
      assert k < |s| - 1 ==> s[k].next == s[k + 1];
      i := i - 1;
      r := r.next;
      k := k + 1;
    }
  }

  function Without<T>(s: seq<T>, i: nat): seq<T>
    requires i < |s|
  { s[..i] + s[i + 1..] }

  // The neighbours from index a to index b are linked both ways.
  ghost predicate Links(s: seq<Node>, a: nat, b: nat)
    reads s`next, s`prev
  {
    forall k, m :: a <= k && m == k + 1 && m < b <= |s| ==> s[k].next == s[m] && s[m].prev == s[k]
  }

  // The list s without the node at index i, once all links are set.
  lemma RemovedList(parent: Node, s: seq<Node>, i: nat)
    requires i < |s| && Distinct(s) && Links(s, 0, i) && Links(s, i + 1, |s|)
    requires 0 < i < |s| - 1 ==> s[i - 1].next == s[i + 1] && s[i + 1].prev == s[i - 1]
    requires i < |s| - 1 ==> s[|s| - 1].next == null
    requires 0 < i == |s| - 1 ==> s[i - 1].next == null && s[0].prev == s[i - 1]
    requires 0 < i < |s| - 1 ==> s[0].prev == s[|s| - 1]
    requires if |s| == 1 then parent.child == null
             else if i > 0 then parent.child == s[0]
             else parent.child == s[1] && s[1].prev == s[|s| - 1]
    ensures Distinct(Without(s, i)) && ListOk(parent, Without(s, i))
  {
    var t := Without(s, i);
    assert forall k :: 0 <= k < |t| ==> t[k] == if k < i then s[k] else s[k + 1];
  }

  // cJSON_DetachItemViaPointer on the child at index i.
  method Detach(parent: Node, item: Node, ghost s: seq<Node>, ghost i: nat)
    requires Children(parent, s) && i < |s| && s[i] == item
    modifies parent`child, s`next, s`prev
    ensures Children(parent, Without(s, i)) && item.next == null && item.prev == null
  {
    assert i + 1 < |s| ==> item.next == s[i + 1];
    assert i > 0 ==> item.prev == s[i - 1] && s[0] != item;
    if item != parent.child {
      item.prev.next := item.next;
    }
    if item.next != null {
      item.next.prev := item.prev;
    }
    if item == parent.child {
      parent.child := item.next;
    } else if item.next == null {
      parent.child.prev := item.prev;
    }
    item.prev := null;
    item.next := null;
    assert Links(s, 0, i) && Links(s, i + 1, |s|);
    RemovedList(parent, s, i);
  }

  // cJSON_DetachItemFromArray
  method DetachAt(parent: Node, which: int, ghost s: seq<Node>) returns (r: Node?)
    requires Children(parent, s)
    modifies parent`child, s`next, s`prev
    ensures !(0 <= which < |s|) ==> r == null && Children(parent, s)
    ensures 0 <= which < |s| ==>
      r == s[which] && s[which].next == null && s[which].prev == null && Children(parent, Without(s, which))
  {
    if which < 0 { return null; }
    r := GetItem(parent, which, s);
    if r == null { return; }
    Detach(parent, r, s, which);
  }

  // cJSON_InsertItemInArray. Behind the last index it appends, with the conditions of
  // AddItem; before that it does not refuse to insert an array into itself.
  method Insert(parent: Node, which: int, item: Node, ghost s: seq<Node>) returns (ok: bool)
    requires Children(parent, s) && item !in s
    modifies parent`child, item`next, item`prev, s`next, s`prev
    ensures ok <==> which >= 0 && !(which >= |s| && item == parent)
    ensures !ok ==> Children(parent, s)
    ensures 0 <= which < |s| ==> ListOk(parent, s[..which] + [item] + s[which..])
    ensures 0 <= which < |s| ==> (Children(parent, s[..which] + [item] + s[which..]) <==> item != parent)
    ensures ok && which >= |s| ==> (Children(parent, s + [item]) <==> s == [] || old(item.next) == null)
  {
    if which < 0 { return false; }
    var after := GetItem(parent, which, s);
    if after == null {
      ok := AddItem(parent, item, s);
      return;
    }
    InsertBefore(parent, after, item, s, which);
    hide ListOk;
    ok := true;
  }

  // The list s with x in front of the node at index i, once all links are set.
  lemma InsertedList(parent: Node, s: seq<Node>, i: nat, x: Node)
    requires i < |s| && Distinct(s) && x !in s && Links(s, 0, i) && Links(s, i, |s|)
    requires s[|s| - 1].next == null && x.next == s[i] && s[i].prev == x && (i > 0 ==> s[i - 1].next == x)
    requires if i == 0 then parent.child == x && x.prev == s[|s| - 1]
             else parent.child == s[0] && s[0].prev == s[|s| - 1] && x.prev == s[i - 1]
    ensures Distinct(s[..i] + [x] + s[i..]) && ListOk(parent, s[..i] + [x] + s[i..])
  {
    var t := s[..i] + [x] + s[i..];
    assert forall k :: 0 <= k < |t| ==> t[k] == if k < i then s[k] else if k == i then x else s[k - 1];
    forall a, b | 0 <= a < b < |t| ensures t[a] != t[b] {
      assert a != i ==> t[a] == s[if a < i then a else a - 1] && t[a] in s;
      assert b != i ==> t[b] == s[if b < i then b else b - 1] && t[b] in s;
    }
  }

  // The rest of cJSON_InsertItemInArray, with the child at index i found.
  method InsertBefore(parent: Node, after: Node, item: Node, ghost s: seq<Node>, ghost i: nat)
    requires Children(parent, s) && item !in s && i < |s| && s[i] == after
    modifies parent`child, item`next, item`prev, s`next, s`prev
    ensures Distinct(s[..i] + [item] + s[i..]) && ListOk(parent, s[..i] + [item] + s[i..])
  {
    assert i > 0 ==> after.prev == s[i - 1] && s[0] != after;
    item.next := after;
    item.prev := after.prev;
    after.prev := item;
    if after == parent.child {
      parent.child := item;
    } else {
      item.prev.next := item;
    }
    assert Links(s, 0, i) && Links(s, i, |s|);
    InsertedList(parent, s, i, item);
  }

  // cJSON_ReplaceItemViaPointer on the child at index i. The old item is deleted by the
  // original; here it is only unlinked. An array may replace one of its own children.
  method Replace(parent: Node, item: Node, replacement: Node, ghost s: seq<Node>, ghost i: nat)
    requires Children(parent, s) && i < |s| && s[i] == item && (replacement !in s || replacement == item)
    modifies parent`child, replacement`next, replacement`prev, s`next, s`prev
    ensures Distinct(s[i := replacement]) && ListOk(parent, s[i := replacement])
    ensures replacement != parent ==> parent !in s[i := replacement]
    ensures replacement != item ==> item.next == null && item.prev == null
  {
    if replacement == item {
      assert s[i := replacement] == s;
      return;
    }
    ghost var t := s[i := replacement];
    assert forall k :: 0 <= k < |t| ==> t[k] == if k == i then replacement else s[k];
    assert i + 1 < |s| ==> item.next == s[i + 1];
    assert i > 0 ==> item.prev == s[i - 1] && s[0] != item;
    replacement.next := item.next;
    replacement.prev := item.prev;
    if replacement.next != null {
      replacement.next.prev := replacement;
    }
    if parent.child == item {
      if parent.child.prev == parent.child {
        replacement.prev := replacement;
      }
      parent.child := replacement;
    } else {
      if replacement.prev != null {
        replacement.prev.next := replacement;
      }
      if replacement.next == null {
        parent.child.prev := replacement;
      }
    }
    item.next := null;
    item.prev := null;
  }

  // ---------- Trees ----------

  // The items below an item, for statements: which node stands where.
  datatype Tree = Tree(node: Node, kids: Kids)
  datatype Kids = NoKids | Kid(first: Tree, rest: Kids)

  ghost function Nodes(t: Tree): set<Node>
    decreases t
  { {t.node} + KidNodes(t.kids) }

  ghost function KidNodes(k: Kids): set<Node>
    decreases k
  { if k.NoKids? then {} else Nodes(k.first) + KidNodes(k.rest) }

  // The nodes strictly below the elements of a list.
  ghost function Inner(k: Kids): set<Node>
    decreases k
  { if k.NoKids? then {} else KidNodes(k.first.kids) + Inner(k.rest) }

  ghost function Heads(k: Kids): seq<Node>
    decreases k
  { if k.NoKids? then [] else [k.first.node] + Heads(k.rest) }

  // No node stands in two places.
  ghost predicate Apart(k: Kids)
    decreases k
  {
    k.Kid? ==>
      && k.first.node !in KidNodes(k.first.kids) && Apart(k.first.kids)
      && Nodes(k.first) !! KidNodes(k.rest) && Apart(k.rest)
  }

  // Every list in the tree is well formed.
  ghost predicate Lists(t: Tree)
    reads Nodes(t)`child, KidNodes(t.kids)`next, KidNodes(t.kids)`prev
    decreases t, 1
  {
    HeadsInside(t.kids);
    ListOk(t.node, Heads(t.kids)) && KidLists(t.kids)
  }

  ghost predicate KidLists(k: Kids)
    reads KidNodes(k)`child, Inner(k)`next, Inner(k)`prev
    decreases k, 0
  { k.Kid? ==> Lists(k.first) && KidLists(k.rest) }

  lemma {:induction false} HeadsInside(k: Kids)
    ensures (forall n :: n in Heads(k) ==> n in KidNodes(k)) && Inner(k) <= KidNodes(k)
    decreases k
  {
    if k.Kid? { HeadsInside(k.rest); }
  }

  // The second tree has the shape and the data of a copy of the first.
  ghost predicate Same(t: Tree, u: Tree)
    reads Nodes(t)`data, Nodes(u)`data
    decreases t, 1
  { u.node.data == Copied(t.node.data) && SameKids(t.kids, u.kids) }

  ghost predicate SameKids(k: Kids, l: Kids)
    reads KidNodes(k)`data, KidNodes(l)`data
    decreases k, 0
  { if k.NoKids? then l.NoKids? else l.Kid? && Same(k.first, l.first) && SameKids(k.rest, l.rest) }

  ghost function AppendKid(k: Kids, t: Tree): Kids
    decreases k
  { if k.NoKids? then Kid(t, NoKids) else Kid(k.first, AppendKid(k.rest, t)) }

  ghost function JoinKids(k: Kids, l: Kids): Kids
    decreases k
  { if k.NoKids? then l else Kid(k.first, JoinKids(k.rest, l)) }

  lemma {:induction false} JoinOne(k: Kids, t: Tree, l: Kids)
    ensures JoinKids(AppendKid(k, t), l) == JoinKids(k, Kid(t, l))
    decreases k
  {
    if k.Kid? { JoinOne(k.rest, t, l); }
  }

  lemma {:induction false} JoinNone(k: Kids)
    ensures JoinKids(k, NoKids) == k
    decreases k
  {
    if k.Kid? { JoinNone(k.rest); }
  }

  lemma {:induction false} AppendNodes(k: Kids, t: Tree)
    ensures KidNodes(AppendKid(k, t)) == KidNodes(k) + Nodes(t) && Inner(AppendKid(k, t)) == Inner(k) + KidNodes(t.kids)
    ensures Heads(AppendKid(k, t)) == Heads(k) + [t.node]
    decreases k
  {
    if k.Kid? { AppendNodes(k.rest, t); }
  }

  lemma {:induction false} AppendApart(k: Kids, t: Tree)
    requires Apart(k) && t.node !in KidNodes(t.kids) && Apart(t.kids) && KidNodes(k) !! Nodes(t)
    ensures Apart(AppendKid(k, t))
    decreases k
  {
    if k.Kid? {
      AppendApart(k.rest, t);
      AppendNodes(k.rest, t);
    }
  }

  lemma {:induction false} AppendLists(k: Kids, t: Tree)
    requires KidLists(k) && Lists(t)
    ensures KidLists(AppendKid(k, t))
    decreases k
  {
    if k.Kid? { AppendLists(k.rest, t); }
  }

  lemma {:induction false} AppendSame(k: Kids, t: Tree, l: Kids, u: Tree)
    requires SameKids(k, l) && Same(t, u)
    ensures SameKids(AppendKid(k, t), AppendKid(l, u))
    decreases k
  {
    if k.Kid? { AppendSame(k.rest, t, l.rest, u); }
  }

  // The elements of a list are not below one another.
  lemma {:induction false} HeadsApart(k: Kids)
    requires Apart(k)
    ensures Distinct(Heads(k)) && forall n :: n in Heads(k) ==> n !in Inner(k)
    decreases k
  {
    HeadsInside(k);
    if k.Kid? {
      HeadsApart(k.rest);
      HeadsInside(k.rest);
    }
  }

  // A duplicate under construction: the children that are linked so far.
  ghost predicate Growing(newitem: Node, done: Kids)
    reads newitem`child, KidNodes(done)`child, KidNodes(done)`next, KidNodes(done)`prev
  {
    HeadsInside(done);
    var s := Heads(done);
    && newitem !in KidNodes(done) && Apart(done) && KidLists(done) && Chain(s)
    && newitem.child == if s == [] then null else s[0]
  }

  // The next duplicated child is linked behind the last one.
  method LinkChild(newitem: Node, last: Node?, newchild: Node, ghost done: Kids, ghost u: Tree)
    requires Growing(newitem, done) && last == (if done.NoKids? then null else Heads(done)[|Heads(done)| - 1])
    requires u.node == newchild && newchild !in KidNodes(u.kids) && Apart(u.kids) && Lists(u)
    requires Nodes(u) !! KidNodes(done) && newitem !in Nodes(u) && newchild.next == null
    modifies newitem`child, newchild`prev, KidNodes(done)`next
    ensures Growing(newitem, AppendKid(done, u))
  {
    hide Lists;
    hide KidLists;
    hide Apart;
    hide AppendKid;
    HeadsInside(done);
    HeadsApart(done);
    AppendNodes(done, u);
    AppendApart(done, u);
    ghost var s := Heads(done);
    if last != null {
      assert last in s;
      last.next := newchild;
      newchild.prev := last;
    } else {
      newitem.child := newchild;
    }
    AppendLists(done, u);
  }

  // The children that are still to be duplicated, and where the loop stands in their list.
  ghost predicate Remaining(t: Tree, seen: Kids, rest: Kids, child: Node?)
    reads KidNodes(rest)`child, KidNodes(rest)`next, KidNodes(rest)`prev
  {
    HeadsInside(rest);
    && JoinKids(seen, rest) == t.kids && KidLists(rest) && Chain(Heads(rest))
    && child == if rest.NoKids? then null else rest.first.node
  }

  lemma RemainingStart(t: Tree)
    requires Lists(t)
    ensures Remaining(t, NoKids, t.kids, t.node.child)
  {
    HeadsInside(t.kids);
  }

  lemma RemainingStep(t: Tree, seen: Kids, rest: Kids, child: Node)
    requires Remaining(t, seen, rest, child)
    ensures rest.Kid? && rest.first.node == child && Lists(rest.first)
    ensures Remaining(t, AppendKid(seen, rest.first), rest.rest, child.next)
  {
    HeadsInside(rest);
    HeadsInside(rest.rest);
    JoinOne(seen, rest.first, rest.rest);
    var s, r := Heads(rest), Heads(rest.rest);
    assert s == [child] + r;
    assert forall i :: 0 <= i < |r| ==> r[i] == s[i + 1];
    if r != [] { assert s[0].next == s[1] && r[|r| - 1] == s[|s| - 1]; }
  }

  // cJSON_Duplicate. The copy u is equal, made of new nodes only, and its lists are well
  // formed; without recursion it has no children. heap holds the nodes of the original,
  // nodes those of the copy.
  method Duplicate(item: Node, recurse: bool, ghost t: Tree, ghost heap: set<Node>)
    returns (newitem: Node, ghost u: Tree, ghost nodes: set<Node>)
    requires t.node == item && Lists(t) && Nodes(t) <= heap
    ensures u.node == newitem && nodes == Nodes(u) && fresh(nodes) && newitem.next == null && newitem.prev == null
    ensures newitem !in KidNodes(u.kids) && Apart(u.kids) && Lists(u)
    ensures if recurse then Same(t, u) else u.kids.NoKids? && newitem.data == Copied(item.data)
    decreases t, 1
  {
    newitem := new Node();
    newitem.data := item.data.(isReference := false);
    u, nodes := Tree(newitem, NoKids), {newitem};
    if !recurse { return; }
    var newchild;
    ghost var done, more;
    newchild, done, more := DuplicateKids(newitem, item.child, t, heap);
    CloseList(newitem, newchild, done);
    u, nodes := Tree(newitem, done), nodes + more;
  }

  // The loop over the children, which leaves the prev of the first one open.
  method DuplicateKids(newitem: Node, first: Node?, ghost t: Tree, ghost heap: set<Node>)
    returns (newchild: Node?, ghost done: Kids, ghost nodes: set<Node>)
    requires Lists(t) && first == t.node.child && Nodes(t) <= heap && newitem !in heap && newitem.child == null
    modifies newitem`child
    ensures nodes == KidNodes(done) && fresh(nodes) && Growing(newitem, done) && newchild == Last(done)
    ensures SameKids(t.kids, done)
    decreases t, 0
  {
    RemainingStart(t);
    StartGrowing(newitem);
    hide Growing;
    hide Remaining;
    hide SameKids;
    hide AppendKid;
    hide Last;
    var child := first;
    newchild := null;
    ghost var seen, rest := NoKids, t.kids;
    done, nodes := NoKids, {};
    while child != null
      invariant fresh(nodes) && nodes == KidNodes(done)
      invariant Growing(newitem, done) && newchild == Last(done)
      invariant Remaining(t, seen, rest, child) && SameKids(seen, done) && KidNodes(rest) + KidNodes(seen) <= heap
      invariant rest == t.kids || rest < t.kids
      decreases rest
    {
      RemainingStep(t, seen, rest, child);
      ghost var v, more;
      newchild, v, more := DuplicateNext(newitem, newchild, child, done, rest.first, heap, {newitem} + nodes);
      Progress(t, seen, rest, child, done, v);
      child := child.next;
      nodes, done, seen, rest := nodes + more, AppendKid(done, v), AppendKid(seen, rest.first), rest.rest;
    }
    AllSeen(t, seen, rest);
  }

  lemma StartGrowing(newitem: Node)
    requires newitem.child == null
    ensures Growing(newitem, NoKids) && Last(NoKids) == null && SameKids(NoKids, NoKids)
  {
  }

  lemma AllSeen(t: Tree, seen: Kids, rest: Kids)
    requires Remaining(t, seen, rest, null)
    ensures seen == t.kids
  {
    JoinNone(seen);
  }

  lemma {:induction false} Progress(t: Tree, seen: Kids, rest: Kids, child: Node, done: Kids, v: Tree)
    requires rest.Kid? && Same(rest.first, v) && SameKids(seen, done)
    ensures SameKids(AppendKid(seen, rest.first), AppendKid(done, v))
    ensures KidNodes(AppendKid(seen, rest.first)) + KidNodes(rest.rest) == KidNodes(seen) + KidNodes(rest)
    ensures KidNodes(AppendKid(done, v)) == KidNodes(done) + Nodes(v)
  {
    AppendNodes(seen, rest.first);
    AppendSame(seen, rest.first, done, v);
    AppendNodes(done, v);
  }

  ghost function Last(k: Kids): Node? { if k.NoKids? then null else Heads(k)[|Heads(k)| - 1] }

  // One turn of the loop over the children.
  method DuplicateNext(newitem: Node, last: Node?, child: Node, ghost done: Kids, ghost x: Tree, ghost heap: set<Node>,
    ghost made: set<Node>)
    returns (newchild: Node, ghost v: Tree, ghost nodes: set<Node>)
    requires Growing(newitem, done) && last == Last(done)
    requires x.node == child && Lists(x) && Nodes(x) <= heap && made == {newitem} + KidNodes(done) && heap !! made
    modifies newitem`child, KidNodes(done)`next
    ensures v.node == newchild && nodes == Nodes(v) && fresh(nodes) && Same(x, v)
    ensures Growing(newitem, AppendKid(done, v)) && newchild == Last(AppendKid(done, v))
    decreases x, 2
  {
    newchild, v, nodes := Duplicate(child, true, x, heap);
    AppendNodes(done, v);
    assert made !! nodes;
    LinkChild(newitem, last, newchild, done, v);
  }

  // The prev of the first child, set last.
  method CloseList(newitem: Node, last: Node?, ghost done: Kids)
    requires Growing(newitem, done) && last == Last(done)
    modifies KidNodes(done)`prev
    ensures Lists(Tree(newitem, done)) && newitem !in KidNodes(done) && Apart(done)
  {
    HeadsInside(done);
    HeadsApart(done);
    if newitem.child != null {
      assert newitem.child in Heads(done);
      newitem.child.prev := last;
    }
  }
}
