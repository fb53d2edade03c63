// What several of the models share.

module Wrappers {

  datatype Option<T> = None | Some(value: T)
}

module Powers {

  function Pow2(n: nat): nat {
    if n == 0 then 1 else 2 * Pow2(n - 1)
  }
}

// Intrusive queues as sequences: an element is linked once, and unlinked wherever it is.
module Queues {

  predicate Once<T(==)>(q: seq<T>) {
    forall i, j :: 0 <= i < j < |q| ==> q[i] != q[j]
  }

  function Without<T(==)>(q: seq<T>, x: T): seq<T> {
    if q == [] then [] else (if q[0] == x then [] else [q[0]]) + Without(q[1..], x)
  }

  lemma {:induction false} WithoutMembers<T>(q: seq<T>, x: T)
    ensures forall y :: y in Without(q, x) <==> y in q && y != x
    ensures Once(q) ==> Once(Without(q, x))
    ensures x !in q ==> Without(q, x) == q
    ensures |Without(q, x)| <= |q|
    ensures Once(q) && x in q ==> |Without(q, x)| == |q| - 1
  {
    if q != [] {
      WithoutMembers(q[1..], x);
      assert q == [q[0]] + q[1..];
      if Once(q) {
        assert q[0] !in q[1..];
        assert q[0] != x ==> Without(q, x) == [q[0]] + Without(q[1..], x);
      }
    }
  }

  lemma {:induction false} WithoutConcat<T>(p: seq<T>, q: seq<T>, x: T)
    ensures Without(p + q, x) == Without(p, x) + Without(q, x)
  {
    if p == [] {
      assert p + q == q;
    } else {
      assert (p + q)[1..] == p[1..] + q;
      WithoutConcat(p[1..], q, x);
    }
  }

  // x stands before y.
  ghost predicate Ahead<T>(q: seq<T>, x: T, y: T) {
    exists i, j :: 0 <= i < j < |q| && q[i] == x && q[j] == y
  }

  lemma AheadMore<T>(q: seq<T>, x: T, y: T, more: seq<T>)
    requires Ahead(q, x, y)
    ensures Ahead(q + more, x, y) && x in q && y in q
  {
    var i, j :| 0 <= i < j < |q| && q[i] == x && q[j] == y;
    assert (q + more)[i] == x && (q + more)[j] == y;
  }

  lemma AheadEnd<T>(q: seq<T>, x: T, y: T)
    requires x in q
    ensures Ahead(q + [y], x, y)
  {
    var i :| 0 <= i < |q| && q[i] == x;
    assert (q + [y])[i] == x && (q + [y])[|q|] == y;
  }

  // The first element has nothing ahead of it; behind it, nothing changes.
  lemma AheadTail<T>(q: seq<T>, x: T, y: T)
    requires Once(q) && Ahead(q, x, y)
    ensures q[0] != y && (q[0] != x ==> Ahead(q[1..], x, y))
  {
    var i, j :| 0 <= i < j < |q| && q[i] == x && q[j] == y;
    if i > 0 { assert q[1..][i - 1] == x && q[1..][j - 1] == y; }
  }

  lemma {:induction false} AheadWithout<T>(q: seq<T>, x: T, y: T, z: T)
    requires Ahead(q, x, y) && z != x && z != y
    ensures Ahead(Without(q, z), x, y)
  {
    var i, j :| 0 <= i < j < |q| && q[i] == x && q[j] == y;
    var rest := Without(q[1..], z);
    if i == 0 {
      assert y in q[1..] by { assert q[1..][j - 1] == y; }
      WithoutKeeps(q[1..], y, z);
      var k :| 0 <= k < |rest| && rest[k] == y;
      assert ([x] + rest)[0] == x && ([x] + rest)[k + 1] == y;
    } else {
      assert q[1..][i - 1] == x && q[1..][j - 1] == y;
      AheadWithout(q[1..], x, y, z);
      var k, l :| 0 <= k < l < |rest| && rest[k] == x && rest[l] == y;
      if q[0] == z {
        assert Without(q, z) == rest;
      } else {
        assert ([q[0]] + rest)[k + 1] == x && ([q[0]] + rest)[l + 1] == y;
      }
    }
  }

  lemma WithoutKeeps<T>(q: seq<T>, y: T, z: T)
    requires y in q && y != z
    ensures y in Without(q, z)
  {
    WithoutMembers(q, z);
  }
}
