/**
 Circular doubly linked lists.

 The two link fields of all nodes are the maps `prev` and `next`.  A ring is the sequence of the
 nodes met when following `next` once around; the proofs below say what the pointer surgery of
 linking in and unlinking one node does to that sequence.
 */
module Rings {

  type Links = map<int, int>

  function After(k: nat, n: nat): nat
    requires k < n
  {
    if k + 1 == n then 0 else k + 1
  }

  ghost predicate Distinct(r: seq<int>) {
    forall i, j :: 0 <= i < j < |r| ==> r[i] != r[j]
  }

  ghost predicate Joined(prev: Links, next: Links, x: int, y: int) {
    x in next && y in prev && next[x] == y && prev[y] == x
  }

  ghost predicate Ring(prev: Links, next: Links, r: seq<int>) {
    && r != []
    && Distinct(r)
    && forall k {:trigger After(k, |r|)} :: 0 <= k < |r| ==> Joined(prev, next, r[k], r[After(k, |r|)])
  }

  /** The position of x in r. */
  ghost function Position(r: seq<int>, x: int): (k: nat)
    requires x in r
    ensures k < |r| && r[k] == x
  {
    var k: nat :| k < |r| && r[k] == x;
    k
  }

  ghost function Removed(r: seq<int>, x: int): seq<int> {
    if x in r then r[..Position(r, x)] + r[Position(r, x) + 1..] else r
  }

  ghost function Inserted(r: seq<int>, a: int, x: int): seq<int>
    requires a in r
  {
    r[..Position(r, a) + 1] + [x] + r[Position(r, a) + 1..]
  }

  ghost function Before(k: nat, n: nat): (p: nat)
    requires k < n
    ensures p < n && After(p, n) == k
  {
    if k == 0 then n - 1 else k - 1
  }

  lemma NeighboursInRing(prev: Links, next: Links, r: seq<int>, x: int)
    requires Ring(prev, next, r) && x in r
    ensures x in prev && x in next
    ensures prev[x] == r[Before(Position(r, x), |r|)] && next[x] == r[After(Position(r, x), |r|)]
    ensures prev[x] in r && next[x] in r
    ensures Joined(prev, next, prev[x], x) && Joined(prev, next, x, next[x])
    ensures prev[x] == x <==> |r| == 1
    ensures next[x] == x <==> |r| == 1
  {
    var k := Position(r, x);
    assert Joined(prev, next, r[k], r[After(k, |r|)]);
    assert Joined(prev, next, r[Before(k, |r|)], r[After(Before(k, |r|), |r|)]);
  }

  /** In a ring of two or more nodes both neighbours coincide only when there are exactly two. */
  lemma SameNeighbours(prev: Links, next: Links, r: seq<int>, x: int)
    requires Ring(prev, next, r) && x in r && |r| >= 2
    ensures x in prev && x in next && (prev[x] == next[x] <==> |r| == 2)
  {
    NeighboursInRing(prev, next, r, x);
    var k := Position(r, x);
    assert Before(k, |r|) == After(k, |r|) <==> |r| == 2;
  }

  lemma RemovedElements(r: seq<int>, x: int)
    requires Distinct(r) && x in r
    ensures Distinct(Removed(r, x)) && |Removed(r, x)| == |r| - 1
    ensures forall y :: y in Removed(r, x) <==> y in r && y != x
    ensures forall j :: 0 <= j < |r| - 1 ==> Removed(r, x)[j] == r[if j < Position(r, x) then j else j + 1]
  {
    var k := Position(r, x);
    var q := Removed(r, x);
    forall y | y in r && y != x ensures y in q {
      var i := Position(r, y);
      assert q[if i < k then i else i - 1] == y;
    }
  }

  lemma InsertedElements(r: seq<int>, a: int, x: int)
    requires Distinct(r) && a in r && x !in r
    ensures Distinct(Inserted(r, a, x)) && |Inserted(r, a, x)| == |r| + 1
    ensures forall y :: y in Inserted(r, a, x) <==> y in r || y == x
    ensures Inserted(r, a, x)[Position(r, a) + 1] == x
    ensures forall j :: 0 <= j <= |r| && j != Position(r, a) + 1 ==>
              Inserted(r, a, x)[j] == r[if j <= Position(r, a) then j else j - 1]
  {
    var k := Position(r, a);
    var q := Inserted(r, a, x);
    forall y | y in r ensures y in q {
      var i := Position(r, y);
      assert q[if i <= k then i else i + 1] == y;
    }
  }

  /** What unlinking x does: its two neighbours are joined and the rest of the ring is kept. */
  lemma UnlinkNode(prev: Links, next: Links, r: seq<int>, x: int)
    requires Ring(prev, next, r) && x in r && |r| >= 2
    ensures x in prev && x in next
    ensures Ring(prev[next[x] := prev[x]], next[prev[x] := next[x]], Removed(r, x))
  {
    NeighboursInRing(prev, next, r, x);
    RemovedElements(r, x);
    var k, n := Position(r, x), |r|;
    var q := Removed(r, x);
    var prev', next' := prev[next[x] := prev[x]], next[prev[x] := next[x]];
    forall j | 0 <= j < |q|
      ensures Joined(prev', next', q[j], q[After(j, |q|)])
    {
      var i := if j < k then j else j + 1;
      assert q[j] == r[i];
      if i == Before(k, n) {
        assert q[After(j, |q|)] == r[After(k, n)];
      } else {
        assert q[After(j, |q|)] == r[After(i, n)];
        assert Joined(prev, next, r[i], r[After(i, n)]);
        assert After(i, n) != After(k, n);
      }
    }
  }

  /** What linking x in after a does. */
  lemma LinkNode(prev: Links, next: Links, r: seq<int>, a: int, x: int)
    requires Ring(prev, next, r) && a in r && x !in r
    ensures a in next
    ensures Ring(prev[x := a][next[a] := x], next[x := next[a]][a := x], Inserted(r, a, x))
  {
    NeighboursInRing(prev, next, r, a);
    InsertedElements(r, a, x);
    var k, n := Position(r, a), |r|;
    var q := Inserted(r, a, x);
    var prev', next' := prev[x := a][next[a] := x], next[x := next[a]][a := x];
    forall j | 0 <= j < |q|
      ensures Joined(prev', next', q[j], q[After(j, |q|)])
    {
      if j == k + 1 {
        assert q[After(j, |q|)] == r[After(k, n)];
      } else if j != k {
        var i := if j <= k then j else j - 1;
        assert q[j] == r[i];
        assert q[After(j, |q|)] == r[After(i, n)];
        assert Joined(prev, next, r[i], r[After(i, n)]);
        assert After(i, n) != After(k, n);
      }
    }
  }

  lemma RingFrame(prev: Links, next: Links, prev': Links, next': Links, r: seq<int>)
    requires Ring(prev, next, r)
    requires forall x :: x in r && x in prev ==> x in prev' && prev'[x] == prev[x]
    requires forall x :: x in r && x in next ==> x in next' && next'[x] == next[x]
    ensures Ring(prev', next', r)
  {
    forall k | 0 <= k < |r| ensures Joined(prev', next', r[k], r[After(k, |r|)]) {
      assert Joined(prev, next, r[k], r[After(k, |r|)]);
    }
  }
}
