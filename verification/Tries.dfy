/**
 The shape of the bitwise tries that index large free blocks by size.

 There is one trie for each position of the highest bit.  A trie holds each size at most once, so
 its nodes are named by size here; 0 stands for "none".  `Linked` says that the pointers up and
 down invert each other; `Bitwise` says that each size is where its bits put it: a node at depth d
 agrees with every node below it on the d bits under the highest one.
 */
module Tries {
  import opened Bits

  const NUM_BUCKETS: nat := 64

  datatype Node = Node(depth: nat, bucket: nat, up: nat, side: bool, kid0: nat, kid1: nat) {
    function Kid(b: bool): nat { if b then kid1 else kid0 }

    function WithKid(b: bool, s: nat): Node { if b then this.(kid1 := s) else this.(kid0 := s) }

    predicate IsLeaf() { kid0 == 0 && kid1 == 0 }
  }

  type Trie = map<nat, Node>

  /** The sizes x and y agree on their highest bit and on the d bits below it. */
  ghost predicate Agree(x: nat, y: nat, d: nat)
    requires x > 0 && y > 0
  {
    High(x) == High(y) && d <= High(x) && Shr(x, High(x) - d) == Shr(y, High(x) - d)
  }

  /** The side on which x continues below a node of depth d that x agrees with. */
  predicate Side(x: nat, d: nat)
    requires x > 0 && d < High(x)
  {
    Bit(x, High(x) - 1 - d)
  }

  ghost predicate UpLinked(t: Trie, roots: seq<nat>, s: nat)
    requires |roots| == NUM_BUCKETS
  {
    && s in t && t[s].bucket < NUM_BUCKETS
    && (if t[s].up == 0 then roots[t[s].bucket] == s
        else t[s].up in t && t[s].up != s && t[t[s].up].Kid(t[s].side) == s)
  }

  ghost predicate DownLinked(t: Trie, s: nat) {
    s in t &&
    forall b: bool {:trigger t[s].Kid(b)} :: t[s].Kid(b) != 0 ==>
      t[s].Kid(b) in t && t[t[s].Kid(b)].up == s && t[t[s].Kid(b)].side == b
  }

  ghost predicate RootLinked(t: Trie, roots: seq<nat>, i: nat)
    requires i < |roots|
  {
    roots[i] != 0 ==> roots[i] in t && t[roots[i]].up == 0 && t[roots[i]].bucket == i
  }

  ghost predicate Linked(t: Trie, roots: seq<nat>) {
    && |roots| == NUM_BUCKETS && 0 !in t
    && (forall s {:trigger UpLinked(t, roots, s)} :: s in t ==> UpLinked(t, roots, s))
    && (forall s {:trigger DownLinked(t, s)} :: s in t ==> DownLinked(t, s))
    && (forall i {:trigger RootLinked(t, roots, i)} :: 0 <= i < NUM_BUCKETS ==> RootLinked(t, roots, i))
  }

  ghost predicate BitsOk(t: Trie, s: nat) {
    && s in t && s > 0 && t[s].bucket == High(s) && t[s].depth <= High(s)
    && (t[s].up == 0 ==> t[s].depth == 0)
    && (t[s].up != 0 ==>
          && t[s].up in t
          && t[s].depth == t[t[s].up].depth + 1
          && Agree(t[s].up, s, t[t[s].up].depth)
          && t[s].side == Side(s, t[t[s].up].depth))
  }

  ghost predicate Bitwise(t: Trie) {
    forall s {:trigger BitsOk(t, s)} :: s in t ==> BitsOk(t, s)
  }

  ghost predicate Shape(t: Trie, roots: seq<nat>) {
    Linked(t, roots) && Bitwise(t)
  }

  // ---------- agreement ----------

  lemma AgreeStep(x: nat, y: nat, d: nat)
    requires x > 0 && y > 0 && Agree(x, y, d) && d < High(x)
    requires Side(x, d) == Side(y, d)
    ensures Agree(x, y, d + 1)
  {
    ShrRefine(x, y, High(x) - 1 - d);
  }

  lemma AgreeLess(x: nat, y: nat, d: nat, e: nat)
    requires x > 0 && y > 0 && Agree(x, y, d) && e <= d
    ensures Agree(x, y, e)
    ensures e < d ==> Side(x, e) == Side(y, e)
  {
    ShrWeaken(x, y, High(x) - d, High(x) - e);
    if e < d {
      ShrWeaken(x, y, High(x) - d, High(x) - 1 - e);
    }
  }

  /** Two sizes that agree all the way down are equal. */
  lemma AgreeFull(x: nat, y: nat)
    requires x > 0 && y > 0 && Agree(x, y, High(x))
    ensures x == y
  {
  }

  /** Where two sizes part, the one on the right-hand side is larger. */
  lemma AgreeOrder(x: nat, y: nat, d: nat)
    requires x > 0 && y > 0 && Agree(x, y, d) && d < High(x)
    requires !Side(x, d) && Side(y, d)
    ensures x < y
  {
    BitOrder(x, y, High(x) - 1 - d);
  }

  lemma AgreeRoot(x: nat, y: nat)
    requires x > 0 && y > 0 && High(x) == High(y)
    ensures Agree(x, y, 0)
  {
    HighSpec(x);
    HighSpec(y);
  }

  lemma AgreeTrans(x: nat, y: nat, z: nat, d: nat)
    requires x > 0 && y > 0 && z > 0 && Agree(x, y, d) && Agree(y, z, d)
    ensures Agree(x, z, d)
  {
  }

  // ---------- ancestors ----------

  /** The node at depth d on the way from the root to s. */
  ghost function Ancestor(t: Trie, roots: seq<nat>, s: nat, d: nat): nat
    requires Shape(t, roots) && s in t && d <= t[s].depth
    decreases t[s].depth
  {
    assert BitsOk(t, s);
    if d == t[s].depth then s else Ancestor(t, roots, t[s].up, d)
  }

  lemma {:induction false} AncestorProps(t: Trie, roots: seq<nat>, s: nat, d: nat)
    requires Shape(t, roots) && s in t && d <= t[s].depth
    ensures Ancestor(t, roots, s, d) in t && t[Ancestor(t, roots, s, d)].depth == d
    ensures Ancestor(t, roots, s, d) > 0 && s > 0 && Agree(Ancestor(t, roots, s, d), s, d)
    decreases t[s].depth
  {
    assert BitsOk(t, s);
    var u := t[s].up;
    if d < t[s].depth {
      AncestorProps(t, roots, u, d);
      AgreeLess(u, s, t[u].depth, d);
      AgreeTrans(Ancestor(t, roots, s, d), u, s, d);
    }
  }

  /** Below a proper ancestor of s, the child on the side of s exists and is the next ancestor. */
  lemma {:induction false} AncestorStep(t: Trie, roots: seq<nat>, s: nat, d: nat)
    requires Shape(t, roots) && s in t && d < t[s].depth
    ensures Ancestor(t, roots, s, d) in t && 0 < s && d < High(s)
    ensures t[Ancestor(t, roots, s, d)].Kid(Side(s, d)) == Ancestor(t, roots, s, d + 1)
    decreases t[s].depth
  {
    assert BitsOk(t, s) && UpLinked(t, roots, s);
    var u := t[s].up;
    AncestorProps(t, roots, s, d);
    if d + 1 == t[s].depth {
      assert Ancestor(t, roots, s, d) == Ancestor(t, roots, u, d) == u;
    } else {
      AncestorStep(t, roots, u, d);
      AgreeLess(u, s, t[u].depth, d);
    }
  }

  lemma {:induction false} AncestorRoot(t: Trie, roots: seq<nat>, s: nat)
    requires Shape(t, roots) && s in t
    ensures s > 0 && High(s) < NUM_BUCKETS && Ancestor(t, roots, s, 0) == roots[High(s)]
    decreases t[s].depth
  {
    assert BitsOk(t, s) && UpLinked(t, roots, s);
    if t[s].depth > 0 {
      AncestorRoot(t, roots, t[s].up);
    }
  }

  /** Whether s lies in the subtree whose top is the node p. */
  ghost predicate Under(t: Trie, roots: seq<nat>, p: nat, s: nat)
    requires Shape(t, roots) && p in t && s in t
  {
    t[p].depth <= t[s].depth && Ancestor(t, roots, s, t[p].depth) == p
  }

  lemma UnderRoot(t: Trie, roots: seq<nat>, s: nat)
    requires Shape(t, roots) && s in t
    ensures s > 0 && High(s) < NUM_BUCKETS && roots[High(s)] in t && Under(t, roots, roots[High(s)], s)
  {
    AncestorRoot(t, roots, s);
    AncestorProps(t, roots, s, 0);
  }

  /** A node in the subtree of p is p itself or in the subtree of the child of p on its side. */
  lemma UnderStep(t: Trie, roots: seq<nat>, p: nat, s: nat)
    requires Shape(t, roots) && p in t && s in t && Under(t, roots, p, s) && s != p
    ensures 0 < p && 0 < s && t[p].depth < High(s) && Agree(p, s, t[p].depth)
    ensures t[p].Kid(Side(s, t[p].depth)) in t
    ensures Under(t, roots, t[p].Kid(Side(s, t[p].depth)), s)
  {
    var d := t[p].depth;
    assert BitsOk(t, s);
    AncestorProps(t, roots, s, d);
    AncestorStep(t, roots, s, d);
    AncestorProps(t, roots, s, d + 1);
  }

  lemma ChildProps(t: Trie, roots: seq<nat>, p: nat, b: bool)
    requires Shape(t, roots) && p in t && t[p].Kid(b) != 0
    ensures t[p].Kid(b) in t && p > 0 && t[p].Kid(b) > 0
    ensures High(t[p].Kid(b)) == High(p) < NUM_BUCKETS
    ensures t[t[p].Kid(b)].depth == t[p].depth + 1 <= High(p)
    ensures Agree(p, t[p].Kid(b), t[p].depth) && Side(t[p].Kid(b), t[p].depth) == b
    ensures t[t[p].Kid(b)].up == p && t[p].Kid(b) != p
  {
    var c := t[p].Kid(b);
    assert DownLinked(t, p) && UpLinked(t, roots, p);
    assert BitsOk(t, p) && BitsOk(t, c);
  }

  // ---------- the changes ----------

  ghost function InsertRoot(t: Trie, s: nat, i: nat): Trie {
    t[s := Node(0, i, 0, false, 0, 0)]
  }

  lemma InsertRootShape(t: Trie, roots: seq<nat>, s: nat)
    requires Shape(t, roots) && 0 < s && High(s) < NUM_BUCKETS && s !in t && roots[High(s)] == 0
    ensures Shape(InsertRoot(t, s, High(s)), roots[High(s) := s])
  {
    var t', roots' := InsertRoot(t, s, High(s)), roots[High(s) := s];
    forall x {:trigger UpLinked(t', roots', x)} {:trigger DownLinked(t', x)} {:trigger BitsOk(t', x)} | x in t' ensures UpLinked(t', roots', x) && DownLinked(t', x) && BitsOk(t', x) {
      if x != s {
        assert UpLinked(t, roots, x) && DownLinked(t, x) && BitsOk(t, x);
        assert t'[x] == t[x];
      }
    }
    forall i {:trigger RootLinked(t', roots', i)} | 0 <= i < NUM_BUCKETS ensures RootLinked(t', roots', i) {
      assert RootLinked(t, roots, i);
    }
  }

  ghost function InsertBelow(t: Trie, p: nat, b: bool, s: nat): Trie
    requires p in t
  {
    t[p := t[p].WithKid(b, s)][s := Node(t[p].depth + 1, t[p].bucket, p, b, 0, 0)]
  }

  lemma InsertBelowLinked(t: Trie, roots: seq<nat>, p: nat, k: bool, s: nat)
    requires Linked(t, roots) && p in t && s !in t && 0 < s && t[p].Kid(k) == 0
    ensures Linked(InsertBelow(t, p, k, s), roots)
  {
    var t' := InsertBelow(t, p, k, s);
    assert UpLinked(t, roots, p);
    forall x {:trigger UpLinked(t', roots, x)} {:trigger DownLinked(t', x)} | x in t' ensures UpLinked(t', roots, x) && DownLinked(t', x) {
      if x != s {
        assert UpLinked(t, roots, x) && DownLinked(t, x);
        assert t'[x].up == t[x].up && t'[x].side == t[x].side && t'[x].bucket == t[x].bucket;
        forall b: bool ensures t'[x].Kid(b) == if x == p && b == k then s else t[x].Kid(b) {
        }
      }
    }
    forall i {:trigger RootLinked(t', roots, i)} | 0 <= i < NUM_BUCKETS ensures RootLinked(t', roots, i) {
      assert RootLinked(t, roots, i);
    }
  }

  lemma InsertBelowShape(t: Trie, roots: seq<nat>, p: nat, s: nat)
    requires Shape(t, roots) && p in t && 0 < p && 0 < s && s !in t
    requires Agree(p, s, t[p].depth) && t[p].depth < High(s)
    requires t[p].Kid(Side(s, t[p].depth)) == 0
    ensures Shape(InsertBelow(t, p, Side(s, t[p].depth), s), roots)
  {
    var t' := InsertBelow(t, p, Side(s, t[p].depth), s);
    InsertBelowLinked(t, roots, p, Side(s, t[p].depth), s);
    assert BitsOk(t, p);
    forall x {:trigger BitsOk(t', x)} | x in t' ensures BitsOk(t', x) {
      if x != s {
        assert BitsOk(t, x);
        assert t'[x].up == t[x].up && t'[x].side == t[x].side && t'[x].depth == t[x].depth;
      }
    }
  }

  /** The trie and the roots with the slot that holds s, a child slot or a root slot, set to v. */
  ghost function SetSlot(t: Trie, s: nat, v: nat): Trie
    requires s in t && (t[s].up != 0 ==> t[s].up in t)
  {
    if t[s].up == 0 then t else t[t[s].up := t[t[s].up].WithKid(t[s].side, v)]
  }

  ghost function SetRoot(t: Trie, roots: seq<nat>, s: nat, v: nat): seq<nat>
    requires s in t && t[s].bucket < |roots|
  {
    if t[s].up == 0 then roots[t[s].bucket := v] else roots
  }

  ghost function RemoveLeaf(t: Trie, s: nat): Trie
    requires s in t && (t[s].up != 0 ==> t[s].up in t)
  {
    SetSlot(t, s, 0) - {s}
  }

  lemma RemoveLeafShape(t: Trie, roots: seq<nat>, s: nat)
    requires Shape(t, roots) && s in t && t[s].IsLeaf()
    ensures UpLinked(t, roots, s) && s > 0
    ensures Shape(RemoveLeaf(t, s), SetRoot(t, roots, s, 0))
  {
    assert UpLinked(t, roots, s);
    var t', roots' := RemoveLeaf(t, s), SetRoot(t, roots, s, 0);
    forall x {:trigger UpLinked(t', roots', x)} {:trigger DownLinked(t', x)} {:trigger BitsOk(t', x)} | x in t' ensures UpLinked(t', roots', x) && DownLinked(t', x) && BitsOk(t', x) {
      assert UpLinked(t, roots, x) && DownLinked(t, x) && BitsOk(t, x);
      assert t'[x].up == t[x].up && t'[x].side == t[x].side && t'[x].depth == t[x].depth;
      forall b: bool ensures t'[x].Kid(b) == if t[x].Kid(b) == s then 0 else t[x].Kid(b) {
      }
    }
    forall i {:trigger RootLinked(t', roots', i)} | 0 <= i < NUM_BUCKETS ensures RootLinked(t', roots', i) {
      assert RootLinked(t, roots, i);
    }
  }

  /** Size q takes over the place of size s in the trie. */
  ghost function Rename(t: Trie, s: nat, q: nat): Trie
    requires s in t && (t[s].up != 0 ==> t[s].up in t)
  {
    var t1 := SetSlot(t, s, q) - {s};
    map x | x in t1.Keys + {q} ::
      if x == q then t[s] else if t1[x].up == s then t1[x].(up := q) else t1[x]
  }

  lemma RenameSame(t: Trie, roots: seq<nat>, s: nat)
    requires Linked(t, roots) && s in t
    ensures UpLinked(t, roots, s)
    ensures Rename(t, s, s) == t && SetRoot(t, roots, s, s) == roots
  {
    assert UpLinked(t, roots, s);
    var u := t[s].up;
    if u != 0 {
      assert t[u].WithKid(t[s].side, s) == t[u];
    }
    assert SetSlot(t, s, s) == t;
  }

  lemma RenameKeys(t: Trie, s: nat, q: nat)
    requires s in t && (t[s].up != 0 ==> t[s].up in t)
    ensures Rename(t, s, q).Keys == t.Keys - {s} + {q}
  {
    assert SetSlot(t, s, q).Keys == t.Keys;
  }

  /** The fields of a node after renaming. */
  lemma RenameNode(t: Trie, roots: seq<nat>, s: nat, q: nat, y: nat)
    requires Linked(t, roots) && s in t && q > 0 && (q == s || q !in t) && y in t
    ensures UpLinked(t, roots, s)
    ensures var x := if y == s then q else y;
            var n := Rename(t, s, q);
            && x in n
            && n[x].depth == t[y].depth && n[x].bucket == t[y].bucket && n[x].side == t[y].side
            && n[x].up == (if t[y].up == s then q else t[y].up)
            && forall b: bool :: n[x].Kid(b) == if t[y].Kid(b) == s then q else t[y].Kid(b)
  {
    assert UpLinked(t, roots, s) && DownLinked(t, y) && DownLinked(t, s);
    if q == s {
      RenameSame(t, roots, s);
    }
  }

  lemma RenameLinked(t: Trie, roots: seq<nat>, s: nat, q: nat)
    requires Linked(t, roots) && s in t && q > 0 && (q == s || q !in t)
    ensures UpLinked(t, roots, s)
    ensures Linked(Rename(t, s, q), SetRoot(t, roots, s, q))
  {
    assert UpLinked(t, roots, s);
    if q == s {
      RenameSame(t, roots, s);
      return;
    }
    var t', roots' := Rename(t, s, q), SetRoot(t, roots, s, q);
    forall x {:trigger UpLinked(t', roots', x)} {:trigger DownLinked(t', x)} | x in t' ensures UpLinked(t', roots', x) && DownLinked(t', x) {
      var y := if x == q then s else x;
      assert UpLinked(t, roots, y) && DownLinked(t, y);
      RenameNode(t, roots, s, q, y);
      if t[y].up != 0 { RenameNode(t, roots, s, q, t[y].up); }
      forall b: bool | t'[x].Kid(b) != 0 ensures t'[x].Kid(b) in t' && t'[t'[x].Kid(b)].up == x && t'[t'[x].Kid(b)].side == b {
        RenameNode(t, roots, s, q, t[y].Kid(b));
      }
    }
    forall i {:trigger RootLinked(t', roots', i)} | 0 <= i < NUM_BUCKETS ensures RootLinked(t', roots', i) {
      assert RootLinked(t, roots, i);
    }
  }

  lemma RenameShape(t: Trie, roots: seq<nat>, s: nat, q: nat)
    requires Shape(t, roots) && s in t && s > 0 && q > 0 && (q == s || q !in t)
    requires Agree(s, q, t[s].depth)
    ensures UpLinked(t, roots, s)
    ensures Shape(Rename(t, s, q), SetRoot(t, roots, s, q))
  {
    RenameLinked(t, roots, s, q);
    var t' := Rename(t, s, q);
    forall x {:trigger BitsOk(t', x)} | x in t' ensures BitsOk(t', x) {
      RenameBits(t, roots, s, q, x);
    }
  }

  lemma RenameBits(t: Trie, roots: seq<nat>, s: nat, q: nat, x: nat)
    requires Shape(t, roots) && s in t && s > 0 && q > 0 && (q == s || q !in t) && UpLinked(t, roots, s)
    requires Agree(s, q, t[s].depth) && x in Rename(t, s, q)
    ensures BitsOk(Rename(t, s, q), x)
  {
    var y := if x == q then s else x;
    var u := t[y].up;
    assert BitsOk(t, y) && UpLinked(t, roots, y);
    RenameNode(t, roots, s, q, y);
    if u != 0 { RenameNode(t, roots, s, q, u); }
    if u == s {
      AgreeTrans(q, s, x, t[s].depth);
    } else if y == s && u != 0 {
      AgreeLess(s, q, t[s].depth, t[u].depth);
      AgreeTrans(u, s, q, t[u].depth);
    }
  }
}
