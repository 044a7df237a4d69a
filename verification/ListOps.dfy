/**
 The free-block index as a whole: what adding and removing one block does.

 Each lemma takes the state after one branch of zend_mm_add_to_free_list, zend_mm_add_to_rest_list
 or zend_mm_remove_from_free_list and shows that it is again a well-formed index.
 */
module ListOps {
  import opened Bits
  import opened Rings
  import opened Tries
  import opened FreeLists

  ghost predicate Coupled(l: Lists) {
    && (forall s :: s in l.trie <==> LargeRing(s) in l.rings)
    && (forall s :: s in l.trie && s in l.head ==> l.head[s] in l.home && l.home[l.head[s]] == LargeRing(s))
  }

  ghost predicate ListsOk(l: Lists) {
    RingsOk(l) && IndexOk(l, {}) && Bitwise(l.trie) && Coupled(l)
  }

  lemma RingsFrame(l: Lists, k: Lists)
    requires RingsOk(l)
    requires k.base == l.base && k.size == l.size && k.home == l.home && k.prev == l.prev && k.next == l.next && k.rings == l.rings
    ensures RingsOk(k)
  {
    forall p {:trigger RingOk(k, p)} | p in k.rings ensures RingOk(k, p) {
      assert RingOk(l, p);
      forall x | x in k.rings[p] ensures InRing(k, p, x) {
        assert InRing(l, p, x);
      }
    }
    forall x {:trigger HomeOk(k, x)} | x in k.size ensures HomeOk(k, x) {
      assert HomeOk(l, x);
    }
  }

  /** The tries do not depend on the rings, and a block may come or go that is no tree member. */
  lemma IndexFrame(l: Lists, k: Lists, loose: set<int>, b: int)
    requires IndexOk(l, loose)
    requires k.parent == l.parent && k.slot == l.slot && k.trie == l.trie && k.roots == l.roots && k.head == l.head
    requires k.size - {b} == l.size - {b} && 0 !in k.size
    requires b in l.size && b !in k.size ==> HeadOf(l, l.size[b]) != b
    requires b in k.size && b in l.size ==> k.size[b] == l.size[b]
    requires b in k.size && !SmallSize(k.size[b]) ==> HasLinks(k, b)
    ensures IndexOk(k, loose + if b in k.size && b !in l.size then {b} else {})
  {
    forall x | x in k.size && x != b ensures x in l.size && k.size[x] == l.size[x] {
      assert x in k.size - {b} && (k.size - {b})[x] == k.size[x];
      assert (l.size - {b})[x] == l.size[x];
    }
    forall x | x in l.size && x != b ensures x in k.size {
      assert x in l.size - {b};
    }
    forall s {:trigger NodeOk(k, s)} | s in k.trie ensures NodeOk(k, s) {
      assert NodeOk(l, s);
    }
    forall i {:trigger RootOk(k, i)} | 0 <= i < NUM_BUCKETS ensures RootOk(k, i) {
      assert RootOk(l, i);
    }
    forall x | x in k.size && !SmallSize(k.size[x])
      ensures HasLinks(k, x) && (x !in loose && (x == b ==> b in l.size) ==> ParentOk(k, x))
    {
      if x in l.size {
        assert HasLinks(l, x);
        SlotKept(l, k, l.size[x]);
        if x !in loose {
          assert ParentOk(l, x);
        }
      }
    }
  }

  // ---------- adding ----------

  /** A large block is known from the moment it is handed over, with what its fields hold. */
  ghost function Tracked(l: Lists, b: int, size: nat, parent: Slot, c0: int, c1: int): Lists {
    Known(l, b, size).(parent := l.parent[b := parent], slot := l.slot[Child(b, true) := c1][Child(b, false) := c0])
  }

  lemma NotHead(l: Lists, b: int, size: nat)
    requires IndexOk(l, {}) && b !in l.size && b != 0
    ensures HeadOf(l, size) != b
  {
    assert size in l.trie ==> NodeOk(l, size);
  }

  lemma KnownIndex(l: Lists, b: int, size: nat)
    requires IndexOk(l, {}) && b !in l.size && b != 0 && SmallSize(size)
    ensures IndexOk(Known(l, b, size), {})
  {
    IndexFrame(l, Known(l, b, size), {}, b);
    NotHead(l, b, size);
    JoinIndex(Known(l, b, size), b);
  }

  lemma TrackedIndex(l: Lists, b: int, size: nat, parent: Slot, c0: int, c1: int)
    requires IndexOk(l, {}) && b !in l.size && b != 0 && !SmallSize(size)
    ensures IndexOk(Tracked(l, b, size, parent, c0, c1), {b}) && HasLinks(Tracked(l, b, size, parent, c0, c1), b)
    ensures parent == Nowhere ==> IndexOk(Tracked(l, b, size, parent, c0, c1), {})
  {
    var k := Tracked(l, b, size, parent, c0, c1);
    NotHead(l, b, size);
    forall s {:trigger NodeOk(k, s)} | s in k.trie ensures NodeOk(k, s) {
      assert NodeOk(l, s);
    }
    forall i {:trigger RootOk(k, i)} | 0 <= i < NUM_BUCKETS ensures RootOk(k, i) {
      assert RootOk(l, i);
    }
    forall x {:trigger HasLinks(k, x)} {:trigger ParentOk(k, x)} | x in k.size && !SmallSize(k.size[x])
      ensures HasLinks(k, x) && (x != b || parent == Nowhere ==> ParentOk(k, x))
    {
      if x != b {
        assert HasLinks(l, x) && ParentOk(l, x);
        SlotKept(l, k, l.size[x]);
      }
    }
  }

  lemma IndexSame(l: Lists, k: Lists, loose: set<int>)
    requires IndexOk(l, loose) && k.size == l.size
    requires k.parent == l.parent && k.slot == l.slot && k.trie == l.trie && k.roots == l.roots && k.head == l.head
    ensures IndexOk(k, loose)
  {
    assert 0 !in l.size;
    IndexFrame(l, k, loose, 0);
  }

  /** A small block goes to its bucket or to the rest list. */
  lemma AddSmallBlock(l: Lists, p: Place, a: int, b: int, size: nat)
    requires ListsOk(l) && p in l.rings && a in l.rings[p] && !p.LargeRing?
    requires b !in l.size && !Sentinel(l.base, b) && Belongs(p, size) && SmallSize(size) && b != 0
    ensures a in l.next && ListsOk(LinkIn(Known(l, b, size), p, a, b))
  {
    LinkInRings(l, p, a, b, size);
    KnownIndex(l, b, size);
    IndexSame(Known(l, b, size), LinkIn(Known(l, b, size), p, a, b), {});
    CoupledFrame(l, LinkIn(Known(l, b, size), p, a, b), b);
  }

  /** A large block goes to the rest list, or joins the ring of its size. */
  lemma AddLargeBlock(l: Lists, p: Place, a: int, b: int, size: nat, c0: int, c1: int)
    requires ListsOk(l) && p in l.rings && a in l.rings[p] && !p.SmallRing?
    requires b !in l.size && !Sentinel(l.base, b) && Belongs(p, size) && !SmallSize(size) && b != 0
    ensures a in l.next && ListsOk(LinkIn(Tracked(l, b, size, Nowhere, c0, c1), p, a, b))
  {
    var t := Tracked(l, b, size, Nowhere, c0, c1);
    LinkInRings(l, p, a, b, size);
    var k := LinkIn(t, p, a, b);
    RingsFrame(LinkIn(Known(l, b, size), p, a, b), k);
    TrackedIndex(l, b, size, Nowhere, c0, c1);
    IndexSame(t, k, {});
    CoupledFrame(l, k, b);
  }

  lemma CoupledFrame(l: Lists, k: Lists, b: int)
    requires Coupled(l) && IndexOk(l, {}) && k.trie == l.trie && k.head == l.head && k.rings.Keys == l.rings.Keys
    requires forall x :: x in l.home && x != b ==> x in k.home && k.home[x] == l.home[x]
    requires b in l.size ==> HeadOf(l, l.size[b]) != b
    ensures Coupled(k)
  {
    forall s | s in k.trie && s in k.head ensures k.head[s] in k.home && k.home[k.head[s]] == LargeRing(s) {
      assert NodeOk(l, s);
    }
  }

  /** The state in which a large block of a new size is on its own ring but not yet in a trie. */
  ghost function Loose(l: Lists, b: int, size: nat, parent: Slot): Lists {
    NewRing(Tracked(l, b, size, parent, 0, 0), b, size)
  }

  lemma LooseOk(l: Lists, b: int, size: nat, parent: Slot)
    requires ListsOk(l) && size !in l.trie && !SmallSize(size)
    requires b !in l.size && !Sentinel(l.base, b) && b != 0
    ensures RingsOk(Loose(l, b, size, parent)) && IndexOk(Loose(l, b, size, parent), {b}) && HasLinks(Loose(l, b, size, parent), b)
  {
    NewRingRings(l, b, size);
    RingsFrame(NewRing(Known(l, b, size), b, size), Loose(l, b, size, parent));
    TrackedIndex(l, b, size, parent, 0, 0);
    IndexSame(Tracked(l, b, size, parent, 0, 0), Loose(l, b, size, parent), {b});
  }

  lemma CoupledNew(l: Lists, b: int, size: nat, m: Lists)
    requires Coupled(l) && IndexOk(l, {}) && size !in l.trie && b !in l.size
    requires m.trie.Keys == l.trie.Keys + {size} && m.head == l.head[size := b]
    requires m.home == l.home[b := LargeRing(size)] && m.rings == l.rings[LargeRing(size) := [b]]
    ensures Coupled(m)
  {
    forall s | s in m.trie && s in m.head ensures m.head[s] in m.home && m.home[m.head[s]] == LargeRing(s) {
      assert s != size ==> NodeOk(l, s);
    }
  }

  /** The first large block of a bucket becomes the root of its trie. */
  lemma AddRootBlock(l: Lists, b: int, size: nat)
    requires ListsOk(l) && !SmallSize(size) && High(size) < NUM_BUCKETS && l.roots[High(size)] == 0
    requires b !in l.size && !Sentinel(l.base, b) && b != 0
    ensures size !in l.trie && ListsOk(PutAtRoot(Loose(l, b, size, Root(High(size))), b, size, High(size)))
  {
    if size in l.trie {
      UnderRoot(l.trie, l.roots, size);
    }
    var k := Loose(l, b, size, Root(High(size)));
    LooseOk(l, b, size, Root(High(size)));
    InsertRootShape(l.trie, l.roots, size);
    PutAtRootIndex(k, b, size, High(size));
    var m := PutAtRoot(k, b, size, High(size));
    RingsFrame(k, m);
    CoupledNew(l, b, size, m);
  }

  /** A large block of a new size becomes a leaf below the node p where its walk ends. */
  lemma AddLeafBlock(l: Lists, b: int, size: nat, p: nat)
    requires ListsOk(l) && !SmallSize(size) && size !in l.trie
    requires p in l.trie && 0 < p && Agree(p, size, l.trie[p].depth) && l.trie[p].depth < High(size)
    requires l.trie[p].Kid(Side(size, l.trie[p].depth)) == 0
    requires b !in l.size && !Sentinel(l.base, b) && b != 0
    ensures p in l.head
    ensures var side := Side(size, l.trie[p].depth);
            ListsOk(PutBelow(Loose(l, b, size, Child(l.head[p], side)), b, size, p, side))
  {
    var side := Side(size, l.trie[p].depth);
    assert p in l.head;
    var k := Loose(l, b, size, Child(l.head[p], side));
    LooseOk(l, b, size, Child(l.head[p], side));
    InsertBelowShape(l.trie, l.roots, p, size);
    PutBelowOk(l, k, b, size, p, side);
  }

  lemma PutBelowOk(l: Lists, k: Lists, b: int, size: nat, p: nat, side: bool)
    requires p in l.head && k == Loose(l, b, size, Child(l.head[p], side)) && RingsOk(k)
    requires ListsOk(l) && IndexOk(k, {b}) && HasLinks(k, b) && !SmallSize(size) && size !in l.trie && b !in l.size && b != 0
    requires p in l.trie && l.trie[p].Kid(side) == 0 && Shape(InsertBelow(l.trie, p, side, size), l.roots)
    ensures ListsOk(PutBelow(k, b, size, p, side))
  {
    PutBelowIndex(k, b, size, p, side);
    var m := PutBelow(k, b, size, p, side);
    RingsFrame(k, m);
    CoupledNew(l, b, size, m);
  }

  // ---------- removing ----------

  /** Block b is no tree member any more: it leaves its ring and is forgotten. */
  ghost function Unlisted(k: Lists, b: int): Lists
    requires b in k.home && k.home[b] in k.rings && b in k.prev && b in k.next
  {
    if |k.rings[k.home[b]]| == 1 then Gone(k, b, k.rings - {k.home[b]})
    else Gone(Spliced(k, b), b, RingsWithout(k, b))
  }

  lemma UnlistedOk(k: Lists, b: int)
    requires RingsOk(k) && IndexOk(k, {b}) && b in k.size && HomeOk(k, b)
    requires HeadOf(k, k.size[b]) != b
    ensures b in k.prev && b in k.next
    ensures RingsOk(Unlisted(k, b)) && IndexOk(Unlisted(k, b), {})
  {
    assert RingOk(k, k.home[b]);
    NeighboursInRing(k.prev, k.next, k.rings[k.home[b]], b);
    if |k.rings[k.home[b]]| == 1 {
      DropRingRings(k, b);
    } else {
      LinkOutRings(k, b);
    }
    GoneIndex(k, b, Unlisted(k, b));
  }

  /** A block that is no tree member leaves its ring. */
  lemma RemoveMember(l: Lists, b: int)
    requires ListsOk(l) && b in l.size && HomeOk(l, b) && |l.rings[l.home[b]]| >= 2
    requires HeadOf(l, l.size[b]) != b
    ensures b in l.prev && b in l.next && ListsOk(Unlisted(l, b))
  {
    UnlistedOk(l, b);
    CoupledFrame(l, Unlisted(l, b), b);
  }

  lemma MemberFacts(l: Lists, p: Place, x: int)
    requires RingsOk(l) && p in l.rings && p.LargeRing? && x in l.rings[p]
    ensures HomeOk(l, x) && l.home[x] == p && l.size[x] == p.s && !SmallSize(p.s)
  {
    assert RingOk(l, p);
    assert InRing(l, p, x);
    assert x in l.size;
    assert HomeOk(l, x);
  }

  lemma CanReplaceInRing(l: Lists, b: int, h: int)
    requires ListsOk(l) && b in l.size && HomeOk(l, b) && l.home[b] == LargeRing(l.size[b]) && HeadOf(l, l.size[b]) == b
    requires h in l.rings[l.home[b]] && h != b
    ensures HasLinks(l, b) && UpLinked(l.trie, l.roots, l.size[b]) && CanReplace(l, l.size[b], l.size[b], h)
    ensures h in l.home && l.home[h] == l.home[b]
  {
    MemberFacts(l, l.home[b], h);
    assert NodeOk(l, l.size[b]) && HasLinks(l, b) && HasLinks(l, h) && UpLinked(l.trie, l.roots, l.size[b]);
  }

  /** A tree member hands its place in the trie to its ring neighbour h of the same size. */
  lemma ReplaceInRing(l: Lists, b: int, h: int)
    requires ListsOk(l) && b in l.size && HomeOk(l, b) && l.home[b] == LargeRing(l.size[b]) && HeadOf(l, l.size[b]) == b
    requires h in l.rings[l.home[b]] && h != b
    ensures HasLinks(l, b) && UpLinked(l.trie, l.roots, l.size[b])
    ensures h in l.home && l.home[h] == l.home[b]
    ensures var k := Substitute(l, l.size[b], l.size[b], h);
            RingsOk(k) && IndexOk(k, {b}) && HomeOk(k, b) && HeadOf(k, l.size[b]) == h
            && k.trie == l.trie && k.head == l.head[l.size[b] := h]
  {
    var s := l.size[b];
    CanReplaceInRing(l, b, h);
    SubstituteIndex(l, s, s, h);
    RenameSame(l.trie, l.roots, s);
    RingsFrame(l, Substitute(l, s, s, h));
  }

  /** A tree member leaves; its ring neighbour of the same size takes its place in the trie. */
  lemma RemoveHeadOfRing(l: Lists, b: int, h: int)
    requires ListsOk(l) && b in l.size && HomeOk(l, b) && |l.rings[l.home[b]]| >= 2
    requires l.home[b] == LargeRing(l.size[b]) && HeadOf(l, l.size[b]) == b
    requires h in l.rings[l.home[b]] && h != b
    ensures b in l.prev && b in l.next && HasLinks(l, b) && UpLinked(l.trie, l.roots, l.size[b])
    ensures ListsOk(Unlisted(Substitute(l, l.size[b], l.size[b], h), b))
  {
    ReplaceInRing(l, b, h);
    var k := Substitute(l, l.size[b], l.size[b], h);
    UnlistedOk(k, b);
    CoupledReplaced(l, b, h, Unlisted(k, b));
  }

  lemma CoupledReplaced(l: Lists, b: int, h: int, m: Lists)
    requires Coupled(l) && IndexOk(l, {}) && b in l.home && b in l.size
    requires l.home[b] == LargeRing(l.size[b]) && HeadOf(l, l.size[b]) == b
    requires h in l.home && l.home[h] == l.home[b] && h != b
    requires m.trie == l.trie && m.head == l.head[l.size[b] := h] && m.home == l.home - {b}
    requires m.rings.Keys == l.rings.Keys
    ensures Coupled(m)
  {
    forall q | q in m.trie && q in m.head ensures m.head[q] in m.home && m.home[m.head[q]] == LargeRing(q) {
      assert q in l.trie ==> NodeOk(l, q);
      if q != l.size[b] { HeadsDiffer(l, {}, q, l.size[b]); }
    }
  }

  /** After the last block of a size has left, the coupling of rings and tries holds without it. */
  lemma CoupledWithout(l: Lists, b: int, m: Lists)
    requires ListsOk(l) && b in l.size && HomeOk(l, b)
    requires l.home[b] == LargeRing(l.size[b]) && HeadOf(l, l.size[b]) == b
    requires m.trie.Keys == l.trie.Keys - {l.size[b]} && m.head == l.head - {l.size[b]}
    requires m.home == l.home - {b} && m.rings == l.rings - {l.home[b]}
    ensures Coupled(m)
  {
    forall s | s in m.trie && s in m.head ensures m.head[s] in m.home && m.home[m.head[s]] == LargeRing(s) {
      assert NodeOk(l, s);
    }
  }

  /** The last block of its size leaves a leaf of the trie. */
  lemma RemoveLeafBlock(l: Lists, b: int)
    requires ListsOk(l) && b in l.size && HomeOk(l, b) && |l.rings[l.home[b]]| == 1
    requires l.home[b] == LargeRing(l.size[b]) && HeadOf(l, l.size[b]) == b
    requires l.size[b] in l.trie && l.trie[l.size[b]].IsLeaf()
    ensures UpLinked(l.trie, l.roots, l.size[b])
    ensures b in l.prev && b in l.next && ListsOk(Unlisted(Detach(l, l.size[b]), b))
  {
    var s := l.size[b];
    RemoveLeafShape(l.trie, l.roots, s);
    DetachIndex(l, s);
    var k := Detach(l, s);
    RingsFrame(l, k);
    assert HomeOk(k, b);
    UnlistedOk(k, b);
    CoupledWithout(l, b, Unlisted(k, b));
  }

  lemma CanReplaceByLeaf(l: Lists, s: nat, q: nat)
    requires IndexOk(l, {}) && Shape(l.trie, l.roots)
    requires s in l.trie && q in l.trie && l.trie[q].IsLeaf() && q != s && q > 0
    ensures s in l.head && q in l.head && UpLinked(l.trie, l.roots, q)
    ensures UpLinked(Detach(l, q).trie, Detach(l, q).roots, s) && HasLinks(Detach(l, q), l.head[s])
    ensures CanReplace(Detach(l, q), s, q, l.head[q]) && Shape(Detach(l, q).trie, Detach(l, q).roots)
    ensures Detach(l, q).trie[s].depth == l.trie[s].depth
  {
    RemoveLeafShape(l.trie, l.roots, q);
    assert NodeOk(l, q) && NodeOk(l, s);
    DetachIndex(l, q);
    var d := Detach(l, q);
    assert UpLinked(d.trie, d.roots, s) && HasLinks(d, l.head[s]) && HasLinks(d, l.head[q]);
  }

  /** The block b of an inner node hands its place to the leaf q somewhere below it. */
  lemma ReplaceByLeaf(l: Lists, s: nat, q: nat)
    requires IndexOk(l, {}) && Shape(l.trie, l.roots)
    requires s in l.trie && q in l.trie && l.trie[q].IsLeaf() && q != s && q > 0 && s > 0
    requires Agree(s, q, l.trie[s].depth)
    ensures s in l.head && q in l.head && UpLinked(l.trie, l.roots, q)
    ensures UpLinked(Detach(l, q).trie, Detach(l, q).roots, s) && HasLinks(Detach(l, q), l.head[s])
    ensures var k := Substitute(Detach(l, q), s, q, l.head[q]);
            IndexOk(k, {l.head[s]}) && Bitwise(k.trie) && k.head == l.head - {s}
  {
    CanReplaceByLeaf(l, s, q);
    var d := Detach(l, q);
    SubstituteIndex(d, s, q, l.head[q]);
    RenameShape(d.trie, d.roots, s, q);
    assert Substitute(d, s, q, l.head[q]).head == l.head - {s};
  }

  /** The last block of its size leaves an inner node; the leaf q below it takes its place. */
  lemma RemoveInnerBlock(l: Lists, b: int, q: nat)
    requires ListsOk(l) && b in l.size && HomeOk(l, b) && |l.rings[l.home[b]]| == 1
    requires l.home[b] == LargeRing(l.size[b]) && HeadOf(l, l.size[b]) == b
    requires l.size[b] in l.trie && q in l.trie && l.trie[q].IsLeaf() && q != l.size[b]
    requires q > 0 && l.size[b] > 0 && Agree(l.size[b], q, l.trie[l.size[b]].depth)
    ensures q in l.head && UpLinked(l.trie, l.roots, q) && UpLinked(Detach(l, q).trie, Detach(l, q).roots, l.size[b])
    ensures HasLinks(Detach(l, q), b)
    ensures b in l.prev && b in l.next && ListsOk(Unlisted(Substitute(Detach(l, q), l.size[b], q, l.head[q]), b))
  {
    ReplaceByLeaf(l, l.size[b], q);
    var k := Substitute(Detach(l, q), l.size[b], q, l.head[q]);
    RingsFrame(l, k);
    assert HomeOk(k, b);
    UnlistedOk(k, b);
    CoupledWithout(l, b, Unlisted(k, b));
  }
}
