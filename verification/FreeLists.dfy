/**
 The index of free blocks: 64 rings of small blocks, the rest ring, and 64 bitwise tries whose
 nodes stand for rings of equal large blocks.

 `Lists` is the typed view of all link words.  It is a value; the lemmas below follow the pointer
 writes of the allocator one group at a time and say what each does to the stored set.
 */
module FreeLists {
  import opened Bits
  import opened Rings
  import opened Tries

  const MIN_BLOCK: nat := 32
  const MAX_SMALL: nat := 544

  predicate SmallSize(size: nat) { size < MAX_SMALL }

  function BucketIndex(size: nat): int { size / 8 - MIN_BLOCK / 8 }

  function BucketSize(i: nat): nat { MIN_BLOCK + 8 * i }

  /** Bucket numbers and small block sizes correspond one to one. */
  lemma BucketBijection(size: nat, i: nat)
    requires size % 8 == 0 && MIN_BLOCK <= size
    ensures SmallSize(size) <==> BucketIndex(size) < NUM_BUCKETS
    ensures BucketIndex(size) == i <==> size == BucketSize(i)
    ensures BucketIndex(BucketSize(i)) == i
  {
  }

  /** What a `parent` field points at: the address of a root slot or of a child slot, or NULL. */
  datatype Slot = Nowhere | Root(i: nat) | Child(b: int, side: bool)

  datatype Place = SmallRing(i: nat) | RestRing | LargeRing(s: nat)

  datatype Lists = Lists(
    base: int,                    // address of the bucket arrays in the heap structure
    size: map<int, nat>,          // the listed blocks and their sizes
    home: map<int, Place>,        // the ring each listed block is in
    prev: Links,
    next: Links,
    rings: map<Place, seq<int>>,
    parent: map<int, Slot>,       // large blocks only
    slot: map<Slot, int>,         // block addresses, 0 for NULL
    trie: Trie,
    roots: seq<nat>,
    head: map<nat, int>)          // the tree member of each ring of large blocks

  function SmallSentinel(base: int, i: nat): int { base + 16 * i - 16 }

  function RestSentinel(base: int): int { base + 1520 }

  predicate IsSentinel(base: int, p: Place, x: int) {
    match p
    case SmallRing(i) => x == SmallSentinel(base, i)
    case RestRing => x == RestSentinel(base)
    case LargeRing(_) => false
  }

  function SentinelOf(base: int, p: Place): int
    requires !p.LargeRing?
  {
    if p.RestRing? then RestSentinel(base) else SmallSentinel(base, p.i)
  }

  /** The 64 small sentinels and the rest sentinel. */
  predicate Sentinel(base: int, x: int) {
    (base - 16 <= x <= base + 992 && (x - base) % 16 == 0) || x == base + 1520
  }

  /** Whether a block of this size may be in this ring. */
  predicate Belongs(p: Place, size: nat) {
    match p
    case SmallRing(i) => i < NUM_BUCKETS && size == BucketSize(i)
    case RestRing => true
    case LargeRing(s) => size == s && !SmallSize(s)
  }

  predicate PlaceOk(trie: Trie, p: Place) {
    match p
    case SmallRing(i) => i < NUM_BUCKETS
    case RestRing => true
    case LargeRing(s) => s in trie
  }

  // ---------- the rings ----------

  ghost predicate InRing(l: Lists, p: Place, x: int)
    requires p in l.rings
  {
    IsSentinel(l.base, p, x) || (x in l.home && l.home[x] == p)
  }

  ghost predicate RingOk(l: Lists, p: Place)
    requires p in l.rings
  {
    && Ring(l.prev, l.next, l.rings[p])
    && (forall x :: x in l.rings[p] ==> InRing(l, p, x))
    && (!p.LargeRing? ==> l.rings[p][0] == SentinelOf(l.base, p))
  }

  ghost predicate HomeOk(l: Lists, x: int) {
    && x in l.home && x in l.size && !Sentinel(l.base, x)
    && l.home[x] in l.rings && x in l.rings[l.home[x]] && Belongs(l.home[x], l.size[x])
  }

  ghost predicate RingsOk(l: Lists) {
    && l.size.Keys == l.home.Keys
    && (forall i :: 0 <= i < NUM_BUCKETS ==> SmallRing(i) in l.rings)
    && RestRing in l.rings
    && (forall p :: p in l.rings && p.SmallRing? ==> p.i < NUM_BUCKETS)
    && (forall p {:trigger RingOk(l, p)} :: p in l.rings ==> RingOk(l, p))
    && (forall x {:trigger HomeOk(l, x)} :: x in l.size ==> HomeOk(l, x))
  }

  /** Distinct rings have no node in common. */
  lemma RingsDisjoint(l: Lists, p: Place, q: Place, x: int)
    requires RingsOk(l) && p in l.rings && q in l.rings && x in l.rings[p] && x in l.rings[q]
    ensures p == q
  {
    assert RingOk(l, p) && RingOk(l, q);
    assert InRing(l, p, x) && InRing(l, q, x);
    if x in l.size {
      assert HomeOk(l, x);
    }
  }

  /** Pointer surgery inside one ring leaves the other rings as they are. */
  lemma OtherRing(l: Lists, p: Place, q: Place, prev': Links, next': Links, b: int)
    requires RingsOk(l) && q in l.rings && p != q && b !in l.rings[q]
    requires forall x :: x in l.prev && x != b && (p in l.rings ==> x !in l.rings[p]) ==> x in prev' && prev'[x] == l.prev[x]
    requires forall x :: x in l.next && x != b && (p in l.rings ==> x !in l.rings[p]) ==> x in next' && next'[x] == l.next[x]
    ensures Ring(prev', next', l.rings[q])
  {
    assert RingOk(l, q);
    forall x | x in l.rings[q] ensures p in l.rings ==> x !in l.rings[p] {
      if p in l.rings && x in l.rings[p] {
        RingsDisjoint(l, p, q, x);
      }
    }
    RingFrame(l.prev, l.next, prev', next', l.rings[q]);
  }

  /** Block b and its size are known, but b is in no ring yet. */
  ghost function Known(l: Lists, b: int, size: nat): Lists {
    l.(size := l.size[b := size])
  }

  /** Block b is linked in after node a of ring p. */
  ghost function LinkIn(l: Lists, p: Place, a: int, b: int): Lists
    requires p in l.rings && a in l.rings[p] && a in l.next
  {
    l.(home := l.home[b := p],
       prev := l.prev[b := a][l.next[a] := b], next := l.next[b := l.next[a]][a := b],
       rings := l.rings[p := Inserted(l.rings[p], a, b)])
  }

  lemma FreshNotInRing(l: Lists, p: Place, b: int)
    requires RingsOk(l) && p in l.rings && b !in l.size && !Sentinel(l.base, b)
    ensures b !in l.rings[p]
  {
    assert RingOk(l, p);
    forall x | x in l.rings[p] ensures x != b {
      assert InRing(l, p, x);
    }
  }

  lemma LinkInRings(l: Lists, p: Place, a: int, b: int, size: nat)
    requires RingsOk(l) && p in l.rings && a in l.rings[p]
    requires b !in l.size && !Sentinel(l.base, b) && Belongs(p, size)
    ensures a in l.next && RingsOk(LinkIn(Known(l, b, size), p, a, b))
  {
    assert RingOk(l, p);
    var r := l.rings[p];
    NeighboursInRing(l.prev, l.next, r, a);
    FreshNotInRing(l, p, b);
    var l' := LinkIn(Known(l, b, size), p, a, b);
    forall q {:trigger RingOk(l', q)} | q in l'.rings ensures RingOk(l', q) {
      if q == p {
        LinkInSameRing(l, p, a, b, size);
      } else {
        assert RingOk(l, q);
        FreshNotInRing(l, q, b);
        OtherRing(l, p, q, l'.prev, l'.next, b);
      }
    }
    forall x {:trigger HomeOk(l', x)} | x in l'.size ensures HomeOk(l', x) {
      InsertedElements(r, a, b);
      if x != b {
        assert HomeOk(l, x);
      }
    }
  }

  lemma LinkInSameRing(l: Lists, p: Place, a: int, b: int, size: nat)
    requires p in l.rings && RingOk(l, p) && a in l.rings[p] && a in l.next
    requires b !in l.rings[p]
    ensures RingOk(LinkIn(Known(l, b, size), p, a, b), p)
  {
    var r := l.rings[p];
    var l' := LinkIn(Known(l, b, size), p, a, b);
    LinkNode(l.prev, l.next, r, a, b);
    InsertedElements(r, a, b);
    assert l'.rings[p] == Inserted(r, a, b);
    forall x | x in l'.rings[p] ensures InRing(l', p, x) {
      assert x == b || InRing(l, p, x);
    }
  }

  /** The neighbours of b in its ring are joined. */
  ghost function Spliced(l: Lists, b: int): Lists
    requires b in l.prev && b in l.next
  {
    l.(prev := l.prev[l.next[b] := l.prev[b]], next := l.next[l.prev[b] := l.next[b]])
  }

  /** Block b is in no ring any more and nothing about it is kept; `rings` are the rings left. */
  ghost function Gone(l: Lists, b: int, rings: map<Place, seq<int>>): Lists {
    l.(size := l.size - {b}, home := l.home - {b}, prev := l.prev - {b}, next := l.next - {b},
       parent := l.parent - {b}, slot := l.slot - {Child(b, false), Child(b, true)}, rings := rings)
  }

  /** The rings after block b has left one that keeps at least one node. */
  ghost function RingsWithout(l: Lists, b: int): map<Place, seq<int>>
    requires b in l.home && l.home[b] in l.rings
  {
    l.rings[l.home[b] := Removed(l.rings[l.home[b]], b)]
  }

  lemma LinkOutRings(l: Lists, b: int)
    requires RingsOk(l) && b in l.size && HomeOk(l, b) && |l.rings[l.home[b]]| >= 2
    ensures b in l.prev && b in l.next && RingsOk(Gone(Spliced(l, b), b, RingsWithout(l, b)))
  {
    var p := l.home[b];
    var r := l.rings[p];
    assert RingOk(l, p);
    NeighboursInRing(l.prev, l.next, r, b);
    RemovedElements(r, b);
    var l' := Gone(Spliced(l, b), b, RingsWithout(l, b));
    forall q {:trigger RingOk(l', q)} | q in l'.rings ensures RingOk(l', q) {
      if q == p {
        LinkOutSameRing(l, b);
      } else {
        assert RingOk(l, q);
        assert b in l.rings[q] ==> InRing(l, q, b);
        OtherRing(l, p, q, l'.prev, l'.next, b);
      }
    }
    forall x {:trigger HomeOk(l', x)} | x in l'.size ensures HomeOk(l', x) {
      assert HomeOk(l, x);
    }
  }

  lemma LinkOutSameRing(l: Lists, b: int)
    requires b in l.size && HomeOk(l, b) && RingOk(l, l.home[b]) && |l.rings[l.home[b]]| >= 2
    requires b in l.prev && b in l.next
    ensures RingOk(Gone(Spliced(l, b), b, RingsWithout(l, b)), l.home[b])
  {
    var p := l.home[b];
    var r := l.rings[p];
    UnlinkNode(l.prev, l.next, r, b);
    RemovedElements(r, b);
    var l' := Gone(Spliced(l, b), b, RingsWithout(l, b));
    RingFrame(Spliced(l, b).prev, Spliced(l, b).next, l'.prev, l'.next, Removed(r, b));
    forall x | x in l'.rings[p] ensures InRing(l', p, x) {
      assert InRing(l, p, x);
    }
    if !p.LargeRing? {
      assert Position(r, b) > 0;
    }
  }

  /** Block b starts a ring of its own. */
  ghost function NewRing(l: Lists, b: int, size: nat): Lists {
    l.(home := l.home[b := LargeRing(size)],
       prev := l.prev[b := b], next := l.next[b := b],
       rings := l.rings[LargeRing(size) := [b]])
  }

  lemma NewRingRings(l: Lists, b: int, size: nat)
    requires RingsOk(l) && LargeRing(size) !in l.rings && !SmallSize(size)
    requires b !in l.size && !Sentinel(l.base, b)
    ensures RingsOk(NewRing(Known(l, b, size), b, size))
  {
    var l' := NewRing(Known(l, b, size), b, size);
    forall q {:trigger RingOk(l', q)} | q in l'.rings ensures RingOk(l', q) {
      if q != LargeRing(size) {
        assert RingOk(l, q);
        assert b !in l.rings[q];
        OtherRing(l, LargeRing(size), q, l'.prev, l'.next, b);
      }
    }
    forall x {:trigger HomeOk(l', x)} | x in l'.size ensures HomeOk(l', x) {
      if x != b {
        assert HomeOk(l, x);
      }
    }
  }

  lemma DropRingRings(l: Lists, b: int)
    requires RingsOk(l) && b in l.size && HomeOk(l, b) && |l.rings[l.home[b]]| == 1
    ensures l.home[b].LargeRing? && RingsOk(Gone(l, b, l.rings - {l.home[b]}))
  {
    var p := l.home[b];
    assert RingOk(l, p);
    assert l.rings[p] == [b];
    var l' := Gone(l, b, l.rings - {p});
    forall q {:trigger RingOk(l', q)} | q in l'.rings ensures RingOk(l', q) {
      assert RingOk(l, q);
      assert b in l.rings[q] ==> InRing(l, q, b);
      OtherRing(l, p, q, l'.prev, l'.next, b);
    }
    forall x {:trigger HomeOk(l', x)} | x in l'.size ensures HomeOk(l', x) {
      assert HomeOk(l, x);
    }
  }

  // ---------- the tries ----------

  /** The tree member for size s; NULL when there is none. */
  ghost function HeadOf(l: Lists, s: nat): int {
    if s in l.head then l.head[s] else 0
  }

  /** Where the pointer to the tree member for s is stored. */
  ghost function SlotOf(l: Lists, s: nat): Slot {
    if s !in l.trie then Nowhere
    else if l.trie[s].up == 0 then Root(l.trie[s].bucket)
    else Child(HeadOf(l, l.trie[s].up), l.trie[s].side)
  }

  ghost predicate NodeOk(l: Lists, s: nat) {
    && s in l.trie && s in l.head && l.head[s] != 0
    && l.head[s] in l.size && l.size[l.head[s]] == s && !SmallSize(s)
    && (forall b: bool {:trigger Child(l.head[s], b)} ::
          Child(l.head[s], b) in l.slot && l.slot[Child(l.head[s], b)] == HeadOf(l, l.trie[s].Kid(b)))
  }

  ghost predicate RootOk(l: Lists, i: nat)
    requires |l.roots| == NUM_BUCKETS && i < NUM_BUCKETS
  {
    Root(i) in l.slot && l.slot[Root(i)] == HeadOf(l, l.roots[i])
  }

  /** The parent field of a large block: its slot for a tree member, NULL for all others. */
  ghost predicate ParentOk(l: Lists, x: int)
    requires x in l.size
  {
    && x in l.parent
    && l.parent[x] == if HeadOf(l, l.size[x]) == x then SlotOf(l, l.size[x]) else Nowhere
  }

  ghost predicate HasLinks(l: Lists, x: int) {
    x in l.parent && Child(x, false) in l.slot && Child(x, true) in l.slot
  }

  /** The tries and the link words agree, except for the parent fields of the blocks in `loose`. */
  ghost predicate IndexOk(l: Lists, loose: set<int>) {
    && 0 !in l.size
    && Linked(l.trie, l.roots)
    && l.head.Keys == l.trie.Keys
    && (forall s {:trigger NodeOk(l, s)} :: s in l.trie ==> NodeOk(l, s))
    && (forall i {:trigger RootOk(l, i)} :: 0 <= i < NUM_BUCKETS ==> RootOk(l, i))
    && (forall x {:trigger HasLinks(l, x)} :: x in l.size && !SmallSize(l.size[x]) ==> HasLinks(l, x))
    && (forall x {:trigger ParentOk(l, x)} :: x in l.size && x !in loose && !SmallSize(l.size[x]) ==> ParentOk(l, x))
  }

  lemma HeadsDiffer(l: Lists, loose: set<int>, s: nat, q: nat)
    requires IndexOk(l, loose) && s in l.trie && q in l.trie && s != q
    ensures HeadOf(l, s) != HeadOf(l, q) && HeadOf(l, s) != 0
  {
    assert NodeOk(l, s) && NodeOk(l, q);
  }

  /** The slot of a tree member holds that member. */
  lemma SlotHoldsHead(l: Lists, loose: set<int>, s: nat)
    requires IndexOk(l, loose) && s in l.trie
    ensures s in l.head && SlotOf(l, s) in l.slot && l.slot[SlotOf(l, s)] == l.head[s] != 0
    ensures SlotOf(l, s) != Nowhere
  {
    assert UpLinked(l.trie, l.roots, s) && NodeOk(l, s);
    if l.trie[s].up != 0 {
      assert NodeOk(l, l.trie[s].up);
    } else {
      assert RootOk(l, l.trie[s].bucket);
    }
  }

  /** The slot of s is a child slot of q exactly when s is that child. */
  lemma SlotIsKid(l: Lists, loose: set<int>, s: nat, q: nat, b: bool)
    requires IndexOk(l, loose) && s in l.trie && q in l.trie
    ensures q in l.head && (SlotOf(l, s) == Child(l.head[q], b) <==> l.trie[q].Kid(b) == s)
  {
    assert UpLinked(l.trie, l.roots, s) && DownLinked(l.trie, q) && NodeOk(l, q);
    var u := l.trie[s].up;
    if u != 0 && u != q {
      HeadsDiffer(l, loose, u, q);
    }
  }

  /** The slot of s is a root slot exactly when s is that root. */
  lemma SlotIsRoot(l: Lists, loose: set<int>, s: nat, i: nat)
    requires IndexOk(l, loose) && s in l.trie && i < NUM_BUCKETS
    ensures SlotOf(l, s) == Root(i) <==> l.roots[i] == s
  {
    assert UpLinked(l.trie, l.roots, s) && RootLinked(l.trie, l.roots, i);
  }

  ghost function PutAtRoot(l: Lists, b: int, s: nat, i: nat): Lists
    requires i < |l.roots|
  {
    l.(trie := InsertRoot(l.trie, s, i), roots := l.roots[i := s], head := l.head[s := b],
       slot := l.slot[Root(i) := b])
  }

  lemma PutAtRootIndex(l: Lists, b: int, s: nat, i: nat)
    requires IndexOk(l, {b}) && b in l.size && l.size[b] == s && !SmallSize(s) && b != 0
    requires i < NUM_BUCKETS && s !in l.trie && l.roots[i] == 0 && b in l.parent && l.parent[b] == Root(i)
    requires HasLinks(l, b) && l.slot[Child(b, false)] == 0 && l.slot[Child(b, true)] == 0
    requires Linked(InsertRoot(l.trie, s, i), l.roots[i := s])
    ensures IndexOk(PutAtRoot(l, b, s, i), {})
  {
    var l' := PutAtRoot(l, b, s, i);
    forall q {:trigger NodeOk(l', q)} | q in l'.trie ensures NodeOk(l', q) {
      if q != s {
        assert NodeOk(l, q) && DownLinked(l.trie, q);
      }
    }
    forall x | x in l'.size && !SmallSize(l'.size[x]) ensures HasLinks(l', x) && ParentOk(l', x) {
      assert HasLinks(l, x);
      if x != b {
        assert ParentOk(l, x);
        SlotKept(l, l', l.size[x]);
      }
    }
    forall j {:trigger RootOk(l', j)} | 0 <= j < NUM_BUCKETS ensures RootOk(l', j) {
      assert RootOk(l, j) && RootLinked(l.trie, l.roots, j);
    }
  }

  /** A tree member whose own place, parent and parent's address are kept stays in the same slot. */
  lemma SlotKept(l: Lists, l': Lists, q: nat)
    requires Linked(l.trie, l.roots)
    requires q in l.trie ==> (
               && q in l'.trie
               && l'.trie[q].up == l.trie[q].up && l'.trie[q].side == l.trie[q].side
               && l'.trie[q].bucket == l.trie[q].bucket)
    requires q in l.trie && l.trie[q].up in l.trie ==> HeadOf(l', l.trie[q].up) == HeadOf(l, l.trie[q].up)
    ensures q in l.trie ==> SlotOf(l', q) == SlotOf(l, q)
  {
    assert q in l.trie ==> UpLinked(l.trie, l.roots, q);
  }

  ghost function PutBelow(l: Lists, b: int, s: nat, p: nat, side: bool): Lists
    requires p in l.trie && p in l.head
  {
    l.(trie := InsertBelow(l.trie, p, side, s), head := l.head[s := b],
       slot := l.slot[Child(l.head[p], side) := b])
  }

  lemma PutBelowIndex(l: Lists, b: int, s: nat, p: nat, side: bool)
    requires IndexOk(l, {b}) && b in l.size && l.size[b] == s && !SmallSize(s) && b != 0
    requires s !in l.trie && p in l.trie && l.trie[p].Kid(side) == 0
    requires p in l.head && b in l.parent && l.parent[b] == Child(l.head[p], side)
    requires HasLinks(l, b) && l.slot[Child(b, false)] == 0 && l.slot[Child(b, true)] == 0
    ensures IndexOk(PutBelow(l, b, s, p, side), {})
  {
    assert NodeOk(l, p);
    InsertBelowLinked(l.trie, l.roots, p, side, s);
    var l' := PutBelow(l, b, s, p, side);
    assert l'.trie[p] == l.trie[p].WithKid(side, s);
    forall q {:trigger NodeOk(l', q)} | q in l'.trie ensures NodeOk(l', q) {
      if q != s {
        assert NodeOk(l, q) && DownLinked(l.trie, q);
      }
    }
    forall x | x in l'.size && !SmallSize(l'.size[x]) ensures HasLinks(l', x) && ParentOk(l', x) {
      assert HasLinks(l, x);
      if x != b {
        assert ParentOk(l, x);
        SlotKept(l, l', l.size[x]);
      }
    }
    forall j {:trigger RootOk(l', j)} | 0 <= j < NUM_BUCKETS ensures RootOk(l', j) {
      assert RootOk(l, j) && RootLinked(l.trie, l.roots, j);
    }
  }

  /** A block that is no tree member gets a NULL parent field. */
  lemma JoinIndex(l: Lists, b: int)
    requires IndexOk(l, {b}) && b in l.size && (!SmallSize(l.size[b]) ==> HasLinks(l, b))
    requires HeadOf(l, l.size[b]) != b
    ensures IndexOk(if SmallSize(l.size[b]) then l else l.(parent := l.parent[b := Nowhere]), {})
  {
    var l' := if SmallSize(l.size[b]) then l else l.(parent := l.parent[b := Nowhere]);
    forall q {:trigger NodeOk(l', q)} | q in l'.trie ensures NodeOk(l', q) {
      assert NodeOk(l, q);
    }
    forall x | x in l'.size && !SmallSize(l'.size[x]) ensures HasLinks(l', x) && ParentOk(l', x) {
      assert HasLinks(l, x);
      if x != b {
        assert ParentOk(l, x);
        SlotKept(l, l', l.size[x]);
      }
    }
    forall j {:trigger RootOk(l', j)} | 0 <= j < NUM_BUCKETS ensures RootOk(l', j) {
      assert RootOk(l, j);
    }
  }

  /** The leaf s is cut from its slot; its block keeps a stale parent field. */
  ghost function Detach(l: Lists, s: nat): Lists
    requires |l.roots| == NUM_BUCKETS && UpLinked(l.trie, l.roots, s)
  {
    l.(trie := RemoveLeaf(l.trie, s), roots := SetRoot(l.trie, l.roots, s, 0), head := l.head - {s},
       slot := l.slot[SlotOf(l, s) := 0])
  }

  lemma DetachNode(l: Lists, s: nat, q: nat)
    requires IndexOk(l, {}) && s in l.trie && l.trie[s].IsLeaf() && UpLinked(l.trie, l.roots, s)
    requires q in l.trie && q != s
    ensures NodeOk(Detach(l, s), q)
  {
    var l' := Detach(l, s);
    assert NodeOk(l, q) && DownLinked(l.trie, q);
    forall b: bool ensures Child(l.head[q], b) in l'.slot && HeadOf(l', l'.trie[q].Kid(b)) == l'.slot[Child(l.head[q], b)] {
      assert l.slot[Child(l.head[q], b)] == HeadOf(l, l.trie[q].Kid(b));
      SlotIsKid(l, {}, s, q, b);
    }
  }

  lemma DetachIndex(l: Lists, s: nat)
    requires IndexOk(l, {}) && s in l.trie && l.trie[s].IsLeaf()
    requires UpLinked(l.trie, l.roots, s) && s in l.head
    requires Linked(RemoveLeaf(l.trie, s), SetRoot(l.trie, l.roots, s, 0))
    ensures IndexOk(Detach(l, s), {l.head[s]})
  {
    SlotHoldsHead(l, {}, s);
    var l' := Detach(l, s);
    forall q {:trigger NodeOk(l', q)} | q in l'.trie ensures NodeOk(l', q) {
      DetachNode(l, s, q);
    }
    forall x | x in l'.size && !SmallSize(l'.size[x]) ensures HasLinks(l', x) && (x != l.head[s] ==> ParentOk(l', x)) {
      assert HasLinks(l, x) && ParentOk(l, x);
      if l.size[x] in l'.trie {
        assert UpLinked(l.trie, l.roots, l.size[x]);
        SlotKept(l, l', l.size[x]);
      }
    }
    forall i {:trigger RootOk(l', i)} | 0 <= i < NUM_BUCKETS ensures RootOk(l', i) {
      assert RootOk(l, i);
      SlotIsRoot(l, {}, s, i);
    }
  }

  /** The slots once the slot that held b holds h and the child slots of b are copied to h. */
  ghost function MovedSlots(l: Lists, b: int, h: int): map<Slot, int>
    requires HasLinks(l, b)
  {
    l.slot[l.parent[b] := h][Child(h, false) := l.slot[Child(b, false)]][Child(h, true) := l.slot[Child(b, true)]]
  }

  /** The parent fields once h has the parent of b and the children of b have h as their parent. */
  ghost function MovedParents(l: Lists, b: int, h: int): map<int, Slot>
    requires HasLinks(l, b)
  {
    var c0, c1 := l.slot[Child(b, false)], l.slot[Child(b, true)];
    var p0 := l.parent[h := l.parent[b]];
    var p1 := if c0 != 0 then p0[c0 := Child(h, false)] else p0;
    if c1 != 0 then p1[c1 := Child(h, true)] else p1
  }

  /** Block h, of size q, takes the place in its trie of the tree member for s. */
  ghost function Substitute(l: Lists, s: nat, q: nat, h: int): Lists
    requires s in l.head && |l.roots| == NUM_BUCKETS && UpLinked(l.trie, l.roots, s)
    requires HasLinks(l, l.head[s])
  {
    l.(trie := Rename(l.trie, s, q), roots := SetRoot(l.trie, l.roots, s, q),
       head := (l.head - {s})[q := h],
       slot := MovedSlots(l, l.head[s], h),
       parent := MovedParents(l, l.head[s], h))
  }

  /** Block h, of size q and not a tree member, may take the place of the tree member for s. */
  ghost predicate CanReplace(l: Lists, s: nat, q: nat, h: int) {
    && IndexOk(l, {h})
    && s in l.trie && s in l.head && UpLinked(l.trie, l.roots, s) && l.head[s] != h && l.head[s] in l.size
    && q > 0 && (q == s || q !in l.trie)
    && h in l.size && l.size[h] == q && h != 0 && !SmallSize(q)
    && HasLinks(l, h) && HasLinks(l, l.head[s])
  }

  lemma ReplaceFacts(l: Lists, s: nat, q: nat, h: int)
    requires CanReplace(l, s, q, h)
    ensures l.parent[l.head[s]] == SlotOf(l, s) && NodeOk(l, s)
    ensures forall y :: y in l.trie ==> HeadOf(l, y) != h
    ensures forall side :: SlotOf(l, s) != Child(h, side)
    ensures SlotOf(l, s) != Nowhere
  {
    assert NodeOk(l, s) && UpLinked(l.trie, l.roots, s);
    assert ParentOk(l, l.head[s]);
    SlotHoldsHead(l, {h}, s);
    forall y | y in l.trie ensures HeadOf(l, y) != h {
      assert NodeOk(l, y);
    }
  }

  lemma ReplaceNode(l: Lists, s: nat, q: nat, h: int, y: nat)
    requires CanReplace(l, s, q, h) && y in l.trie
    ensures NodeOk(Substitute(l, s, q, h), if y == s then q else y)
  {
    ReplaceFacts(l, s, q, h);
    var l' := Substitute(l, s, q, h);
    var x := if y == s then q else y;
    assert NodeOk(l, y) && DownLinked(l.trie, y);
    RenameNode(l.trie, l.roots, s, q, y);
    forall b: bool
      ensures Child(l'.head[x], b) in l'.slot && l'.slot[Child(l'.head[x], b)] == HeadOf(l', l'.trie[x].Kid(b))
    {
      assert l.slot[Child(l.head[y], b)] == HeadOf(l, l.trie[y].Kid(b));
      SlotIsKid(l, {h}, s, y, b);
    }
  }

  /** The slots after the substitution. */
  lemma ReplaceSlot(l: Lists, s: nat, q: nat, h: int, y: nat)
    requires CanReplace(l, s, q, h) && y in l.trie
    ensures SlotOf(Substitute(l, s, q, h), if y == s then q else y) ==
            if l.trie[y].up == s then Child(h, l.trie[y].side) else SlotOf(l, y)
  {
    RenameNode(l.trie, l.roots, s, q, y);
    assert UpLinked(l.trie, l.roots, y);
  }

  lemma ReplaceKid(l: Lists, s: nat, q: nat, h: int, b: bool)
    requires CanReplace(l, s, q, h)
    ensures Child(l.head[s], b) in l.slot
    ensures var c := l.slot[Child(l.head[s], b)];
            && (c != 0 ==> c in l.size && c != h && HeadOf(l, l.size[c]) == c && HasLinks(l, c))
            && (c != 0 ==> HeadOf(Substitute(l, s, q, h), l.size[c]) == c)
            && (c != 0 ==> SlotOf(Substitute(l, s, q, h), l.size[c]) == Child(h, b))
            && (forall y :: y in l.trie && l.trie[y].up == s && l.trie[y].side == b ==> HeadOf(l, y) == c)
  {
    ReplaceFacts(l, s, q, h);
    assert NodeOk(l, s) && DownLinked(l.trie, s);
    assert l.slot[Child(l.head[s], b)] == HeadOf(l, l.trie[s].Kid(b));
    var k := l.trie[s].Kid(b);
    if k != 0 {
      assert NodeOk(l, k) && UpLinked(l.trie, l.roots, k);
      HeadsDiffer(l, {h}, s, k);
      ReplaceSlot(l, s, q, h, k);
      assert HasLinks(l, l.head[k]);
    }
    forall y | y in l.trie && l.trie[y].up == s && l.trie[y].side == b ensures HeadOf(l, y) == HeadOf(l, k) {
      assert UpLinked(l.trie, l.roots, y);
    }
  }

  /** The parent field of every block other than the one replaced is right afterwards. */
  lemma ReplaceParent(l: Lists, s: nat, q: nat, h: int, x: int)
    requires CanReplace(l, s, q, h) && x in l.size && x != l.head[s] && !SmallSize(l.size[x])
    ensures HasLinks(Substitute(l, s, q, h), x) && ParentOk(Substitute(l, s, q, h), x)
  {
    var l' := Substitute(l, s, q, h);
    var z := l.size[x];
    var c0, c1 := l.slot[Child(l.head[s], false)], l.slot[Child(l.head[s], true)];
    ReplaceFacts(l, s, q, h);
    ReplaceKid(l, s, q, h, false);
    ReplaceKid(l, s, q, h, true);
    assert HasLinks(l, x);
    if x == c1 {
    } else if x == c0 {
    } else if x == h {
      ReplaceSlot(l, s, q, h, s);
      assert UpLinked(l.trie, l.roots, s);
    } else {
      assert ParentOk(l, x);
      if z in l.trie {
        ReplaceSlot(l, s, q, h, z);
      }
    }
  }

  lemma ReplaceKeys(l: Lists, s: nat, q: nat, h: int)
    requires CanReplace(l, s, q, h)
    ensures Substitute(l, s, q, h).trie.Keys == Substitute(l, s, q, h).head.Keys == l.trie.Keys - {s} + {q}
  {
    RenameKeys(l.trie, s, q);
    assert ((l.head - {s})[q := h]).Keys == l.head.Keys - {s} + {q};
  }

  lemma ReplaceRoot(l: Lists, s: nat, q: nat, h: int, i: nat)
    requires CanReplace(l, s, q, h) && i < NUM_BUCKETS
    ensures RootOk(Substitute(l, s, q, h), i)
  {
    assert RootOk(l, i) && RootLinked(l.trie, l.roots, i);
    ReplaceFacts(l, s, q, h);
    SlotIsRoot(l, {h}, s, i);
  }

  lemma SubstituteIndex(l: Lists, s: nat, q: nat, h: int)
    requires CanReplace(l, s, q, h)
    ensures IndexOk(Substitute(l, s, q, h), {l.head[s]})
  {
    RenameLinked(l.trie, l.roots, s, q);
    ReplaceKeys(l, s, q, h);
    var l' := Substitute(l, s, q, h);
    forall x {:trigger NodeOk(l', x)} | x in l'.trie ensures NodeOk(l', x) {
      ReplaceNode(l, s, q, h, if x == q then s else x);
    }
    forall x | x in l'.size && !SmallSize(l'.size[x])
      ensures HasLinks(l', x) && (x != l.head[s] ==> ParentOk(l', x))
    {
      assert HasLinks(l, x);
      if x != l.head[s] {
        ReplaceParent(l, s, q, h, x);
      }
    }
    forall i {:trigger RootOk(l', i)} | 0 <= i < NUM_BUCKETS ensures RootOk(l', i) {
      ReplaceRoot(l, s, q, h, i);
    }
  }

  /** A block that is not a tree member may go. */
  lemma GoneIndex(l: Lists, b: int, k: Lists)
    requires IndexOk(l, {b}) && b in l.size && HeadOf(l, l.size[b]) != b
    requires k.size == l.size - {b} && k.parent == l.parent - {b} && k.slot == l.slot - {Child(b, false), Child(b, true)}
    requires k.trie == l.trie && k.roots == l.roots && k.head == l.head
    ensures IndexOk(k, {})
  {
    forall x {:trigger NodeOk(k, x)} | x in k.trie ensures NodeOk(k, x) {
      assert NodeOk(l, x);
    }
    forall x {:trigger HasLinks(k, x)} {:trigger ParentOk(k, x)} | x in k.size && !SmallSize(k.size[x])
      ensures HasLinks(k, x) && ParentOk(k, x)
    {
      assert HasLinks(l, x) && ParentOk(l, x);
      SlotKept(l, k, l.size[x]);
    }
    forall i {:trigger RootOk(k, i)} | 0 <= i < NUM_BUCKETS ensures RootOk(k, i) {
      assert RootOk(l, i);
    }
  }
}
