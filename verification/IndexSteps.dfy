/** What the bitmaps promise, and how each change to the bucket arrays, rings and tries keeps the index sound. */
module IndexSteps {
  import opened Bits
  import opened Rings
  import opened Tries
  import opened FreeLists
  import opened ListOps
  import opened Memory

  /**
   A set bit of the small bitmap means a bucket with a block in it; a bit of the large bitmap is set
   exactly for the tries that are not empty.
   */
  ghost predicate BitmapsOk(l: Lists, small: nat, large: nat) {
    && small < WORD && large < WORD
    && |l.roots| == NUM_BUCKETS
    && (forall i {:trigger SmallBitOk(l, small, i)} :: 0 <= i < NUM_BUCKETS ==> SmallBitOk(l, small, i))
    && (forall i {:trigger LargeBitOk(l, large, i)} :: 0 <= i < NUM_BUCKETS ==> LargeBitOk(l, large, i))
  }

  ghost predicate SmallBitOk(l: Lists, small: nat, i: nat) {
    Bit(small, i) ==> SmallRing(i) in l.rings && |l.rings[SmallRing(i)]| >= 2
  }

  ghost predicate LargeBitOk(l: Lists, large: nat, i: nat)
    requires i < |l.roots|
  {
    Bit(large, i) <==> l.roots[i] != 0
  }

  ghost predicate WordSizes(l: Lists) {
    forall x :: x in l.size ==> l.size[x] < WORD
  }

  /**
   The free-block index is well formed and its bitmaps agree with it.  The conjunction is compared
   with true so that the verifier handles it as one fact wherever it is only passed on.
   */
  ghost predicate Sound(l: Lists, small: nat, large: nat) {
    (ListsOk(l) && BitmapsOk(l, small, large) && WordSizes(l)) == true
  }

  ghost predicate Lock(k: int) { true }

  /** The root of the bucket of a size agrees with it, and any member of that size is below it. */
  lemma WalkStart(l: Lists, size: nat)
    requires Shape(l.trie, l.roots) && 0 < size && High(size) < NUM_BUCKETS && l.roots[High(size)] != 0
    ensures var q := l.roots[High(size)];
            && q in l.trie && 0 < q && l.trie[q].depth == 0 && Agree(q, size, 0)
            && SlotOf(l, q) == Root(High(size))
            && (size in l.trie ==> Under(l.trie, l.roots, q, size))
  {
    var q := l.roots[High(size)];
    assert RootLinked(l.trie, l.roots, High(size));
    assert BitsOk(l.trie, q);
    AgreeRoot(q, size);
    if size in l.trie { UnderRoot(l.trie, l.roots, size); }
  }

  /** One step of the walk for `size` past a node q of another size. */
  lemma WalkDown(l: Lists, q: nat, size: nat)
    requires Shape(l.trie, l.roots) && q in l.trie && 0 < q && 0 < size < WORD && q != size
    requires Agree(q, size, l.trie[q].depth) && (size in l.trie ==> Under(l.trie, l.roots, q, size))
    ensures l.trie[q].depth < High(size) == High(q) < NUM_BUCKETS
    ensures Side(size, l.trie[q].depth) == (Shl64(size, 64 - High(size) + l.trie[q].depth) >= HALF)
    ensures var c := l.trie[q].Kid(Side(size, l.trie[q].depth));
            && (size in l.trie ==> c in l.trie && Under(l.trie, l.roots, c, size))
            && (c == 0 ==> size !in l.trie)
            && (c != 0 ==> c in l.trie && 0 < c && l.trie[c].depth == l.trie[q].depth + 1)
            && (c != 0 ==> Agree(c, size, l.trie[c].depth))
            && (c != 0 && q in l.head ==> SlotOf(l, c) == Child(l.head[q], Side(size, l.trie[q].depth)))
  {
    var d := l.trie[q].depth;
    assert d < High(size) by { WalkGoesOn(l.trie, q, size, d); }
    WalkBit(size, d);
    if size in l.trie { UnderStep(l.trie, l.roots, q, size); }
    assert Linked(l.trie, l.roots);
    if l.trie[q].Kid(Side(size, d)) != 0 {
      WalkChild(l, q, size);
    }
  }

  lemma WalkGoesOn(t: Trie, q: nat, size: nat, d: nat)
    requires 0 < q && 0 < size && q != size && Agree(q, size, d)
    ensures d < High(size)
  {
    if d == High(size) { AgreeFull(q, size); }
  }

  lemma WalkChild(l: Lists, q: nat, size: nat)
    requires Shape(l.trie, l.roots) && q in l.trie && 0 < q && 0 < size && l.trie[q].depth < High(size)
    requires Agree(q, size, l.trie[q].depth) && l.trie[q].Kid(Side(size, l.trie[q].depth)) != 0
    ensures var c := l.trie[q].Kid(Side(size, l.trie[q].depth));
            && c in l.trie && 0 < c && l.trie[c].depth == l.trie[q].depth + 1 && Agree(c, size, l.trie[c].depth)
            && (q in l.head ==> SlotOf(l, c) == Child(l.head[q], Side(size, l.trie[q].depth)))
  {
    var d := l.trie[q].depth;
    var c := l.trie[q].Kid(Side(size, d));
    ChildProps(l.trie, l.roots, q, Side(size, d));
    assert DownLinked(l.trie, q);
    assert Agree(c, size, d);
    AgreeStep(c, size, d);
  }

  lemma SmallFront(l: Lists, i: nat, b: int)
    requires ListsOk(l) && i < NUM_BUCKETS && b !in l.size && !Sentinel(l.base, b)
    ensures var s := SmallSentinel(l.base, i);
            && SmallRing(i) in l.rings && s in l.rings[SmallRing(i)]
            && s in l.prev && CanLinkAfter(l, s, b) && Sentinel(l.base, s)
  {
    assert RingOk(l, SmallRing(i));
    NeighboursInRing(l.prev, l.next, l.rings[SmallRing(i)], SmallSentinel(l.base, i));
    FreshNotInRing(l, SmallRing(i), b);
  }

  lemma SmallBitSet(l: Lists, k: Lists, small: nat, small': nat, large: nat, i: nat, b: int)
    requires BitmapsOk(l, small, large) && i < NUM_BUCKETS && k.roots == l.roots
    requires SmallRing(i) in l.rings && SmallSentinel(l.base, i) in l.rings[SmallRing(i)]
    requires k.rings == l.rings[SmallRing(i) := Inserted(l.rings[SmallRing(i)], SmallSentinel(l.base, i), b)]
    requires small' == small || small' == SetBit(small, i)
    ensures BitmapsOk(k, small', large)
  {
    Pow2Values();
    SetBitBound(small, i, 64);
    forall j {:trigger SmallBitOk(k, small', j)} {:trigger LargeBitOk(k, large, j)} | 0 <= j < NUM_BUCKETS
      ensures SmallBitOk(k, small', j) && LargeBitOk(k, large, j)
    {
      assert SmallBitOk(l, small, j) && LargeBitOk(l, large, j);
      BitOfSetBit(small, i, j);
    }
  }

  /** k is l with block b known, and the parent of a large b NULL. */
  ghost predicate RestTracked(l: Lists, k: Lists, b: int, size: int) {
    && 0 <= size
    && if SmallSize(size) then k == Known(l, b, size)
       else HasLinks(k, b) && k == Tracked(l, b, size, Nowhere, k.slot[Child(b, false)], k.slot[Child(b, true)])
  }

  ghost predicate CanLinkAfter(l: Lists, a: int, b: int) {
    a in l.next && l.next[a] in l.prev && a != b && l.next[a] != b
  }

  lemma RestIsReady(l: Lists, k: Lists, b: int, size: int)
    requires ListsOk(l) && b !in l.size && !Sentinel(l.base, b) && RestTracked(l, k, b, size)
    ensures RestSentinel(l.base) in k.prev && CanLinkAfter(k, k.prev[RestSentinel(l.base)], b)
    ensures RestRing in k.rings && k.prev[RestSentinel(l.base)] in k.rings[RestRing]
  {
    RestTail(l);
    FreshNotInRing(l, RestRing, b);
  }

  lemma RestListed(l: Lists, k: Lists, b: int, size: nat)
    requires ListsOk(l) && b !in l.size && !Sentinel(l.base, b) && b != 0 && RestTracked(l, k, b, size)
    ensures RestSentinel(l.base) in k.prev && RestRing in k.rings && k.prev[RestSentinel(l.base)] in k.rings[RestRing]
    ensures var a := k.prev[RestSentinel(l.base)];
            && a in k.next && ListsOk(LinkIn(k, RestRing, a, b))
            && Inserted(k.rings[RestRing], a, b) == l.rings[RestRing] + [b]
  {
    RestTail(l);
    var a := l.prev[RestSentinel(l.base)];
    if SmallSize(size) {
      AddSmallBlock(l, RestRing, a, b, size);
    } else {
      AddLargeBlock(l, RestRing, a, b, size, k.slot[Child(b, false)], k.slot[Child(b, true)]);
    }
  }

  /** The bitmaps speak only of the small rings and of the roots. */
  lemma BitmapsKept(l: Lists, k: Lists, small: nat, large: nat)
    requires BitmapsOk(l, small, large) && k.roots == l.roots
    requires forall i :: SmallRing(i) in l.rings ==> SmallRing(i) in k.rings && |k.rings[SmallRing(i)]| >= |l.rings[SmallRing(i)]|
    ensures BitmapsOk(k, small, large)
  {
    forall i {:trigger SmallBitOk(k, small, i)} {:trigger LargeBitOk(k, large, i)} | 0 <= i < NUM_BUCKETS
      ensures SmallBitOk(k, small, i) && LargeBitOk(k, large, i)
    {
      assert SmallBitOk(l, small, i) && LargeBitOk(l, large, i);
    }
  }

  lemma RestTail(l: Lists)
    requires RingsOk(l)
    ensures RestSentinel(l.base) in l.prev && l.prev[RestSentinel(l.base)] in l.next
    ensures l.next[l.prev[RestSentinel(l.base)]] == RestSentinel(l.base)
    ensures l.prev[RestSentinel(l.base)] in l.rings[RestRing]
    ensures l.prev[RestSentinel(l.base)] == l.rings[RestRing][|l.rings[RestRing]| - 1]
    ensures forall x :: Inserted(l.rings[RestRing], l.prev[RestSentinel(l.base)], x) == l.rings[RestRing] + [x]
  {
    assert RingOk(l, RestRing);
    var r := l.rings[RestRing];
    NeighboursInRing(l.prev, l.next, r, r[0]);
    assert Position(r, r[0]) == 0;
    assert Position(r, r[|r| - 1]) == |r| - 1;
  }

  /** A large block b is known and its child fields are NULL. */
  ghost function Childless(l: Lists, b: int, size: nat): Lists {
    Known(l, b, size).(slot := l.slot[Child(b, true) := 0][Child(b, false) := 0])
  }

  /** The links of k are those of l with the large block b alone in its ring and held by the slot `place`. */
  ghost predicate Placed(k: Lists, l: Lists, b: int, size: nat, place: Slot) {
    SameLinks(k, Loose(l, b, size, place).(slot := Loose(l, b, size, place).slot[place := b])) == true
  }

  ghost predicate SameLinks(k: Lists, l: Lists) {
    k.base == l.base && k.size == l.size && k.prev == l.prev && k.next == l.next && k.parent == l.parent && k.slot == l.slot
  }

  /** A block joins the ring of its size, behind the tree member, or starts that ring. */
  ghost predicate LargeAdded(l: Lists, k: Lists, b: int, size: int) {
    && size >= 0 && k.size == l.size[b := size] && k.home == l.home[b := LargeRing(size)]
    && (LargeRing(size) !in l.rings ==> k.rings == l.rings[LargeRing(size) := [b]])
    && (LargeRing(size) in l.rings ==>
          && HeadOf(l, size) in l.rings[LargeRing(size)]
          && k.rings == l.rings[LargeRing(size) := Inserted(l.rings[LargeRing(size)], HeadOf(l, size), b)])
  }

  /** A small block joins the ring of its bucket, right behind the sentinel. */
  ghost predicate SmallAdded(l: Lists, k: Lists, b: int, size: int) {
    && 0 <= size && 0 <= BucketIndex(size) < NUM_BUCKETS
    && var p := SmallRing(BucketIndex(size));
    && k.size == l.size[b := size] && k.home == l.home[b := p]
    && p in l.rings && SmallSentinel(l.base, p.i) in l.rings[p]
    && k.rings == l.rings[p := Inserted(l.rings[p], SmallSentinel(l.base, p.i), b)]
  }

  lemma LargeBitSet(l: Lists, k: Lists, small: nat, large: nat, i: nat, size: nat)
    requires BitmapsOk(l, small, large) && i < NUM_BUCKETS && size != 0 && k.roots == l.roots[i := size]
    requires forall j :: SmallRing(j) in l.rings ==> SmallRing(j) in k.rings && k.rings[SmallRing(j)] == l.rings[SmallRing(j)]
    ensures BitmapsOk(k, small, SetBit(large, i))
  {
    Pow2Values();
    SetBitBound(large, i, 64);
    forall j {:trigger SmallBitOk(k, small, j)} {:trigger LargeBitOk(k, SetBit(large, i), j)} | 0 <= j < NUM_BUCKETS
      ensures SmallBitOk(k, small, j) && LargeBitOk(k, SetBit(large, i), j)
    {
      assert SmallBitOk(l, small, j) && LargeBitOk(l, large, j);
      BitOfSetBit(large, i, j);
    }
  }

  lemma JoinReady(l: Lists, b: int, size: nat)
    requires ListsOk(l) && size in l.trie && b !in l.size && !Sentinel(l.base, b)
    ensures LargeRing(size) in l.rings && size in l.head && l.head[size] in l.rings[LargeRing(size)]
    ensures CanLinkAfter(l, l.head[size], b)
  {
    assert NodeOk(l, size);
    assert HomeOk(l, l.head[size]);
    assert RingOk(l, LargeRing(size));
    NeighboursInRing(l.prev, l.next, l.rings[LargeRing(size)], l.head[size]);
    FreshNotInRing(l, LargeRing(size), b);
  }

  lemma RootsNonNull(l: Lists, i: nat)
    requires IndexOk(l, {}) && i < NUM_BUCKETS
    ensures HeadOf(l, l.roots[i]) == 0 <==> l.roots[i] == 0
  {
    assert RootLinked(l.trie, l.roots, i);
    if l.roots[i] != 0 { assert NodeOk(l, l.roots[i]); }
  }

  lemma FirstDone(l: Lists, b: int, size: nat, i: nat, small: nat, large: nat)
    requires Sound(l, small, large) && !SmallSize(size) && size < WORD && i == High(size) < NUM_BUCKETS && l.roots[i] == 0
    requires b !in l.size && !Sentinel(l.base, b) && b != 0
    ensures var k := PutAtRoot(Loose(l, b, size, Root(i)), b, size, i);
            LargeRing(size) !in l.rings && Sound(k, small, SetBit(large, i))
  {
    AddRootBlock(l, b, size);
    LargeBitSet(l, PutAtRoot(Loose(l, b, size, Root(i)), b, size, i), small, large, i, size);
  }

  lemma FirstEffect(l: Lists, b: int, size: nat, i: nat)
    requires i < |l.roots| && LargeRing(size) !in l.rings
    ensures var k := PutAtRoot(Loose(l, b, size, Root(i)), b, size, i);
            LargeAdded(l, k, b, size) && Placed(k, l, b, size, Root(i))
  {
  }

  lemma LeafDone(l: Lists, b: int, size: nat, q: nat, side: bool, k: Lists, small: nat, large: nat)
    requires Sound(l, small, large) && !SmallSize(size) && size < WORD && size !in l.trie
    requires q in l.trie && 0 < q && Agree(q, size, l.trie[q].depth) && l.trie[q].depth < High(size)
    requires side == Side(size, l.trie[q].depth) && l.trie[q].Kid(side) == 0
    requires b !in l.size && !Sentinel(l.base, b) && b != 0
    requires q in l.head && k == PutBelow(Loose(l, b, size, Child(l.head[q], side)), b, size, q, side)
    ensures Sound(k, small, large)
  {
    AddLeafBlock(l, b, size, q);
    LeafBits(l, b, size, q, side, k, small, large);
  }

  lemma LeafBits(l: Lists, b: int, size: nat, q: nat, side: bool, k: Lists, small: nat, large: nat)
    requires BitmapsOk(l, small, large) && q in l.trie && q in l.head
    requires k == PutBelow(Loose(l, b, size, Child(l.head[q], side)), b, size, q, side)
    ensures BitmapsOk(k, small, large)
  {
    BitmapsKept(l, k, small, large);
  }

  lemma LeafEffect(l: Lists, b: int, size: nat, q: nat, side: bool, k: Lists)
    requires q in l.trie && q in l.head && LargeRing(size) !in l.rings
    requires k == PutBelow(Loose(l, b, size, Child(l.head[q], side)), b, size, q, side)
    ensures LargeAdded(l, k, b, size) && Placed(k, l, b, size, Child(l.head[q], side))
  {
  }

  lemma JoinDone(l: Lists, b: int, size: nat, small: nat, large: nat)
    requires Sound(l, small, large) && !SmallSize(size) && size < WORD && size in l.trie
    requires b !in l.size && !Sentinel(l.base, b) && b != 0
    ensures size in l.head && LargeRing(size) in l.rings && l.head[size] in l.rings[LargeRing(size)] && l.head[size] in l.next
    ensures var k := LinkIn(Tracked(l, b, size, Nowhere, 0, 0), LargeRing(size), l.head[size], b);
            LargeAdded(l, k, b, size) && Sound(k, small, large)
  {
    JoinReady(l, b, size);
    AddLargeBlock(l, LargeRing(size), l.head[size], b, size, 0, 0);
    BitmapsKept(l, LinkIn(Tracked(l, b, size, Nowhere, 0, 0), LargeRing(size), l.head[size], b), small, large);
  }

  /** Block b sits in a slot that is not its own child slot; h is another block. */
  ghost predicate CanMove(l: Lists, b: int, h: int) {
    (
    && HasLinks(l, b) && HasLinks(l, h) && h != b
    && l.parent[b] in l.slot && l.slot[l.parent[b]] == b
    && (forall side :: l.parent[b] != Child(b, side) && l.parent[b] != Child(h, side))
    ) == true
  }

  ghost predicate ChildKnown(l: Lists, b: int, side: bool)
    requires HasLinks(l, b)
  {
    var c := l.slot[Child(b, side)];
    c != 0 ==> LargeBlock(l, c) && c in l.parent
  }

  ghost function ChildMoved(l: Lists, b: int, h: int, side: bool): Lists
    requires HasLinks(l, b)
  {
    var c := l.slot[Child(b, side)];
    l.(slot := l.slot[Child(h, side) := c], parent := if c != 0 then l.parent[c := Child(h, side)] else l.parent)
  }

  lemma SlotMoved(l: Lists, k: Lists, b: int, h: int)
    requires CanMove(l, b, h) && ChildKnown(l, b, false) && ChildKnown(l, b, true)
    requires k == l.(slot := l.slot[l.parent[b] := h], parent := l.parent[h := l.parent[b]])
    ensures HasLinks(k, b) && HasLinks(k, h) && ChildKnown(k, b, false) && ChildKnown(k, b, true)
  {
    assert k.slot[Child(b, false)] == l.slot[Child(b, false)] && k.slot[Child(b, true)] == l.slot[Child(b, true)];
  }

  lemma ChildrenMoved(l: Lists, k: Lists, b: int, h: int)
    requires CanMove(l, b, h)
    requires k == l.(slot := l.slot[l.parent[b] := h], parent := l.parent[h := l.parent[b]])
    ensures HasLinks(k, b) && HasLinks(ChildMoved(k, b, h, false), b)
    ensures ChildMoved(ChildMoved(k, b, h, false), b, h, true) ==
            l.(slot := MovedSlots(l, b, h), parent := MovedParents(l, b, h))
  {
    assert k.slot[Child(b, false)] == l.slot[Child(b, false)] && k.slot[Child(b, true)] == l.slot[Child(b, true)];
  }

  ghost predicate DropsOnly(l: Lists, k: Lists, b: int) {
    (
    && k.base == l.base && k.size == l.size - {b} && k.prev == l.prev - {b} && k.next == l.next - {b}
    && k.parent == l.parent - {b} && k.slot == l.slot - {Child(b, false), Child(b, true)}
    ) == true
  }

  /** The neighbours of a listed block are nodes of its ring; they are b itself only when b is alone. */
  lemma Neighbours(l: Lists, b: int)
    requires RingsOk(l) && b in l.size
    ensures HomeOk(l, b) && b in l.prev && b in l.next
    ensures l.prev[b] in l.rings[l.home[b]] && l.prev[b] in l.next && l.next[b] in l.prev
    ensures l.prev[b] == b <==> |l.rings[l.home[b]]| == 1
    ensures |l.rings[l.home[b]]| >= 2 ==> l.next[b] != b && (l.prev[b] == l.next[b] <==> |l.rings[l.home[b]]| == 2)
  {
    assert HomeOk(l, b);
    assert RingOk(l, l.home[b]);
    NeighboursInRing(l.prev, l.next, l.rings[l.home[b]], b);
    if |l.rings[l.home[b]]| >= 2 {
      SameNeighbours(l.prev, l.next, l.rings[l.home[b]], b);
    }
  }

  /** What remains of the index when block b has left it. */
  ghost predicate Delisted(l: Lists, k: Lists, b: int) {
    (
    && b in l.home && l.home[b] in l.rings
    && k.size == l.size - {b} && k.home == l.home - {b}
    && k.rings == if |l.rings[l.home[b]]| == 1 then l.rings - {l.home[b]} else RingsWithout(l, b)
    ) == true
  }

  ghost predicate SmallHome(l: Lists, b: int) {
    && b in l.size && 0 <= BucketIndex(l.size[b]) < NUM_BUCKETS
    && b in l.home && l.home[b] in l.rings && SmallRing(BucketIndex(l.size[b])) in l.rings
  }

  /** The small bitmap after a small block has left. */
  ghost function SmallBitmapAfter(l: Lists, b: int, small: nat): nat
    requires SmallHome(l, b)
  {
    var i := BucketIndex(l.size[b]);
    if |l.rings[l.home[b]]| == 2 && |RingsWithout(l, b)[SmallRing(i)]| <= 2 then ClearBit(small, i) else small
  }

  lemma SmallNotAlone(l: Lists, b: int)
    requires ListsOk(l) && b in l.size && SmallSize(l.size[b]) && Aligned(l, b)
    ensures HomeOk(l, b) && SmallHome(l, b) && |l.rings[l.home[b]]| >= 2 && HeadOf(l, l.size[b]) != b
    ensures !l.home[b].LargeRing? && b in l.prev && b in l.next
  {
    Neighbours(l, b);
    assert RingOk(l, l.home[b]);
    assert l.size[b] in l.trie ==> NodeOk(l, l.size[b]);
  }

  lemma SmallRemoved(l: Lists, b: int)
    requires ListsOk(l) && b in l.size && SmallSize(l.size[b]) && Aligned(l, b)
    ensures HomeOk(l, b) && SmallHome(l, b) && b in l.prev && b in l.next
    ensures DropsOnly(Spliced(l, b), Unlisted(l, b), b) && Delisted(l, Unlisted(l, b), b)
    ensures l.prev[b] == l.next[b] <==> |l.rings[l.home[b]]| == 2
    ensures var k := Unlisted(l, b);
            var s, r := SmallSentinel(l.base, BucketIndex(l.size[b])), SmallRing(BucketIndex(l.size[b]));
            s in k.prev && s in k.next && r in k.rings && (k.prev[s] == k.next[s] <==> |k.rings[r]| <= 2)
  {
    SmallNotAlone(l, b);
    Neighbours(l, b);
    RemoveMember(l, b);
    SentinelPair(Unlisted(l, b), BucketIndex(l.size[b]));
  }

  /** The two link words of a bucket are equal when it holds at most one block. */
  lemma SentinelPair(k: Lists, i: nat)
    requires RingsOk(k) && i < NUM_BUCKETS
    ensures var s, r := SmallSentinel(k.base, i), SmallRing(i);
            s in k.prev && s in k.next && r in k.rings && (k.prev[s] == k.next[s] <==> |k.rings[r]| <= 2)
  {
    var r := k.rings[SmallRing(i)];
    assert RingOk(k, SmallRing(i));
    NeighboursInRing(k.prev, k.next, r, r[0]);
    if |r| >= 2 { SameNeighbours(k.prev, k.next, r, r[0]); }
  }

  lemma SmallSound(l: Lists, b: int, small: nat, large: nat)
    requires Sound(l, small, large) && b in l.size && SmallSize(l.size[b]) && Aligned(l, b)
    ensures SmallHome(l, b) && b in l.prev && b in l.next && HomeOk(l, b)
    ensures Sound(Unlisted(l, b), SmallBitmapAfter(l, b, small), large)
  {
    SmallNotAlone(l, b);
    RemoveMember(l, b);
    SmallBitsAfter(l, b, small, large);
  }

  lemma SmallBitsAfter(l: Lists, b: int, small: nat, large: nat)
    requires ListsOk(l) && BitmapsOk(l, small, large) && b in l.size && SmallSize(l.size[b]) && Aligned(l, b)
    ensures SmallHome(l, b) && b in l.prev && b in l.next && HomeOk(l, b)
    ensures BitmapsOk(Unlisted(l, b), SmallBitmapAfter(l, b, small), large)
  {
    SmallNotAlone(l, b);
    var k, small', i := Unlisted(l, b), SmallBitmapAfter(l, b, small), BucketIndex(l.size[b]);
    ClearBitBound(small, i);
    assert RingOk(l, l.home[b]);
    RemovedElements(l.rings[l.home[b]], b);
    forall j {:trigger SmallBitOk(k, small', j)} {:trigger LargeBitOk(k, large, j)} | 0 <= j < NUM_BUCKETS
      ensures SmallBitOk(k, small', j) && LargeBitOk(k, large, j)
    {
      assert SmallBitOk(l, small, j) && LargeBitOk(l, large, j);
      BitOfClearBit(small, i, j);
    }
  }

  lemma OtherRemoved(l: Lists, b: int, small: nat, large: nat)
    requires Sound(l, small, large) && b in l.size && !SmallSize(l.size[b]) && HeadOf(l, l.size[b]) != b
    ensures HomeOk(l, b) && b in l.prev && b in l.next && Sound(Unlisted(l, b), small, large)
    ensures DropsOnly(Spliced(l, b), Unlisted(l, b), b) && Delisted(l, Unlisted(l, b), b)
  {
    Neighbours(l, b);
    NotAlone(l, b);
    RemoveMember(l, b);
    assert RingOk(l, l.home[b]);
    RemovedElements(l.rings[l.home[b]], b);
    BitmapsKept(l, Unlisted(l, b), small, large);
  }

  lemma TwoMembers(r: seq<int>, x: int, y: int)
    requires x in r && y in r && x != y
    ensures |r| >= 2
  {
    var i :| 0 <= i < |r| && r[i] == x;
    var j :| 0 <= j < |r| && r[j] == y;
    assert i != j;
  }

  /** A large block that is no tree member shares its ring with another node. */
  lemma NotAlone(l: Lists, b: int)
    requires ListsOk(l) && b in l.size && HomeOk(l, b)
    requires HeadOf(l, l.size[b]) != b || !l.home[b].LargeRing?
    ensures |l.rings[l.home[b]]| >= 2
  {
    var p := l.home[b];
    assert RingOk(l, p);
    if p.LargeRing? {
      assert NodeOk(l, p.s);
      assert HomeOk(l, l.head[p.s]);
      TwoMembers(l.rings[p], b, l.head[p.s]);
    } else {
      TwoMembers(l.rings[p], b, SentinelOf(l.base, p));
    }
  }

  /** What moving h into the place of the tree member for s needs, also once rings have changed. */
  lemma MoveReady(l: Lists, k: Lists, s: nat, q: nat, h: int)
    requires CanReplace(l, s, q, h)
    requires k.size == l.size && k.slot == l.slot && k.parent == l.parent
    ensures LargeBlock(k, h) && CanMove(k, l.head[s], h)
    ensures ChildKnown(k, l.head[s], false) && ChildKnown(k, l.head[s], true)
    ensures MovedSlots(k, l.head[s], h) == MovedSlots(l, l.head[s], h) && MovedParents(k, l.head[s], h) == MovedParents(l, l.head[s], h)
  {
    ReplaceFacts(l, s, q, h);
    SlotHoldsHead(l, {h}, s);
    ReplaceKid(l, s, q, h, false);
    ReplaceKid(l, s, q, h, true);
    var b := l.head[s];
    var c0, c1 := l.slot[Child(b, false)], l.slot[Child(b, true)];
    assert c0 != 0 ==> NodeOk(l, l.size[c0]);
    assert c1 != 0 ==> NodeOk(l, l.size[c1]);
    SlotIsKid(l, {h}, s, s, false);
    SlotIsKid(l, {h}, s, s, true);
    assert DownLinked(l.trie, s) && UpLinked(l.trie, l.roots, s);
  }

  lemma HeadReady(l: Lists, b: int, h: int)
    requires ListsOk(l) && b in l.size && !SmallSize(l.size[b]) && HeadOf(l, l.size[b]) == b
    requires b in l.prev && h == l.prev[b] && h != b
    ensures HomeOk(l, b) && l.home[b] == LargeRing(l.size[b]) && |l.rings[l.home[b]]| >= 2 && b in l.next
    ensures CanReplace(l, l.size[b], l.size[b], h) && l.head[l.size[b]] == b
  {
    Neighbours(l, b);
    HeadHome(l, b);
    CanReplaceInRing(l, b, h);
  }

  lemma HeadHome(l: Lists, b: int)
    requires ListsOk(l) && b in l.size && HeadOf(l, l.size[b]) == b
    ensures l.size[b] in l.trie && l.size[b] in l.head && l.head[l.size[b]] == b && l.home[b] == LargeRing(l.size[b])
    ensures UpLinked(l.trie, l.roots, l.size[b]) && !SmallSize(l.size[b])
  {
    assert b != 0;
    assert NodeOk(l, l.size[b]) && UpLinked(l.trie, l.roots, l.size[b]);
  }

  lemma HeadSound(l: Lists, b: int, h: int, small: nat, large: nat)
    requires Sound(l, small, large) && b in l.size && !SmallSize(l.size[b]) && HeadOf(l, l.size[b]) == b
    requires HomeOk(l, b) && l.home[b] == LargeRing(l.size[b]) && |l.rings[l.home[b]]| >= 2
    requires b in l.prev && h == l.prev[b] && h != b && CanReplace(l, l.size[b], l.size[b], h) && b in l.next
    ensures var k := Unlisted(Substitute(l, l.size[b], l.size[b], h), b);
            Sound(k, small, large) && Delisted(l, k, b)
  {
    Neighbours(l, b);
    RemoveHeadOfRing(l, b, h);
    RenameSame(l.trie, l.roots, l.size[b]);
    BitmapsKept(l, Unlisted(Substitute(l, l.size[b], l.size[b], h), b), small, large);
  }

  lemma LeafReady(l: Lists, b: int)
    requires ListsOk(l) && b in l.size && HeadOf(l, l.size[b]) == b && b in l.prev && l.prev[b] == b
    ensures HomeOk(l, b) && l.home[b] == LargeRing(l.size[b]) && |l.rings[l.home[b]]| == 1 && b in l.next
    ensures l.size[b] in l.trie && UpLinked(l.trie, l.roots, l.size[b]) && l.size[b] in l.head && l.head[l.size[b]] == b
    ensures l.size[b] > 0 && High(l.size[b]) == l.trie[l.size[b]].bucket < NUM_BUCKETS
    ensures SlotOf(l, l.size[b]) in l.slot && b in l.parent && l.parent[b] == SlotOf(l, l.size[b])
    ensures SlotOf(l, l.size[b]) == Root(High(l.size[b])) <==> l.trie[l.size[b]].up == 0
  {
    Neighbours(l, b);
    HeadHome(l, b);
    SlotHoldsHead(l, {}, l.size[b]);
    assert BitsOk(l.trie, l.size[b]) && ParentOk(l, b);
  }

  lemma LeafSound(l: Lists, b: int, small: nat, large: nat)
    requires Sound(l, small, large) && b in l.size && HeadOf(l, l.size[b]) == b
    requires HomeOk(l, b) && l.home[b] == LargeRing(l.size[b]) && |l.rings[l.home[b]]| == 1 && b in l.prev && b in l.next
    requires l.size[b] in l.trie && UpLinked(l.trie, l.roots, l.size[b]) && l.trie[l.size[b]].IsLeaf()
    ensures var k, i := Unlisted(Detach(l, l.size[b]), b), l.trie[l.size[b]].bucket;
            Sound(k, small, if l.trie[l.size[b]].up == 0 then ClearBit(large, i) else large) && Delisted(l, k, b)
            && DropsOnly(l.(slot := l.slot[SlotOf(l, l.size[b]) := 0]), k, b)
  {
    RemoveLeafBlock(l, b);
    LargeBitCleared(l, Unlisted(Detach(l, l.size[b]), b), small, large, l.trie[l.size[b]].bucket, l.trie[l.size[b]].up == 0);
  }

  lemma LargeBitCleared(l: Lists, k: Lists, small: nat, large: nat, i: nat, cleared: bool)
    requires BitmapsOk(l, small, large) && i < NUM_BUCKETS && k.roots == if cleared then l.roots[i := 0] else l.roots
    requires forall j :: SmallRing(j) in l.rings ==> SmallRing(j) in k.rings && k.rings[SmallRing(j)] == l.rings[SmallRing(j)]
    ensures BitmapsOk(k, small, if cleared then ClearBit(large, i) else large)
  {
    ClearBitBound(large, i);
    var large' := if cleared then ClearBit(large, i) else large;
    forall j {:trigger SmallBitOk(k, small, j)} {:trigger LargeBitOk(k, large', j)} | 0 <= j < NUM_BUCKETS
      ensures SmallBitOk(k, small, j) && LargeBitOk(k, large', j)
    {
      assert SmallBitOk(l, small, j) && LargeBitOk(l, large, j);
      BitOfClearBit(large, i, j);
    }
  }

  /** The plan of RemoveHead: what its steps need and where they lead. */
  lemma HeadPlan(l: Lists, b: int, h: int, small: nat, large: nat) returns (k: Lists)
    requires Sound(l, small, large) && b in l.size && !SmallSize(l.size[b]) && HeadOf(l, l.size[b]) == b
    requires b in l.prev && h == l.prev[b] && h != b
    ensures b in l.next
    ensures var l1 := Spliced(l, b);
            && LargeBlock(l1, h) && CanMove(l1, b, h) && ChildKnown(l1, b, false) && ChildKnown(l1, b, true)
            && DropsOnly(l1.(slot := MovedSlots(l1, b, h), parent := MovedParents(l1, b, h)), k, b)
    ensures Sound(k, small, large) && Delisted(l, k, b)
  {
    HeadReady(l, b, h);
    HeadSound(l, b, h, small, large);
    MoveReady(l, Spliced(l, b), l.size[b], l.size[b], h);
    k := Unlisted(Substitute(l, l.size[b], l.size[b], h), b);
  }

  /** The plan of RemoveLeafMember. */
  lemma LeafPlan(m: Mem, l: Lists, b: int, small: nat, large: nat) returns (k: Lists)
    requires Stored(m, l) && Separate(l) && Sound(l, small, large)
    requires b in l.size && HeadOf(l, l.size[b]) == b && b in l.prev && l.prev[b] == b
    requires l.size[b] in l.trie && l.trie[l.size[b]].IsLeaf() && l.size[b] > 0
    ensures b in l.parent && SlotPlace(l, l.parent[b]) && SlotAddress(l.base, l.parent[b]) in m
    ensures DropsOnly(l.(slot := l.slot[l.parent[b] := 0]), k, b) && Delisted(l, k, b)
    ensures SlotAddress(l.base, l.parent[b]) == l.base + 1024 + 8 * High(l.size[b]) ==> Sound(k, small, ClearBit(large, High(l.size[b])))
    ensures SlotAddress(l.base, l.parent[b]) != l.base + 1024 + 8 * High(l.size[b]) ==> Sound(k, small, large)
  {
    LeafReady(l, b);
    LeafSound(l, b, small, large);
    k := Unlisted(Detach(l, l.size[b]), b);
    assert SlotAt(m, l, l.parent[b]);
    assert SlotPlace(l, l.parent[b]) && SlotPlace(l, Root(High(l.size[b])));
    SlotAddressInjective(l, l.parent[b], Root(High(l.size[b])));
  }

  /** Node q lies strictly below node s. */
  ghost predicate Below(t: Trie, s: nat, q: nat) {
    && s in t && q in t && s > 0 && q > 0 && q != s
    && High(q) == High(s) && t[s].depth < t[q].depth <= High(s) && Agree(s, q, t[s].depth)
  }

  lemma FirstDescent(l: Lists, s: nat, side: bool)
    requires Shape(l.trie, l.roots) && IndexOk(l, {}) && s in l.trie && l.trie[s].Kid(side) != 0
    ensures var q := l.trie[s].Kid(side); Below(l.trie, s, q) && s in l.head && SlotOf(l, q) == Child(l.head[s], side)
  {
    ChildProps(l.trie, l.roots, s, side);
    assert DownLinked(l.trie, s);
  }

  lemma NextDescent(l: Lists, s: nat, q: nat, side: bool)
    requires Shape(l.trie, l.roots) && IndexOk(l, {}) && Below(l.trie, s, q) && l.trie[q].Kid(side) != 0
    ensures var r := l.trie[q].Kid(side);
            Below(l.trie, s, r) && q in l.head && SlotOf(l, r) == Child(l.head[q], side) && l.trie[r].depth == l.trie[q].depth + 1
  {
    ChildProps(l.trie, l.roots, q, side);
    assert DownLinked(l.trie, q);
    AgreeLess(q, l.trie[q].Kid(side), l.trie[q].depth, l.trie[s].depth);
  }

  /** The plan of RemoveInner. */
  lemma InnerPlan(l: Lists, b: int, q: nat, small: nat, large: nat) returns (k: Lists)
    requires Sound(l, small, large)
    requires b in l.size && HeadOf(l, l.size[b]) == b && b in l.prev && l.prev[b] == b
    requires l.size[b] in l.trie && q in l.trie && q in l.head && l.trie[q].IsLeaf() && q != l.size[b] && q > 0 && l.size[b] > 0
    requires Agree(l.size[b], q, l.trie[l.size[b]].depth)
    ensures SlotOf(l, q) in l.slot
    ensures var h, l1 := l.head[q], l.(slot := l.slot[SlotOf(l, q) := 0]);
            && LargeBlock(l1, h) && CanMove(l1, b, h) && ChildKnown(l1, b, false) && ChildKnown(l1, b, true)
            && DropsOnly(l1.(slot := MovedSlots(l1, b, h), parent := MovedParents(l1, b, h)), k, b)
    ensures Sound(k, small, large) && Delisted(l, k, b)
  {
    LeafReady(l, b);
    SlotHoldsHead(l, {}, q);
    var s, h := l.size[b], l.head[q];
    CanReplaceByLeaf(l, s, q);
    var d := Detach(l, q);
    MoveReady(d, l.(slot := l.slot[SlotOf(l, q) := 0]), s, q, h);
    k := Unlisted(Substitute(d, s, q, h), b);
    InnerSound(l, b, q, k, small, large);
  }

  lemma InnerSound(l: Lists, b: int, q: nat, k: Lists, small: nat, large: nat)
    requires Sound(l, small, large)
    requires b in l.size && HeadOf(l, l.size[b]) == b && HomeOk(l, b) && |l.rings[l.home[b]]| == 1
    requires l.home[b] == LargeRing(l.size[b]) && b in l.prev && b in l.next
    requires l.size[b] in l.trie && q in l.trie && q in l.head && l.trie[q].IsLeaf() && q != l.size[b] && q > 0 && l.size[b] > 0
    requires Agree(l.size[b], q, l.trie[l.size[b]].depth) && UpLinked(l.trie, l.roots, q)
    requires UpLinked(Detach(l, q).trie, Detach(l, q).roots, l.size[b]) && l.size[b] in Detach(l, q).head
    requires HasLinks(Detach(l, q), Detach(l, q).head[l.size[b]])
    requires k == Unlisted(Substitute(Detach(l, q), l.size[b], q, l.head[q]), b)
    ensures Sound(k, small, large) && Delisted(l, k, b)
  {
    RemoveInnerBlock(l, b, q);
    InnerRoots(l, l.size[b], q);
    LargeBitsSame(l, k, small, large);
  }

  /** Replacing an inner node by a leaf below it changes no root between NULL and not NULL. */
  lemma InnerRoots(l: Lists, s: nat, q: nat)
    requires Shape(l.trie, l.roots) && s in l.trie && q in l.trie && q != s && q > 0 && s > 0 && Agree(s, q, l.trie[s].depth)
    requires l.trie[q].IsLeaf() && UpLinked(l.trie, l.roots, q) && UpLinked(RemoveLeaf(l.trie, q), SetRoot(l.trie, l.roots, q, 0), s)
    ensures var r := SetRoot(RemoveLeaf(l.trie, q), SetRoot(l.trie, l.roots, q, 0), s, q);
            |r| == NUM_BUCKETS && forall i :: 0 <= i < NUM_BUCKETS ==> (r[i] == 0 <==> l.roots[i] == 0)
  {
    assert BitsOk(l.trie, q) && BitsOk(l.trie, s) && UpLinked(l.trie, l.roots, s);
    assert l.trie[q].up != 0 by {
      UnderRoot(l.trie, l.roots, s);
      if l.trie[q].up == 0 { UnderStep(l.trie, l.roots, q, s); }
    }
    assert RemoveLeaf(l.trie, q)[s].up == l.trie[s].up && RemoveLeaf(l.trie, q)[s].bucket == l.trie[s].bucket;
  }

  lemma LargeBitsSame(l: Lists, k: Lists, small: nat, large: nat)
    requires BitmapsOk(l, small, large) && |k.roots| == NUM_BUCKETS
    requires forall i :: 0 <= i < NUM_BUCKETS ==> (k.roots[i] == 0 <==> l.roots[i] == 0)
    requires forall j :: SmallRing(j) in l.rings ==> SmallRing(j) in k.rings && k.rings[SmallRing(j)] == l.rings[SmallRing(j)]
    ensures BitmapsOk(k, small, large)
  {
    forall j {:trigger SmallBitOk(k, small, j)} {:trigger LargeBitOk(k, large, j)} | 0 <= j < NUM_BUCKETS
      ensures SmallBitOk(k, small, j) && LargeBitOk(k, large, j)
    {
      assert SmallBitOk(l, small, j) && LargeBitOk(l, large, j);
    }
  }

  /** Only a tree member that is alone in its ring is its own neighbour. */
  lemma CaseOfBlock(l: Lists, b: int)
    requires ListsOk(l) && b in l.size && Aligned(l, b) && HomeOk(l, b)
    ensures |l.rings[l.home[b]]| == 1 ==> !SmallSize(l.size[b]) && HeadOf(l, l.size[b]) == b
    ensures |l.rings[l.home[b]]| == 1 ==> l.size[b] in l.trie
  {
    if |l.rings[l.home[b]]| == 1 {
      if HeadOf(l, l.size[b]) != b { NotAlone(l, b); }
      HeadHome(l, b);
    }
  }

  /** A large block has a parent exactly when it is a tree member. */
  lemma NullParent(l: Lists, b: int)
    requires IndexOk(l, {}) && Separate(l) && b in l.size && !SmallSize(l.size[b])
    ensures b in l.parent && (SlotAddress(l.base, l.parent[b]) != 0 <==> HeadOf(l, l.size[b]) == b)
  {
    assert ParentOk(l, b);
    if HeadOf(l, l.size[b]) == b {
      assert NodeOk(l, l.size[b]) by { assert b != 0; }
      SlotHoldsHead(l, {}, l.size[b]);
      assert SlotPlace(l, l.parent[b]);
      SlotAddressInjective(l, l.parent[b], l.parent[b]);
    }
  }

  /** What the tree member for q looks like in memory. */
  lemma NodeWords(m: Mem, l: Lists, q: nat)
    requires Stored(m, l) && IndexOk(l, {}) && q in l.trie
    ensures q in l.head && Holds(m, l.head[q], q) && l.head[q] != 0
    ensures Holds(m, SlotAddress(l.base, SlotOf(l, q)), l.head[q])
    ensures Holds(m, l.head[q] + 40, HeadOf(l, l.trie[q].kid0)) && Holds(m, l.head[q] + 48, HeadOf(l, l.trie[q].kid1))
    ensures m[l.head[q] + 40] == 0 <==> l.trie[q].kid0 == 0
    ensures m[l.head[q] + 48] == 0 <==> l.trie[q].kid1 == 0
  {
    SlotHoldsHead(l, {}, q);
    assert NodeOk(l, q) && DownLinked(l.trie, q);
    assert SlotAt(m, l, SlotOf(l, q)) && TagAt(m, l, l.head[q]);
    assert SlotAt(m, l, Child(l.head[q], false)) && SlotAt(m, l, Child(l.head[q], true));
    assert l.trie[q].Kid(false) == l.trie[q].kid0 && l.trie[q].Kid(true) == l.trie[q].kid1;
    if l.trie[q].kid0 != 0 { assert NodeOk(l, l.trie[q].kid0); }
    if l.trie[q].kid1 != 0 { assert NodeOk(l, l.trie[q].kid1); }
  }

  lemma NextOfHead(l: Lists, q: nat)
    requires ListsOk(l) && q in l.trie
    ensures q in l.head && l.head[q] in l.next
    ensures l.next[l.head[q]] in l.size && l.size[l.next[l.head[q]]] == q && l.next[l.head[q]] != 0
  {
    assert NodeOk(l, q);
    var p := LargeRing(q);
    assert HomeOk(l, l.head[q]) && RingOk(l, p);
    NeighboursInRing(l.prev, l.next, l.rings[p], l.head[q]);
    MemberFacts(l, p, l.next[l.head[q]]);
  }

  /** A block found so far fits; `bestSize` is its size, or the largest word when there is none. */
  ghost predicate Candidate(l: Lists, trueSize: nat, best: int, bestSize: nat) {
    if best == 0 then bestSize == WORD - 1
    else bestSize in l.trie && bestSize in l.head && best == l.head[bestSize] && trueSize <= bestSize
  }

  /** Size s is in the trie of bucket i and large enough. */
  ghost predicate FitsIn(t: Trie, trueSize: nat, i: nat, s: nat) {
    s in t && s > 0 && High(s) == i && s >= trueSize
  }

  ghost predicate NoneFits(t: Trie, trueSize: nat, i: nat) {
    forall s :: !FitsIn(t, trueSize, i, s)
  }

  /** Every size of this bucket that is large enough lies below q. */
  ghost predicate Covered(t: Trie, roots: seq<nat>, trueSize: nat, i: nat, q: nat)
    requires Shape(t, roots)
  {
    q in t && forall s :: FitsIn(t, trueSize, i, s) ==> Under(t, roots, q, s)
  }

  lemma CoveredRoot(t: Trie, roots: seq<nat>, trueSize: nat)
    requires Shape(t, roots) && 0 < trueSize && High(trueSize) < NUM_BUCKETS && roots[High(trueSize)] != 0
    ensures Covered(t, roots, trueSize, High(trueSize), roots[High(trueSize)])
  {
    assert RootLinked(t, roots, High(trueSize));
    forall s | FitsIn(t, trueSize, High(trueSize), s) ensures Under(t, roots, roots[High(trueSize)], s) {
      UnderRoot(t, roots, s);
    }
  }

  /** Past a node that is too small, what is large enough lies on the side of trueSize or to the right. */
  lemma CoveredStep(t: Trie, roots: seq<nat>, trueSize: nat, i: nat, q: nat)
    requires Shape(t, roots) && q in t && 0 < q < trueSize && t[q].depth < High(trueSize) && Agree(q, trueSize, t[q].depth)
    ensures Covered(t, roots, trueSize, i, q) ==>
              && (Side(trueSize, t[q].depth) || t[q].Kid(true) == 0 ==>
                    var c := t[q].Kid(Side(trueSize, t[q].depth));
                    if c == 0 then NoneFits(t, trueSize, i) else Covered(t, roots, trueSize, i, c))
  {
    var d := t[q].depth;
    var right := Side(trueSize, d);
    if Covered(t, roots, trueSize, i, q) && (right || t[q].Kid(true) == 0) {
      forall s | FitsIn(t, trueSize, i, s)
        ensures t[q].Kid(right) in t && t[q].Kid(right) != 0 && Under(t, roots, t[q].Kid(right), s)
      {
        UnderStep(t, roots, q, s);
        if right && !Side(s, d) { AgreeOrder(s, trueSize, d); }
      }
      if t[q].Kid(right) != 0 { ChildProps(t, roots, q, right); }
    }
  }

  /** The right-hand child of a node on the way of trueSize, where that way turns left, is larger. */
  lemma RightIsLarger(t: Trie, roots: seq<nat>, trueSize: nat, q: nat)
    requires Shape(t, roots) && q in t && 0 < q && 0 < trueSize && t[q].depth < High(trueSize) && Agree(q, trueSize, t[q].depth)
    requires !Side(trueSize, t[q].depth) && t[q].Kid(true) != 0
    ensures t[q].Kid(true) in t && trueSize < t[q].Kid(true)
  {
    ChildProps(t, roots, q, true);
    AgreeOrder(trueSize, t[q].Kid(true), t[q].depth);
  }

  /** What the first search loop needs to know when it goes on past node q. */
  lemma SearchStep(l: Lists, trueSize: nat, q: nat)
    requires Shape(l.trie, l.roots) && q in l.trie && 0 < q && 0 < trueSize < WORD && q != trueSize
    requires Agree(q, trueSize, l.trie[q].depth) && (trueSize in l.trie ==> Under(l.trie, l.roots, q, trueSize))
    ensures l.trie[q].depth < High(trueSize) == High(q) < NUM_BUCKETS
    ensures var right := Shl64(trueSize, 64 - High(trueSize) + l.trie[q].depth) >= HALF;
            var c := l.trie[q].Kid(right);
            && (trueSize in l.trie ==> c in l.trie && Under(l.trie, l.roots, c, trueSize))
            && (c == 0 ==> trueSize !in l.trie)
            && (c != 0 ==> c in l.trie && 0 < c && l.trie[c].depth == l.trie[q].depth + 1)
            && (c != 0 ==> Agree(c, trueSize, l.trie[c].depth))
            && (!right && l.trie[q].Kid(true) != 0 ==> l.trie[q].Kid(true) in l.trie && trueSize < l.trie[q].Kid(true))
            && (q < trueSize && Covered(l.trie, l.roots, trueSize, High(trueSize), q) && (right || l.trie[q].Kid(true) == 0) ==>
                  if c == 0 then NoneFits(l.trie, trueSize, High(trueSize)) else Covered(l.trie, l.roots, trueSize, High(trueSize), c))
  {
    WalkDown(l, q, trueSize);
    if q < trueSize { CoveredStep(l.trie, l.roots, trueSize, High(trueSize), q); }
    if !Side(trueSize, l.trie[q].depth) && l.trie[q].Kid(true) != 0 {
      RightIsLarger(l.trie, l.roots, trueSize, q);
    }
  }

  /** The first search loop is at node q, whose tree member is p. */
  ghost predicate OnPath(k: Lists, trueSize: nat, index: nat, p: int, q: nat, m: nat, best: int, bestSize: nat, rst: int, r: nat) {
    && 0 < trueSize < WORD && index == High(trueSize) < NUM_BUCKETS && Shape(k.trie, k.roots)
    && q in k.trie && 0 < q && q in k.head && p == k.head[q] && k.trie[q].depth <= index
    && Agree(q, trueSize, k.trie[q].depth)
    && m == Shl64(trueSize, 64 - index + k.trie[q].depth)
    && (trueSize in k.trie ==> Under(k.trie, k.roots, q, trueSize))
    && Candidate(k, trueSize, best, bestSize)
    && (rst != 0 ==> r in k.trie && r in k.head && rst == k.head[r] && trueSize < r)
    && (best == 0 && rst == 0 ==> Covered(k.trie, k.roots, trueSize, index, q))
  }

  lemma PathStart(k: Lists, trueSize: nat, index: nat)
    requires ListsOk(k) && 0 < trueSize < WORD && index == High(trueSize) < NUM_BUCKETS && k.roots[index] != 0
    ensures var q := k.roots[index];
            q in k.head && OnPath(k, trueSize, index, k.head[q], q, Shl64(trueSize, 64 - index), 0, WORD - 1, 0, 0)
  {
    WalkStart(k, trueSize);
    CoveredRoot(k.trie, k.roots, trueSize);
    assert NodeOk(k, k.roots[index]);
  }

  /** One turn of the first search loop at a node of another size. */
  lemma PathGoesOn(words: Mem, k: Lists, trueSize: nat, index: nat, p: int, q: nat, m: nat, best: int, bestSize: nat, rst: int, r: nat)
    requires Stored(words, k) && Separate(k) && ListsOk(k) && WordSizes(k)
    requires OnPath(k, trueSize, index, p, q, m, best, bestSize, rst, r)
    ensures Holds(words, p, q) && p + 40 in words && p + 48 in words
    ensures q != trueSize ==>
              var right, better := m >= HALF, q >= trueSize && q < bestSize;
              var best', bestSize' := if better then p else best, if better then q else bestSize;
              var pass := !right && words[p + 48] != 0;
              var rst', r' := if pass then words[p + 48] else rst, if pass then k.trie[q].Kid(true) else r;
              var p', q' := if right then words[p + 48] else words[p + 40], k.trie[q].Kid(right);
              && (p' != 0 ==> OnPath(k, trueSize, index, p', q', 2 * m % WORD, best', bestSize', rst', r') && k.trie[q'].depth > k.trie[q].depth)
              && (p' == 0 ==> PathEnd(k, trueSize, index, best', bestSize', rst', r'))
  {
    NodeWords(words, k, q);
    if q != trueSize {
      SizeOfHead(k, q);
      PathStep(k, trueSize, index, p, q, m, best, bestSize, rst, r);
    }
  }

  /** The same turn, in terms of the trie. */
  lemma PathStep(k: Lists, trueSize: nat, index: nat, p: int, q: nat, m: nat, best: int, bestSize: nat, rst: int, r: nat)
    requires IndexOk(k, {}) && q != trueSize && q < WORD - 1
    requires OnPath(k, trueSize, index, p, q, m, best, bestSize, rst, r)
    ensures var right, better := m >= HALF, q >= trueSize && q < bestSize;
            var best', bestSize' := if better then p else best, if better then q else bestSize;
            var pass := !right && k.trie[q].kid1 != 0;
            var rst', r' := if pass then HeadOf(k, k.trie[q].kid1) else rst, if pass then k.trie[q].kid1 else r;
            var q' := k.trie[q].Kid(right);
            && (q' != 0 ==> OnPath(k, trueSize, index, HeadOf(k, q'), q', 2 * m % WORD, best', bestSize', rst', r') && k.trie[q'].depth > k.trie[q].depth)
            && (q' == 0 ==> PathEnd(k, trueSize, index, best', bestSize', rst', r'))
  {
    SearchStep(k, trueSize, q);
    assert NodeOk(k, q);
    if k.trie[q].kid0 != 0 { KidNode(k, q, false); }
    if k.trie[q].kid1 != 0 { KidNode(k, q, true); }
  }

  lemma KidNode(k: Lists, q: nat, side: bool)
    requires IndexOk(k, {}) && q in k.trie && k.trie[q].Kid(side) != 0
    ensures k.trie[q].Kid(side) in k.trie && k.trie[q].Kid(side) in k.head && HeadOf(k, k.trie[q].Kid(side)) != 0
  {
    assert DownLinked(k.trie, q);
    assert NodeOk(k, k.trie[q].Kid(side));
  }

  /** The first search loop ended without an exact match. */
  ghost predicate PathEnd(k: Lists, trueSize: nat, index: nat, best: int, bestSize: nat, rst: int, r: nat) {
    && trueSize !in k.trie && Candidate(k, trueSize, best, bestSize)
    && (rst != 0 ==> r in k.trie && r in k.head && rst == k.head[r] && trueSize < r)
    && (best == 0 && rst == 0 ==> NoneFits(k.trie, trueSize, index))
  }

  lemma NoneHigher(l: Lists, trueSize: nat, small: nat, large: nat)
    requires ListsOk(l) && BitmapsOk(l, small, large) && 0 < trueSize && High(trueSize) < NUM_BUCKETS
    requires NoneFits(l.trie, trueSize, High(trueSize)) && Shr(large, High(trueSize) + 1) == 0
    ensures forall s :: s in l.trie ==> s < trueSize
  {
    NoneAbove(l, High(trueSize), small, large);
    OnlySmaller(l.trie, trueSize, High(trueSize));
  }

  lemma NoneAbove(l: Lists, h: nat, small: nat, large: nat)
    requires ListsOk(l) && BitmapsOk(l, small, large) && Shr(large, h + 1) == 0
    ensures forall s {:trigger s in l.trie} :: s in l.trie ==> 0 < s && High(s) <= h
  {
    forall s {:trigger s in l.trie} | s in l.trie ensures 0 < s && High(s) <= h {
      ListedBelow(l, s, h + 1, small, large);
    }
  }

  lemma OnlySmaller(t: Trie, trueSize: nat, h: nat)
    requires (forall s {:trigger s in t} :: s in t ==> 0 < s && High(s) <= h) && 0 < trueSize && h == High(trueSize) && NoneFits(t, trueSize, h)
    ensures forall s :: s in t ==> s < trueSize
  {
    forall s | s in t ensures s < trueSize {
      if High(s) < h {
        HighMonotone(s, trueSize);
      } else {
        assert !FitsIn(t, trueSize, h, s);
      }
    }
  }

  /** A listed size lies below the buckets the large bitmap has no bit for. */
  lemma ListedBelow(l: Lists, s: nat, i: nat, small: nat, large: nat)
    requires ListsOk(l) && BitmapsOk(l, small, large) && Shr(large, i) == 0 && s in l.trie
    ensures 0 < s && High(s) < i
  {
    assert BitsOk(l.trie, s);
    UnderRoot(l.trie, l.roots, s);
    assert LargeBitOk(l, large, High(s));
    ShrZeroIff(large, i);
  }

  /** Nothing listed is large enough when every size that would be lies in an empty bucket. */
  lemma NothingFits(l: Lists, trueSize: nat)
    requires Shape(l.trie, l.roots) && 0 < trueSize
    requires forall s :: s in l.trie && s > 0 && s >= trueSize ==> High(s) < High(trueSize)
    ensures forall s :: s in l.trie ==> s < trueSize
  {
    forall s | s in l.trie ensures s < trueSize {
      assert BitsOk(l.trie, s);
      if s >= trueSize { HighMonotone(s, trueSize); }
    }
  }

  lemma SizeOfHead(l: Lists, q: nat)
    requires IndexOk(l, {}) && WordSizes(l) && Separate(l) && q in l.trie
    ensures q < WORD - 1
  {
    assert NodeOk(l, q) && Aligned(l, l.head[q]);
  }

  lemma RootBucket(l: Lists, i: nat)
    requires Shape(l.trie, l.roots) && i < NUM_BUCKETS && l.roots[i] != 0
    ensures l.roots[i] in l.trie && High(l.roots[i]) == i && l.trie[l.roots[i]].depth == 0
  {
    assert RootLinked(l.trie, l.roots, i) && BitsOk(l.trie, l.roots[i]);
  }

  /** Nothing in the bitmap from some bucket on means nothing listed there. */
  lemma ShiftedBitmap(l: Lists, trueSize: nat, i: nat, small: nat, large: nat)
    requires ListsOk(l) && BitmapsOk(l, small, large) && 0 < trueSize
    requires i <= NUM_BUCKETS && (i == High(trueSize) || i == High(trueSize) + 1)
    ensures Shr(large, i) == 0 ==> forall s :: s in l.trie && s > 0 && High(s) >= i ==> false
    ensures i < NUM_BUCKETS ==> (Shr(large, i) % 2 == 1 <==> l.roots[i] != 0)
    ensures trueSize in l.trie ==> High(trueSize) < NUM_BUCKETS && l.roots[High(trueSize)] != 0
  {
    ShrZeroIff(large, i);
    forall s | s in l.trie && s > 0 && High(s) >= i ensures Shr(large, i) != 0 {
      UnderRoot(l.trie, l.roots, s);
      assert LargeBitOk(l, large, High(s));
      assert l.roots[High(s)] != 0;
    }
    if i < NUM_BUCKETS { assert LargeBitOk(l, large, i); }
    if trueSize in l.trie { UnderRoot(l.trie, l.roots, trueSize); }
  }

  lemma LowestBucket(l: Lists, i: nat, small: nat, large: nat)
    requires BitmapsOk(l, small, large) && i <= NUM_BUCKETS && Shr(large, i) > 0
    ensures Shr(large, i) < WORD && i + Low(Shr(large, i)) < NUM_BUCKETS && l.roots[i + Low(Shr(large, i))] != 0
  {
    var x := Shr(large, i);
    ShrBound(large, i);
    LowSpec(x);
    BitOfShr(large, i, Low(x));
    Pow2Values();
    ShrZeroIff(large, NUM_BUCKETS);
    ShrSmall(large, NUM_BUCKETS);
    assert LargeBitOk(l, large, i + Low(x));
  }

  /** No bit of a word is set at or above 64. */
  lemma NoHighBits(x: nat)
    requires x < WORD
    ensures forall j :: j >= NUM_BUCKETS ==> !Bit(x, j)
  {
    Pow2Values();
    ShrSmall(x, NUM_BUCKETS);
    ShrZeroIff(x, NUM_BUCKETS);
  }

  lemma SmallShift(l: Lists, i: nat, small: nat, large: nat)
    requires BitmapsOk(l, small, large) && i < NUM_BUCKETS
    ensures Shr(small, i) == 0 <==> forall j :: i <= j < NUM_BUCKETS ==> !Bit(small, j)
  {
    NoHighBits(small);
    ShrZeroIff(small, i);
  }

  lemma LowestSmall(small: nat, i: nat)
    requires small < WORD && i < NUM_BUCKETS && Shr(small, i) > 0
    ensures Shr(small, i) < WORD && i + Low(Shr(small, i)) < NUM_BUCKETS && Bit(small, i + Low(Shr(small, i)))
  {
    NoHighBits(small);
    ShrBound(small, i);
    LowSpec(Shr(small, i));
    BitOfShr(small, i, Low(Shr(small, i)));
  }

  /** The block before the sentinel of a bucket whose bit is set. */
  lemma LastOfBucket(l: Lists, i: nat, small: nat, large: nat)
    requires ListsOk(l) && BitmapsOk(l, small, large) && i < NUM_BUCKETS && Bit(small, i)
    ensures var s := SmallSentinel(l.base, i);
            s in l.prev && l.prev[s] in l.size && l.size[l.prev[s]] == BucketSize(i) && l.prev[s] != 0
  {
    assert SmallBitOk(l, small, i) && RingOk(l, SmallRing(i));
    var r, s := l.rings[SmallRing(i)], SmallSentinel(l.base, i);
    NeighboursInRing(l.prev, l.next, r, s);
    assert l.prev[s] != s && InRing(l, SmallRing(i), l.prev[s]);
    assert HomeOk(l, l.prev[s]);
  }

  /** Stepping back through the rest ring from position j; position |r| stands for the sentinel. */
  lemma RestWalk(l: Lists, j: nat)
    requires ListsOk(l) && j <= |l.rings[RestRing]| && j != 0
    ensures var r := l.rings[RestRing];
            var x := if j == |r| then RestSentinel(l.base) else r[j];
            && r != [] && r[0] == RestSentinel(l.base) && x in l.prev && l.prev[x] == r[j - 1]
            && (j < |r| ==> x in l.size && x in l.home && l.home[x] == RestRing && x != 0 && x != RestSentinel(l.base))
  {
    var r := l.rings[RestRing];
    assert RingOk(l, RestRing);
    var x := if j == |r| then RestSentinel(l.base) else r[j];
    NeighboursInRing(l.prev, l.next, r, x);
    assert Position(r, x) == if j == |r| then 0 else j;
    if j < |r| {
      assert InRing(l, RestRing, x);
      assert r[0] != r[j];
    }
  }

  /** What the search knows after the blocks behind position j. */
  ghost predicate RestBest(l: Lists, r: seq<int>, j: int, trueSize: nat, best: int, bestSize: nat) {
    && (best == 0 ==> bestSize == WORD - 1)
    && (best != 0 ==> best in l.size && best in l.home && l.home[best] == RestRing && l.size[best] == bestSize > trueSize)
    && forall i {:trigger r[i]} :: 0 <= j < i < |r| && r[i] in l.size ==> l.size[r[i]] < trueSize || bestSize <= l.size[r[i]]
  }

  lemma RestExact(l: Lists, p: int, trueSize: nat)
    requires ListsOk(l) && p in l.size && p in l.home && l.home[p] == RestRing && l.size[p] == trueSize
    ensures forall x :: x in l.size && x in l.home && l.home[x] == RestRing && l.size[x] >= trueSize ==> l.size[p] <= l.size[x]
  {
  }

  lemma RestAll(l: Lists, j: int, trueSize: nat, best: int, bestSize: nat)
    requires ListsOk(l) && WordSizes(l) && Separate(l) && 0 <= j < |l.rings[RestRing]| && l.rings[RestRing][j] == RestSentinel(l.base)
    requires RestBest(l, l.rings[RestRing], j, trueSize, best, bestSize) && 0 < trueSize < WORD
    ensures best != 0 ==> forall x :: x in l.size && x in l.home && l.home[x] == RestRing && l.size[x] >= trueSize ==> l.size[best] <= l.size[x]
    ensures best == 0 ==> forall x :: x in l.size && x in l.home && l.home[x] == RestRing ==> l.size[x] < trueSize
  {
    var r := l.rings[RestRing];
    assert RingOk(l, RestRing);
    assert j == 0;
    forall x | x in l.size && x in l.home && l.home[x] == RestRing ensures l.size[x] < trueSize || bestSize <= l.size[x] < WORD - 1 {
      assert HomeOk(l, x) && Aligned(l, x);
      var i := Position(r, x);
      assert r[i] == x && i != 0;
    }
  }

  // ---------- the empty index ----------

  ghost predicate AreaMapped(m: Mem, base: int) { forall a :: base <= a < base + AREA && a % 8 == 0 ==> a in m }

  lemma AreaKeys(m: Mem, base: int)
    requires base % 8 == 0 && AreaMapped(m, base)
    ensures base + 1536 in m && base + 1544 in m
  {
  }

  lemma NextBucketEmpty(start: Mem, m: Mem, base: int, i: nat)
    requires base % 8 == 0 && AreaMapped(start, base) && m.Keys == start.Keys && i < NUM_BUCKETS
    requires forall j {:trigger BucketEmpty(m, base, j)} :: 0 <= j < i ==> BucketEmpty(m, base, j)
    ensures var p := SmallSentinel(base, i);
            var n := m[p + 24 := p][p + 16 := p][base + 1024 + 8 * i := 0];
            && n.Keys == start.Keys
            && forall j {:trigger BucketEmpty(n, base, j)} :: 0 <= j <= i ==> BucketEmpty(n, base, j)
  {
    var p := SmallSentinel(base, i);
    var n := m[p + 24 := p][p + 16 := p][base + 1024 + 8 * i := 0];
    forall j {:trigger BucketEmpty(n, base, j)} | 0 <= j <= i ensures BucketEmpty(n, base, j) {
      assert j < i ==> BucketEmpty(m, base, j);
    }
  }

  /** Bucket j is an empty ring and large bucket j is NULL. */
  ghost predicate BucketEmpty(m: Mem, base: int, j: nat) {
    var s := SmallSentinel(base, j);
    Holds(m, s + 16, s) && Holds(m, s + 24, s) && Holds(m, base + 1024 + 8 * j, 0)
  }

  ghost function EmptyLists(base: int): Lists {
    var self := map x | base - 16 <= x <= base + 1520 && Sentinel(base, x) :: x;
    Lists(base, map[], map[], self, self,
          (map i: nat | i < NUM_BUCKETS :: SmallRing(i) := [SmallSentinel(base, i)])[RestRing := [RestSentinel(base)]],
          map[], map i: nat | i < NUM_BUCKETS :: Root(i) := 0, map[], seq(NUM_BUCKETS, i => 0), map[])
  }

  lemma EmptyStored(m: Mem, n: Mem, base: int)
    requires base > 0 && base % 8 == 0
    requires forall j {:trigger BucketEmpty(m, base, j)} :: 0 <= j < NUM_BUCKETS ==> BucketEmpty(m, base, j)
    requires n == m[base + 1536 := RestSentinel(base)][base + 1544 := RestSentinel(base)]
    ensures Stored(n, EmptyLists(base)) && Separate(EmptyLists(base))
  {
    var l := EmptyLists(base);
    forall x {:trigger PrevAt(n, l, x)} {:trigger NextAt(n, l, x)} ensures PrevAt(n, l, x) && NextAt(n, l, x) {
      EmptyLinks(m, n, base, x);
    }
    forall a {:trigger SlotAt(n, l, a)} ensures SlotAt(n, l, a) {
      if a in l.slot {
        assert BucketEmpty(m, base, a.i);
      }
    }
    forall x {:trigger TagAt(n, l, x)} ensures TagAt(n, l, x) {
    }
  }

  lemma EmptyLinks(m: Mem, n: Mem, base: int, x: int)
    requires base > 0 && base % 8 == 0
    requires forall j {:trigger BucketEmpty(m, base, j)} :: 0 <= j < NUM_BUCKETS ==> BucketEmpty(m, base, j)
    requires n == m[base + 1536 := RestSentinel(base)][base + 1544 := RestSentinel(base)]
    ensures PrevAt(n, EmptyLists(base), x) && NextAt(n, EmptyLists(base), x)
  {
    if Sentinel(base, x) && x != RestSentinel(base) {
      var j := (x - base + 16) / 16;
      assert x == SmallSentinel(base, j);
      assert j < NUM_BUCKETS ==> BucketEmpty(m, base, j);
    }
  }

  lemma EmptySound(base: int)
    ensures Sound(EmptyLists(base), 0, 0)
  {
    var l := EmptyLists(base);
    forall p {:trigger RingOk(l, p)} | p in l.rings ensures RingOk(l, p) {
      assert l.rings[p] == [SentinelOf(base, p)];
    }
    forall i {:trigger RootOk(l, i)} {:trigger SmallBitOk(l, 0, i)} {:trigger LargeBitOk(l, 0, i)} {:trigger RootLinked(l.trie, l.roots, i)} | 0 <= i < NUM_BUCKETS
      ensures RootOk(l, i) && SmallBitOk(l, 0, i) && LargeBitOk(l, 0, i) && RootLinked(l.trie, l.roots, i)
    {
      BitOfZero(i);
      assert Root(i) in l.slot;
    }
  }
}
