/**
 The part of the heap structure that indexes the free blocks: bucket arrays, bitmaps and link words.
 */
module FreeIndex {
  import opened Bits
  import opened Rings
  import opened Tries
  import opened FreeLists
  import opened ListOps
  import opened Memory
  import opened IndexSteps

  class Index {
    const buckets: int             // address of free_buckets[0]
    var mem: Mem
    var freeBitmap: nat
    var largeFreeBitmap: nat
    ghost var l: Lists

    /** zend_mm_init, on a heap structure whose bucket arrays start at `base` and hold anything. */
    constructor (base: int, start: Mem)
      requires base > 0 && base % 8 == 0 && AreaMapped(start, base)
      ensures Sealed() && buckets == base && mem.Keys == start.Keys && l.size == map[]
      ensures freeBitmap == 0 && largeFreeBitmap == 0
    {
      var words := EmptyBuckets(start, base);
      EmptySound(base);
      buckets := base;
      mem := words;
      freeBitmap := 0;
      largeFreeBitmap := 0;
      l := EmptyLists(base);
    }

    /** The writes of zend_mm_init to the bucket arrays. */
    static method EmptyBuckets(start: Mem, base: int) returns (words: Mem)
      requires base > 0 && base % 8 == 0 && AreaMapped(start, base)
      ensures words.Keys == start.Keys && Stored(words, EmptyLists(base)) && Separate(EmptyLists(base))
    {
      words := start;
      var p := SmallSentinel(base, 0);
      for i := 0 to NUM_BUCKETS
        invariant words.Keys == start.Keys && p == SmallSentinel(base, i)
        invariant forall j {:trigger BucketEmpty(words, base, j)} :: 0 <= j < i ==> BucketEmpty(words, base, j)
      {
        NextBucketEmpty(start, words, base, i);
        words := words[p + 24 := p];
        words := words[p + 16 := p];
        words := words[base + 1024 + 8 * i := 0];
        p := p + 16;
      }
      EmptyStored(words, words[base + 1536 := RestSentinel(base)][base + 1544 := RestSentinel(base)], base);
      AreaKeys(start, base);
      words := words[base + 1536 := RestSentinel(base)];
      words := words[base + 1544 := RestSentinel(base)];
    }

    /** The address of large_free_buckets[i]. */
    function LargeBucket(i: nat): int { buckets + 1024 + 8 * i }

    ghost predicate Links()
      reads `mem, `l
    {
      l.base == buckets && Stored(mem, l) && Separate(l)
    }

    /** The free-block index is well formed and is what memory says. */
    ghost predicate Indexed()
      reads `mem, `l, `freeBitmap, `largeFreeBitmap
    {
      Links() && Sound(l, freeBitmap, largeFreeBitmap)
    }

    /** What was written since any earlier memory is still only link words. */
    ghost predicate Extends(m: Mem, n: Mem)
      reads `l
    {
      forall m0: Mem {:trigger OnlyLinks(m0, m, buckets, l.size)} ::
        OnlyLinks(m0, m, buckets, l.size) ==> OnlyLinks(m0, n, buckets, l.size)
    }

    lemma Wrote(m: Mem, n: Mem)
      requires OnlyLinks(m, n, buckets, l.size)
      ensures Extends(m, n)
    {
      forall m0: Mem {:trigger OnlyLinks(m0, m, buckets, l.size)} | OnlyLinks(m0, m, buckets, l.size)
        ensures OnlyLinks(m0, n, buckets, l.size)
      {
        OnlyLinksTrans(m0, m, n, buckets, l.size);
      }
    }

    // ---------- bitmaps ----------

    method MarkSmall(i: nat)
      modifies `freeBitmap
      ensures freeBitmap == SetBit(old(freeBitmap), i)
      ensures mem == old(mem) && l == old(l) && largeFreeBitmap == old(largeFreeBitmap)
    {
      freeBitmap := SetBit(freeBitmap, i);
    }

    method UnmarkSmall(i: nat)
      modifies `freeBitmap
      ensures freeBitmap == ClearBit(old(freeBitmap), i)
      ensures mem == old(mem) && l == old(l) && largeFreeBitmap == old(largeFreeBitmap)
    {
      freeBitmap := ClearBit(freeBitmap, i);
    }

    method MarkLarge(i: nat)
      modifies `largeFreeBitmap
      ensures largeFreeBitmap == SetBit(old(largeFreeBitmap), i)
      ensures mem == old(mem) && l == old(l) && freeBitmap == old(freeBitmap)
    {
      largeFreeBitmap := SetBit(largeFreeBitmap, i);
    }

    method UnmarkLarge(i: nat)
      modifies `largeFreeBitmap
      ensures largeFreeBitmap == ClearBit(old(largeFreeBitmap), i)
      ensures mem == old(mem) && l == old(l) && freeBitmap == old(freeBitmap)
    {
      largeFreeBitmap := ClearBit(largeFreeBitmap, i);
    }

    // ---------- link fields ----------

    method SetNext(x: int, v: int)
      requires Links() && RingNode(l, x) && x + 24 in mem
      modifies `mem, `l
      ensures freeBitmap == old(freeBitmap) && largeFreeBitmap == old(largeFreeBitmap)
      ensures mem == old(mem)[x + 24 := v] && l == old(l).(next := old(l.next)[x := v])
      ensures Links() && Extends(old(mem), mem)
    {
      WriteNext(mem, l, x, v);
      Wrote(mem, mem[x + 24 := v]);
      mem := mem[x + 24 := v];
      l := l.(next := l.next[x := v]);
    }

    method SetPrev(x: int, v: int)
      requires Links() && RingNode(l, x) && x + 16 in mem
      modifies `mem, `l
      ensures freeBitmap == old(freeBitmap) && largeFreeBitmap == old(largeFreeBitmap)
      ensures mem == old(mem)[x + 16 := v] && l == old(l).(prev := old(l.prev)[x := v])
      ensures Links() && Extends(old(mem), mem)
    {
      WritePrev(mem, l, x, v);
      Wrote(mem, mem[x + 16 := v]);
      mem := mem[x + 16 := v];
      l := l.(prev := l.prev[x := v]);
    }

    method SetParent(x: int, v: int, ghost s: Slot)
      requires Links() && LargeBlock(l, x) && x + 32 in mem && v == SlotAddress(buckets, s)
      modifies `mem, `l
      ensures freeBitmap == old(freeBitmap) && largeFreeBitmap == old(largeFreeBitmap)
      ensures mem == old(mem)[x + 32 := v] && l == old(l).(parent := old(l.parent)[x := s])
      ensures Links() && Extends(old(mem), mem)
    {
      WriteParent(mem, l, x, s);
      Wrote(mem, mem[x + 32 := v]);
      mem := mem[x + 32 := v];
      l := l.(parent := l.parent[x := s]);
    }

    method SetSlot(a: int, v: int, ghost s: Slot)
      requires Links() && a == SlotAddress(buckets, s) && SlotPlace(l, s) && a in mem
      modifies `mem, `l
      ensures freeBitmap == old(freeBitmap) && largeFreeBitmap == old(largeFreeBitmap)
      ensures mem == old(mem)[a := v] && l == old(l).(slot := old(l.slot)[s := v])
      ensures Links() && Extends(old(mem), mem)
    {
      WriteSlot(mem, l, s, v);
      Wrote(mem, mem[a := v]);
      mem := mem[a := v];
      l := l.(slot := l.slot[s := v]);
    }

    /** Links block b into ring p after node a. */
    method LinkAfter(a: int, b: int, ghost p: Place)
      requires Links() && b in l.size && b + 16 in mem && b + 24 in mem
      requires p in l.rings && a in l.rings[p] && CanLinkAfter(l, a, b)
      modifies `mem, `l
      ensures freeBitmap == old(freeBitmap) && largeFreeBitmap == old(largeFreeBitmap)
      ensures a in old(l.next) && l == LinkIn(old(l), p, a, b)
      ensures Links() && Extends(old(mem), mem)
    {
      ghost var l0 := l;
      assert NextAt(mem, l, a) && PrevAt(mem, l, l.next[a]) && RingNode(l, a) && RingNode(l, l.next[a]);
      var next := mem[a + 24];
      SetPrev(b, a);
      SetNext(b, next);
      SetPrev(next, b);
      SetNext(a, b);
      ghost var l1 := l;
      l := LinkIn(l0, p, a, b);
      LinksSame(mem, l1, l);
    }

    /** Takes block b, whose tag says it is free, into the view; its links are not set yet. */
    ghost method Take(b: int)
      requires Links() && b in mem && Fits(mem, l, b, mem[b])
      modifies `l
      ensures freeBitmap == old(freeBitmap) && largeFreeBitmap == old(largeFreeBitmap)
      ensures Links() && b !in old(l.size) && !Sentinel(buckets, b) && b != 0
      ensures 0 <= mem[b] && l == Known(old(l), b, mem[b])
    {
      Adopt(mem, l, b, mem[b]);
      l := l.(size := l.size[b := mem[b]]);
    }

    /** Child fields of a block outside the tries hold whatever they held before. */
    ghost method TrackChildren(b: int)
      requires Links() && LargeBlock(l, b) && b + 40 in mem && b + 48 in mem
      modifies `l
      ensures freeBitmap == old(freeBitmap) && largeFreeBitmap == old(largeFreeBitmap)
      ensures Links()
      ensures l == old(l).(slot := old(l.slot)[Child(b, true) := mem[b + 48]][Child(b, false) := mem[b + 40]])
    {
      WriteSlot(mem, l, Child(b, true), mem[b + 48]);
      assert mem[b + 48 := mem[b + 48]] == mem;
      l := l.(slot := l.slot[Child(b, true) := mem[b + 48]]);
      WriteSlot(mem, l, Child(b, false), mem[b + 40]);
      assert mem[b + 40 := mem[b + 40]] == mem;
      l := l.(slot := l.slot[Child(b, false) := mem[b + 40]]);
    }

    // ---------- zend_mm_add_to_rest_list ----------

    /** The first lines of zend_mm_add_to_rest_list: a large block gets a NULL parent. */
    method RestFields(b: int)
      requires Links() && b in mem && Fits(mem, l, b, mem[b])
      modifies `mem, `l
      ensures freeBitmap == old(freeBitmap) && largeFreeBitmap == old(largeFreeBitmap)
      ensures Links() && OnlyLinks(old(mem), mem, buckets, l.size)
      ensures RestTracked(old(l), l, b, old(mem[b])) && b + 16 in mem && b + 24 in mem
      ensures b !in old(l.size) && !Sentinel(buckets, b) && b != 0
    {
      var size := mem[b];
      Take(b);
      OnlyLinksRefl(mem, buckets, l.size);
      if !SmallSize(size) {
        SetParent(b, 0, Nowhere);
        // The child fields keep whatever the block held.
        TrackChildren(b);
      }
    }

    method AddToRestList(b: int)
      requires Indexed() && b in mem && Fits(mem, l, b, mem[b])
      modifies `mem, `l
      ensures freeBitmap == old(freeBitmap) && largeFreeBitmap == old(largeFreeBitmap)
      ensures Indexed() && OnlyLinks(old(mem), mem, buckets, l.size)
      ensures 0 <= old(mem[b]) && l.size == old(l.size)[b := old(mem[b])]
      ensures l.home == old(l.home)[b := RestRing]
      ensures RestRing in old(l.rings) && l.rings == old(l.rings)[RestRing := old(l.rings[RestRing]) + [b]]
    {
      ghost var l0 := l;
      var size := mem[b];
      RestFields(b);
      ghost var l1 := l;
      RestIsReady(l0, l1, b, size);
      assert PrevAt(mem, l, RestSentinel(buckets));
      var prev := mem[buckets + 1536];
      LinkAfter(prev, b, RestRing);
      RestListed(l0, l1, b, size);
      BitmapsKept(l0, l, freeBitmap, largeFreeBitmap);
    }

    // ---------- zend_mm_add_to_free_list ----------

    /** A small block goes to the front of the bucket of its size. */
    method AddSmall(b: int)
      requires Indexed() && b in mem && Fits(mem, l, b, mem[b]) && SmallSize(mem[b])
      modifies `mem, `l, `freeBitmap
      ensures largeFreeBitmap == old(largeFreeBitmap)
      ensures Indexed() && OnlyLinks(old(mem), mem, buckets, l.size)
      ensures SmallAdded(old(l), l, b, old(mem[b]))
    {
      ghost var l0 := l;
      var size := mem[b];
      var index := BucketIndex(size);
      var prev := SmallSentinel(buckets, index);
      Take(b);
      OnlyLinksRefl(mem, buckets, l.size);
      SmallFront(l0, index, b);
      assert PrevAt(mem, l, prev);
      if mem[prev + 16] == prev {
        MarkSmall(index);
      }
      LinkAfter(prev, b, SmallRing(index));
      AddSmallBlock(l0, SmallRing(index), prev, b, size);
      SmallBitSet(l0, l, old(freeBitmap), freeBitmap, largeFreeBitmap, index, b);
    }

    /**
     The walk of zend_mm_add_to_free_list down the trie of one bucket: it ends at the slot of the
     tree member of this size, or at the empty slot where a member of this size belongs.
     */
    method Walk(size: nat, index: nat) returns (p: int, found: bool, ghost q: nat)
      requires Links() && ListsOk(l) && 0 < size < WORD && index == High(size) < NUM_BUCKETS && l.roots[index] != 0
      ensures q in l.trie && q in l.head && 0 < q
      ensures found <==> size in l.trie
      ensures found ==> q == size && p == SlotAddress(buckets, SlotOf(l, size)) && p in mem && mem[p] == l.head[size]
      ensures !found ==>
                && Agree(q, size, l.trie[q].depth) && l.trie[q].depth < index
                && l.trie[q].Kid(Side(size, l.trie[q].depth)) == 0
                && p == SlotAddress(buckets, Child(l.head[q], Side(size, l.trie[q].depth)))
    {
      var words := mem;
      ghost var k := l;
      p := LargeBucket(index);
      q := k.roots[index];
      WalkStart(k, size);
      var m := Shl64(size, 64 - index);
      while true
        invariant q in k.trie && 0 < q && k.trie[q].depth <= index
        invariant p == SlotAddress(k.base, SlotOf(k, q))
        invariant Agree(q, size, k.trie[q].depth)
        invariant m == Shl64(size, 64 - index + k.trie[q].depth)
        invariant size in k.trie ==> Under(k.trie, k.roots, q, size)
        decreases index - k.trie[q].depth
      {
        NodeWords(words, k, q);
        var prev := words[p];
        if words[prev] == size {
          return p, true, q;
        }
        WalkDown(k, q, size);
        var right := m >= HALF;
        p := if right then prev + 48 else prev + 40;
        if words[p] == 0 {
          return p, false, q;
        }
        q := k.trie[q].Kid(right);
        m := 2 * m % WORD;
      }
    }

    /** Block b becomes the tree member in the empty slot s at address p, alone in its ring. */
    method Hang(b: int, p: int, ghost s: Slot)
      requires Links() && LargeBlock(l, b) && b + 16 in mem && b + 24 in mem && b + 32 in mem
      requires p == SlotAddress(buckets, s) && SlotPlace(l, s) && p in mem
      modifies `mem, `l
      ensures freeBitmap == old(freeBitmap) && largeFreeBitmap == old(largeFreeBitmap)
      ensures l == NewRing(old(l).(slot := old(l).slot[s := b], parent := old(l).parent[b := s]), b, old(l).size[b])
      ensures Links() && Extends(old(mem), mem)
    {
      SetSlot(p, b, s);
      SetParent(b, p, s);
      SetNext(b, b);
      SetPrev(b, b);
      ghost var l1 := l;
      l := l.(home := l.home[b := LargeRing(l.size[b])], rings := l.rings[LargeRing(l.size[b]) := [b]]);
      LinksSame(mem, l1, l);
    }

    /** Takes a large block into the view and clears its child fields. */
    method TakeLarge(b: int)
      requires Links() && b in mem && Fits(mem, l, b, mem[b]) && !SmallSize(mem[b])
      modifies `mem, `l
      ensures freeBitmap == old(freeBitmap) && largeFreeBitmap == old(largeFreeBitmap)
      ensures Links() && OnlyLinks(old(mem), mem, buckets, l.size)
      ensures mem.Keys == old(mem.Keys) && mem[b] == old(mem[b]) >= 0
      ensures l == Childless(old(l), b, mem[b])
      ensures b !in old(l.size) && !Sentinel(buckets, b) && b != 0
    {
      Take(b);
      OnlyLinksRefl(mem, buckets, l.size);
      SetSlot(b + 48, 0, Child(b, true));
      SetSlot(b + 40, 0, Child(b, false));
    }

    /** A large block of a size not yet listed: a new root or a new leaf. */
    method AddNewLarge(b: int, p: int, ghost l0: Lists, ghost place: Slot, ghost k: Lists)
      requires Links() && b in mem && mem[b] >= 0 && l == Childless(l0, b, mem[b]) && LargeBlock(l, b)
      requires b + 16 in mem && b + 24 in mem && b + 32 in mem
      requires p == SlotAddress(buckets, place) && SlotPlace(l, place) && p in mem
      requires Placed(k, l0, b, mem[b], place)
      modifies `mem, `l
      ensures freeBitmap == old(freeBitmap) && largeFreeBitmap == old(largeFreeBitmap)
      ensures l == k && Links() && Extends(old(mem), mem)
    {
      Hang(b, p, place);
      LinksSame(mem, l, k);
      l := k;
    }

    /** The first block of its bucket. */
    method AddFirst(b: int, p: int, index: nat)
      requires Indexed() && b in mem && Fits(mem, l, b, mem[b]) && !SmallSize(mem[b])
      requires index == High(mem[b]) < NUM_BUCKETS && p == LargeBucket(index) && p in mem && l.roots[index] == 0
      modifies `mem, `l, `largeFreeBitmap
      ensures freeBitmap == old(freeBitmap)
      ensures Indexed() && OnlyLinks(old(mem), mem, buckets, l.size) && LargeAdded(old(l), l, b, old(mem[b]))
    {
      ghost var l0 := l;
      ghost var size := mem[b];
      TakeLarge(b);
      FirstDone(l0, b, size, index, freeBitmap, largeFreeBitmap);
      FirstEffect(l0, b, size, index);
      ghost var k := PutAtRoot(Loose(l0, b, size, Root(index)), b, size, index);
      AddNewLarge(b, p, l0, Root(index), k);
      MarkLarge(index);
    }

    /** A block of a size for which the walk found no member. */
    method AddLeaf(b: int, p: int, ghost q: nat)
      requires Indexed() && b in mem && Fits(mem, l, b, mem[b]) && !SmallSize(mem[b]) && mem[b] !in l.trie
      requires q in l.trie && q in l.head && 0 < q && Agree(q, mem[b], l.trie[q].depth) && l.trie[q].depth < High(mem[b])
      requires l.trie[q].Kid(Side(mem[b], l.trie[q].depth)) == 0
      requires p == SlotAddress(buckets, Child(l.head[q], Side(mem[b], l.trie[q].depth)))
      modifies `mem, `l
      ensures freeBitmap == old(freeBitmap) && largeFreeBitmap == old(largeFreeBitmap)
      ensures Indexed() && OnlyLinks(old(mem), mem, buckets, l.size) && LargeAdded(old(l), l, b, old(mem[b]))
    {
      ghost var l0 := l;
      ghost var size := mem[b];
      ghost var side := Side(size, l.trie[q].depth);
      ghost var place := Child(l.head[q], side);
      NodeWords(mem, l, q);
      assert NodeOk(l, q);
      TakeLarge(b);
      ghost var k := PutBelow(Loose(l0, b, size, place), b, size, q, side);
      LeafDone(l0, b, size, q, side, k, freeBitmap, largeFreeBitmap);
      LeafEffect(l0, b, size, q, side, k);
      AddNewLarge(b, p, l0, place, k);
    }

    /** A block of a size that is listed already: it joins that ring behind the tree member. */
    method Join(b: int, p: int)
      requires Indexed() && b in mem && Fits(mem, l, b, mem[b]) && !SmallSize(mem[b]) && mem[b] in l.trie
      requires p in mem && mem[p] == HeadOf(l, mem[b])
      modifies `mem, `l
      ensures freeBitmap == old(freeBitmap) && largeFreeBitmap == old(largeFreeBitmap)
      ensures Indexed() && OnlyLinks(old(mem), mem, buckets, l.size) && LargeAdded(old(l), l, b, old(mem[b]))
    {
      ghost var l0 := l;
      ghost var size := mem[b];
      var prev := mem[p];
      TakeLarge(b);
      SetParent(b, 0, Nowhere);
      JoinReady(l0, b, size);
      JoinDone(l0, b, size, freeBitmap, largeFreeBitmap);
      LinkAfter(prev, b, LargeRing(size));
    }

    method AddLarge(b: int)
      requires Indexed() && b in mem && Fits(mem, l, b, mem[b]) && !SmallSize(mem[b])
      modifies `mem, `l, `largeFreeBitmap
      ensures freeBitmap == old(freeBitmap)
      ensures Indexed() && OnlyLinks(old(mem), mem, buckets, l.size) && LargeAdded(old(l), l, b, old(mem[b]))
    {
      var size := mem[b];
      var index := HighBit(size);
      Pow2Values();
      HighBound(size, 64);
      assert RootOk(l, index) && SlotAt(mem, l, Root(index));
      RootsNonNull(l, index);
      var p := LargeBucket(index);
      if mem[p] == 0 {
        AddFirst(b, p, index);
      } else {
        var found;
        ghost var q;
        p, found, q := Walk(size, index);
        if found {
          Join(b, p);
        } else {
          AddLeaf(b, p, q);
        }
      }
    }

    method AddToFreeList(b: int)
      requires Indexed() && b in mem && Fits(mem, l, b, mem[b])
      modifies `mem, `l, `freeBitmap, `largeFreeBitmap
      ensures Indexed() && OnlyLinks(old(mem), mem, buckets, l.size)
      ensures 0 <= old(mem[b]) && l.size == old(l.size)[b := old(mem[b])]
      ensures !SmallSize(old(mem[b])) ==> LargeAdded(old(l), l, b, old(mem[b]))
      ensures SmallSize(old(mem[b])) ==> SmallAdded(old(l), l, b, old(mem[b]))
    {
      if !SmallSize(mem[b]) {
        AddLarge(b);
      } else {
        AddSmall(b);
      }
    }

    // ---------- zend_mm_remove_from_free_list ----------

    /** Block b is out of the index: the view no longer tracks its words. */
    ghost method Drop(b: int, k: Lists)
      requires Links() && b in l.size && DropsOnly(l, k, b)
      modifies `l
      ensures freeBitmap == old(freeBitmap) && largeFreeBitmap == old(largeFreeBitmap)
      ensures Links() && l == k
    {
      Release(mem, l, k, b);
      l := k;
    }

    /** Joins the ring neighbours of b. */
    method UnlinkFromRing(b: int) returns (prev: int, next: int)
      requires Links() && ListsOk(l) && b in l.size
      modifies `mem, `l
      ensures freeBitmap == old(freeBitmap) && largeFreeBitmap == old(largeFreeBitmap)
      ensures b in old(l.prev) && b in old(l.next) && prev == old(l.prev[b]) && next == old(l.next[b])
      ensures l == Spliced(old(l), b)
      ensures Links() && Extends(old(mem), mem)
    {
      Neighbours(l, b);
      assert PrevAt(mem, l, b) && NextAt(mem, l, b);
      prev := mem[b + 16];
      next := mem[b + 24];
      assert NextAt(mem, l, prev) && PrevAt(mem, l, next) && RingNode(l, prev) && RingNode(l, next);
      SetNext(prev, next);
      SetPrev(next, prev);
    }

    /** The child of b on one side becomes the child of h on that side. */
    method MoveChild(b: int, h: int, side: bool)
      requires Links() && LargeBlock(l, h) && h != b && HasLinks(l, b) && HasLinks(l, h) && ChildKnown(l, b, side)
      modifies `mem, `l
      ensures freeBitmap == old(freeBitmap) && largeFreeBitmap == old(largeFreeBitmap)
      ensures l == ChildMoved(old(l), b, h, side)
      ensures Links() && Extends(old(mem), mem)
      ensures HasLinks(l, b) && HasLinks(l, h) && (ChildKnown(old(l), b, !side) ==> ChildKnown(l, b, !side))
    {
      var from, to := if side then b + 48 else b + 40, if side then h + 48 else h + 40;
      assert SlotAt(mem, l, Child(b, side)) && SlotAt(mem, l, Child(h, side));
      SetSlot(to, mem[from], Child(h, side));
      assert SlotAt(mem, l, Child(h, side));
      if mem[to] != 0 {
        assert ParentAt(mem, l, mem[to]);
        SetParent(mem[to], to, Child(h, side));
      }
    }

    /** Block h takes over the slot of b. */
    method MoveSlot(b: int, h: int)
      requires Links() && LargeBlock(l, h) && CanMove(l, b, h)
      modifies `mem, `l
      ensures freeBitmap == old(freeBitmap) && largeFreeBitmap == old(largeFreeBitmap)
      ensures l == old(l).(slot := old(l).slot[old(l).parent[b] := h], parent := old(l).parent[h := old(l).parent[b]])
      ensures Links() && Extends(old(mem), mem)
    {
      ghost var place := l.parent[b];
      assert ParentAt(mem, l, b) && SlotAt(mem, l, place) && SlotPlace(l, place);
      assert mem[mem[b + 32]] == b;   // the tree check of the source holds
      SetSlot(mem[b + 32], h, place);
      assert ParentAt(mem, l, b) && ParentAt(mem, l, h);
      SetParent(h, mem[b + 32], place);
    }

    /** The block at subst_block: h takes over the slot and the children of b. */
    method MoveTo(b: int, h: int)
      requires Links() && LargeBlock(l, h) && CanMove(l, b, h) && ChildKnown(l, b, false) && ChildKnown(l, b, true)
      modifies `mem, `l
      ensures freeBitmap == old(freeBitmap) && largeFreeBitmap == old(largeFreeBitmap)
      ensures l == old(l).(slot := MovedSlots(old(l), b, h), parent := MovedParents(old(l), b, h))
      ensures Links() && Extends(old(mem), mem)
    {
      ghost var l0 := l;
      MoveSlot(b, h);
      ghost var l1 := l;
      SlotMoved(l0, l1, b, h);
      MoveChild(b, h, false);
      MoveChild(b, h, true);
      ChildrenMoved(l0, l1, b, h);
    }

    /** A small block, in its bucket or in the rest list. */
    method RemoveSmall(b: int)
      requires Indexed() && b in l.size && SmallSize(l.size[b])
      modifies `mem, `l, `freeBitmap
      ensures largeFreeBitmap == old(largeFreeBitmap)
      ensures Indexed() && OnlyLinks(old(mem), mem, buckets, old(l.size)) && Delisted(old(l), l, b)
      ensures SmallHome(old(l), b) && freeBitmap == SmallBitmapAfter(old(l), b, old(freeBitmap))
    {
      ghost var l0 := l;
      assert Aligned(l, b) && TagAt(mem, l, b);
      SmallRemoved(l0, b);
      SmallSound(l0, b, freeBitmap, largeFreeBitmap);
      OnlyLinksRefl(mem, buckets, l.size);
      var index := BucketIndex(mem[b]);
      var prev, next := UnlinkFromRing(b);
      Drop(b, Unlisted(l0, b));
      if prev == next {
        var s := SmallSentinel(buckets, index);
        assert PrevAt(mem, l, s) && NextAt(mem, l, s);
        if mem[buckets + 16 * index] == mem[buckets + 16 * index + 8] {
          UnmarkSmall(index);
        }
      }
    }

    /** A large block that is no tree member. */
    method RemoveOther(b: int)
      requires Indexed() && b in l.size && !SmallSize(l.size[b]) && HeadOf(l, l.size[b]) != b
      modifies `mem, `l
      ensures freeBitmap == old(freeBitmap) && largeFreeBitmap == old(largeFreeBitmap)
      ensures Indexed() && OnlyLinks(old(mem), mem, buckets, old(l.size)) && Delisted(old(l), l, b)
    {
      ghost var l0 := l;
      OtherRemoved(l0, b, freeBitmap, largeFreeBitmap);
      OnlyLinksRefl(mem, buckets, l.size);
      var prev, next := UnlinkFromRing(b);
      Drop(b, Unlisted(l0, b));
    }

    /** A tree member with others of its size: its ring neighbour takes its place. */
    method RemoveHead(b: int)
      requires Indexed() && b in l.size && !SmallSize(l.size[b]) && HeadOf(l, l.size[b]) == b
      requires b in l.prev && l.prev[b] != b
      modifies `mem, `l
      ensures freeBitmap == old(freeBitmap) && largeFreeBitmap == old(largeFreeBitmap)
      ensures Indexed() && OnlyLinks(old(mem), mem, buckets, old(l.size)) && Delisted(old(l), l, b)
    {
      ghost var k := HeadPlan(l, b, l.prev[b], freeBitmap, largeFreeBitmap);
      OnlyLinksRefl(mem, buckets, l.size);
      var prev, next := UnlinkFromRing(b);
      MoveTo(b, prev);
      Drop(b, k);
    }

    /** The only block of its size, in a leaf of its trie. */
    method RemoveLeafMember(b: int)
      requires Indexed() && b in l.size && !SmallSize(l.size[b]) && HeadOf(l, l.size[b]) == b && b in l.prev && l.prev[b] == b
      requires l.size[b] in l.trie && l.trie[l.size[b]].IsLeaf()
      modifies `mem, `l, `largeFreeBitmap
      ensures freeBitmap == old(freeBitmap)
      ensures Indexed() && OnlyLinks(old(mem), mem, buckets, old(l.size)) && Delisted(old(l), l, b)
    {
      OnlyLinksRefl(mem, buckets, l.size);
      assert TagAt(mem, l, b);
      var index := HighBit(mem[b]);
      ghost var k := LeafPlan(mem, l, b, freeBitmap, largeFreeBitmap);
      assert ParentAt(mem, l, b);
      var slot := mem[b + 32];
      SetSlot(slot, 0, l.parent[b]);
      Drop(b, k);
      if slot == LargeBucket(index) {
        UnmarkLarge(index);
      }
    }

    /** The descent to a leaf below the tree member b, and the address of the slot that holds the leaf. */
    method LeafBelow(b: int) returns (rp: int, prev: int, ghost q: nat)
      requires Indexed() && b in l.size && HeadOf(l, l.size[b]) == b && !SmallSize(l.size[b])
      requires l.size[b] in l.trie && !l.trie[l.size[b]].IsLeaf()
      ensures q in l.trie && l.trie[q].IsLeaf() && q in l.head && 0 < q && q != l.size[b]
      ensures Agree(l.size[b], q, l.trie[l.size[b]].depth)
      ensures rp == SlotAddress(buckets, SlotOf(l, q)) && prev == l.head[q] && rp in mem && mem[rp] == prev
    {
      ghost var s := l.size[b];
      NodeWords(mem, l, s);
      assert l.head[s] == b;
      q := l.trie[s].Kid(l.trie[s].kid1 != 0);
      FirstDescent(l, s, l.trie[s].kid1 != 0);
      rp := if mem[b + 48] != 0 then b + 48 else b + 40;
      NodeWords(mem, l, q);
      prev := mem[rp];
      var cp := if mem[prev + 48] != 0 then prev + 48 else prev + 40;
      while mem[cp] != 0
        invariant q in l.trie && 0 < q && q in l.head && prev == l.head[q] && rp == SlotAddress(buckets, SlotOf(l, q))
        invariant Below(l.trie, s, q)
        invariant prev + 48 in mem && cp == (if mem[prev + 48] != 0 then prev + 48 else prev + 40) && cp in mem
        decreases High(s) - l.trie[q].depth
      {
        NodeWords(mem, l, q);
        NextDescent(l, s, q, l.trie[q].kid1 != 0);
        q := l.trie[q].Kid(l.trie[q].kid1 != 0);
        NodeWords(mem, l, q);
        prev := mem[cp];
        rp := cp;
        cp := if mem[prev + 48] != 0 then prev + 48 else prev + 40;
      }
      NodeWords(mem, l, q);
    }

    /** The only block of its size, in an inner node of its trie: a leaf below takes its place. */
    method RemoveInner(b: int)
      requires Indexed() && b in l.size && !SmallSize(l.size[b]) && HeadOf(l, l.size[b]) == b && b in l.prev && l.prev[b] == b
      requires l.size[b] in l.trie && !l.trie[l.size[b]].IsLeaf()
      modifies `mem, `l
      ensures Indexed() && OnlyLinks(old(mem), mem, buckets, old(l.size)) && Delisted(old(l), l, b)
      ensures freeBitmap == old(freeBitmap) && largeFreeBitmap == old(largeFreeBitmap)
    {
      OnlyLinksRefl(mem, buckets, l.size);
      var rp, prev;
      ghost var q;
      rp, prev, q := LeafBelow(b);
      ghost var k := InnerPlan(l, b, q, freeBitmap, largeFreeBitmap);
      SetSlot(rp, 0, SlotOf(l, q));
      MoveTo(b, prev);
      Drop(b, k);
    }

    method RemoveFromFreeList(b: int)
      requires Indexed() && b in l.size
      modifies `mem, `l, `freeBitmap, `largeFreeBitmap
      ensures Indexed() && OnlyLinks(old(mem), mem, buckets, old(l.size)) && Delisted(old(l), l, b)
    {
      Neighbours(l, b);
      assert TagAt(mem, l, b) && PrevAt(mem, l, b) && Aligned(l, b);
      CaseOfBlock(l, b);
      if mem[b + 16] == b {
        ghost var s := l.size[b];
        NodeWords(mem, l, s);
        if mem[if mem[b + 48] != 0 then b + 48 else b + 40] == 0 {
          RemoveLeafMember(b);
        } else {
          RemoveInner(b);
        }
      } else if SmallSize(mem[b]) {
        RemoveSmall(b);
      } else {
        assert ParentAt(mem, l, b);
        NullParent(l, b);
        if mem[b + 32] != 0 {
          RemoveHead(b);
        } else {
          RemoveOther(b);
        }
      }
    }

    // ---------- zend_mm_search_large_block ----------

    /** The next block in the ring of the tree member for q; it has the same size. */
    method RingNext(p: int, ghost q: nat) returns (block: int)
      requires Indexed() && q in l.trie && q in l.head && p == l.head[q]
      ensures block in l.size && l.size[block] == q && block != 0
    {
      NextOfHead(l, q);
      assert NextAt(mem, l, p);
      block := mem[p + 24];
    }

    /**
     The first loop of the search: the way the bits of trueSize lead through its own bucket.  It
     reports an exact match; otherwise the best block met, and the last right-hand subtree passed by.
     */
    method SearchPath(trueSize: nat, index: nat) returns (exact: int, best: int, bestSize: nat, rst: int, ghost r: nat)
      requires Indexed() && 0 < trueSize < WORD && index == High(trueSize) < NUM_BUCKETS && l.roots[index] != 0
      ensures exact != 0 ==> exact in l.size && l.size[exact] == trueSize && trueSize in l.trie
      ensures exact == 0 ==> trueSize !in l.trie
      ensures exact == 0 ==> Candidate(l, trueSize, best, bestSize)
      ensures exact == 0 ==> (rst != 0 ==> r in l.trie && r in l.head && rst == l.head[r] && trueSize < r)
      ensures exact == 0 && best == 0 && rst == 0 ==> NoneFits(l.trie, trueSize, index)
    {
      exact, best, bestSize, rst, r := 0, 0, WORD - 1, 0, 0;
      ReadRoot(index);
      var words := mem;
      ghost var k := l;
      var p := words[LargeBucket(index)];
      ghost var q := k.roots[index];
      var m: nat := Shl64(trueSize, 64 - index);
      PathStart(k, trueSize, index);
      while true
        invariant OnPath(k, trueSize, index, p, q, m, best, bestSize, rst, r)
        decreases index - k.trie[q].depth
      {
        NodeWords(words, k, q);
        PathGoesOn(words, k, trueSize, index, p, q, m, best, bestSize, rst, r);
        if words[p] == trueSize {
          break;
        } else if words[p] >= trueSize && words[p] < bestSize {
          bestSize := words[p];
          best := p;
        }
        var right := m >= HALF;
        if !right && words[p + 48] != 0 {
          rst := words[p + 48];
          r := k.trie[q].Kid(true);
        }
        p := if right then words[p + 48] else words[p + 40];
        if p == 0 {
          return;
        }
        q := k.trie[q].Kid(right);
        m := 2 * m % WORD;
      }
      exact := RingNext(p, q);
    }

    lemma ReadRoot(i: nat)
      requires Links() && IndexOk(l, {}) && i < NUM_BUCKETS
      ensures LargeBucket(i) in mem && mem[LargeBucket(i)] == HeadOf(l, l.roots[i])
      ensures l.roots[i] != 0 ==> l.roots[i] in l.trie && l.roots[i] in l.head && mem[LargeBucket(i)] == l.head[l.roots[i]] != 0
    {
      assert RootOk(l, i) && SlotAt(mem, l, Root(i)) && RootLinked(l.trie, l.roots, i);
      assert l.roots[i] != 0 ==> NodeOk(l, l.roots[i]);
    }

    /** The second loop: down the last right-hand subtree passed by. */
    method SearchRight(trueSize: nat, rst: int, best0: int, bestSize0: nat, ghost r: nat) returns (exact: int, best: int)
      requires Indexed() && Candidate(l, trueSize, best0, bestSize0)
      requires rst != 0 ==> r in l.trie && r in l.head && rst == l.head[r] && trueSize < r
      ensures exact != 0 ==> exact in l.size && l.size[exact] == trueSize && trueSize in l.trie
      ensures exact == 0 ==> exists bestSize :: Candidate(l, trueSize, best, bestSize)
      ensures exact == 0 && best == 0 ==> rst == 0 && best0 == 0
    {
      exact, best := 0, best0;
      var bestSize: nat := bestSize0;
      var p := rst;
      ghost var q := r;
      assert rst != 0 ==> BitsOk(l.trie, r);
      while p != 0
        invariant p != 0 ==> q in l.trie && 0 < q && q in l.head && p == l.head[q]
        invariant Candidate(l, trueSize, best, bestSize)
        invariant best == 0 && rst != 0 ==> p == rst && q == r
        invariant best0 != 0 ==> best != 0
        invariant p != 0 ==> l.trie[q].depth <= High(q)
        decreases if p == 0 then 0 else 1 + High(q) - l.trie[q].depth
      {
        NodeWords(mem, l, q);
        SizeOfHead(l, q);
        if mem[p] == trueSize {
          exact := RingNext(p, q);
          return;
        } else if mem[p] > trueSize && mem[p] < bestSize {
          bestSize := mem[p];
          best := p;
        }
        p := if mem[p + 40] != 0 then mem[p + 48] else mem[p + 40];
        if p != 0 {
          ChildProps(l.trie, l.roots, q, true);
          q := l.trie[q].Kid(true);
          NodeWords(mem, l, q);
        }
      }
    }

    /** The third loop: a small block of a bucket whose blocks all fit. */
    method SearchSmallest(index: nat) returns (block: int)
      requires Indexed() && index < NUM_BUCKETS && l.roots[index] != 0
      ensures block in l.size && block != 0 && l.size[block] in l.trie && l.size[block] > 0 && High(l.size[block]) == index
    {
      ReadRoot(index);
      var best := mem[LargeBucket(index)];
      ghost var b, q := l.roots[index], l.roots[index];
      RootBucket(l, index);
      NodeWords(mem, l, q);
      var p := if mem[best + 40] != 0 then mem[best + 48] else mem[best + 40];
      if p != 0 {
        ChildProps(l.trie, l.roots, q, true);
        q := l.trie[q].Kid(true);
        NodeWords(mem, l, q);
      }
      while p != 0
        invariant b in l.trie && 0 < b && b in l.head && best == l.head[b] && High(b) == index
        invariant p != 0 ==> q in l.trie && 0 < q && q in l.head && p == l.head[q] && High(q) == index && l.trie[q].depth <= index
        decreases if p == 0 then 0 else 1 + index - l.trie[q].depth
      {
        NodeWords(mem, l, q);
        NodeWords(mem, l, b);
        if mem[p] < mem[best] {
          best := p;
          b := q;
        }
        p := if mem[p + 40] != 0 then mem[p + 48] else mem[p + 40];
        if p != 0 {
          ChildProps(l.trie, l.roots, q, true);
          q := l.trie[q].Kid(true);
          NodeWords(mem, l, q);
        }
      }
      block := RingNext(best, b);
    }

    /** The search in the bucket of trueSize itself. */
    method SearchOwnBucket(trueSize: nat, index: nat) returns (block: int)
      requires Indexed() && 0 < trueSize < WORD && index == High(trueSize) < NUM_BUCKETS && l.roots[index] != 0
      ensures block != 0 ==> block in l.size && l.size[block] >= trueSize && l.size[block] in l.trie
      ensures block == 0 ==> NoneFits(l.trie, trueSize, index)
      ensures trueSize in l.trie ==> block in l.size && l.size[block] == trueSize && block != 0
    {
      var exact, best, bestSize, rst;
      ghost var r;
      exact, best, bestSize, rst, r := SearchPath(trueSize, index);
      if exact != 0 {
        return exact;
      }
      exact, best := SearchRight(trueSize, rst, best, bestSize, r);
      if exact != 0 {
        return exact;
      }
      if best != 0 {
        ghost var b: nat :| Candidate(l, trueSize, best, b);
        block := RingNext(best, b);
        return;
      }
      return 0;
    }

    method SearchLargeBlock(trueSize: nat) returns (block: int)
      requires Indexed() && 0 < trueSize < WORD
      ensures block != 0 ==> block in l.size && l.size[block] >= trueSize && l.size[block] in l.trie
      ensures block == 0 ==> forall s :: s in l.trie ==> s < trueSize
      ensures trueSize in l.trie ==> block in l.size && l.size[block] == trueSize && block != 0
    {
      var index := HighBit(trueSize);
      Pow2Values();
      HighBound(trueSize, 64);
      var bitmap := Shr(largeFreeBitmap, index);
      ShiftedBitmap(l, trueSize, index, freeBitmap, largeFreeBitmap);
      if bitmap == 0 {
        NothingFits(l, trueSize);
        return 0;
      }
      if bitmap % 2 != 0 {
        block := SearchOwnBucket(trueSize, index);
        if block != 0 {
          return;
        }
        bitmap := bitmap / 2;
        ShrStep(largeFreeBitmap, index);
        index := index + 1;
        if bitmap == 0 {
          NoneHigher(l, trueSize, freeBitmap, largeFreeBitmap);
          return 0;
        }
      }
      block := SearchHigher(trueSize, index, bitmap);
    }

    /** The search in the lowest bucket whose sizes are all large enough. */
    method SearchHigher(trueSize: nat, index: nat, bitmap: nat) returns (block: int)
      requires Indexed() && 0 < trueSize < WORD && index <= NUM_BUCKETS && bitmap == Shr(largeFreeBitmap, index) > 0
      requires index == High(trueSize) + 1 || (index == High(trueSize) && bitmap % 2 == 0)
      ensures block in l.size && block != 0 && l.size[block] > trueSize && l.size[block] in l.trie
    {
      LowestBucket(l, index, freeBitmap, largeFreeBitmap);
      var low := LowBit(bitmap);
      assert bitmap % 2 == 0 ==> low > 0;
      block := SearchSmallest(index + low);
      HighMonotone(trueSize, l.size[block]);
    }

    // ---------- the searches for small blocks ----------

    /** The small path of _zend_mm_alloc_int: the smallest bucket from `start` on whose bit is set. */
    method SearchSmall(start: nat) returns (block: int)
      requires Indexed() && start < NUM_BUCKETS
      ensures block != 0 ==> block in l.size && l.size[block] >= BucketSize(start) && SmallSize(l.size[block])
      ensures block == 0 <==> forall i :: start <= i < NUM_BUCKETS ==> !Bit(freeBitmap, i)
    {
      var bitmap := Shr(freeBitmap, start);
      SmallShift(l, start, freeBitmap, largeFreeBitmap);
      if bitmap == 0 {
        return 0;
      }
      LowestSmall(freeBitmap, start);
      var low := LowBit(bitmap);
      var i := start + low;
      LastOfBucket(l, i, freeBitmap, largeFreeBitmap);
      assert PrevAt(mem, l, SmallSentinel(buckets, i));
      block := mem[buckets + 16 * i];
    }

    /** The search of the rest list, from its newest block on: the best fit, or NULL if nothing fits. */
    method SearchRest(trueSize: nat) returns (block: int)
      requires Indexed() && 0 < trueSize < WORD
      ensures block != 0 ==> block in l.home && l.home[block] == RestRing && block in l.size && l.size[block] >= trueSize
      ensures block != 0 ==> forall x :: x in l.size && x in l.home && l.home[x] == RestRing && l.size[x] >= trueSize ==> l.size[block] <= l.size[x]
      ensures block == 0 ==> forall x :: x in l.size && x in l.home && l.home[x] == RestRing ==> l.size[x] < trueSize
    {
      var words := mem;
      ghost var k := l;
      ghost var r := k.rings[RestRing];
      var sentinel := RestSentinel(buckets);
      assert RingOk(k, RestRing);
      RestWalk(k, |r|);
      assert PrevAt(words, k, sentinel);
      var p := words[buckets + 1536];
      ghost var j := |r| - 1;
      var best := 0;
      var bestSize: nat := WORD - 1;
      while p != sentinel
        invariant 0 <= j < |r| && p == r[j]
        invariant RestBest(k, r, j, trueSize, best, bestSize)
        decreases j
      {
        RestWalk(k, j);
        assert TagAt(words, k, p) && PrevAt(words, k, p) && Aligned(k, p);
        if words[p] == trueSize {
          RestExact(k, p, trueSize);
          return p;
        } else if words[p] > trueSize && words[p] < bestSize {
          bestSize := words[p];
          best := p;
        }
        p := words[p + 16];
        j := j - 1;
      }
      RestAll(k, j, trueSize, best, bestSize);
      block := best;
    }

    // ---------- the operations, for use by the heap ----------

    /** `Indexed`, behind a quantifier so that the verifier does not look inside where it is only passed on. */
    ghost predicate Sealed()
      reads `mem, `l, `freeBitmap, `largeFreeBitmap
    {
      l.base == buckets && forall k {:trigger Lock(k)} :: Lock(k) ==> Indexed()
    }

    method Remove(b: int)
      requires Sealed() && b in l.size
      modifies `mem, `l, `freeBitmap, `largeFreeBitmap
      ensures Sealed() && OnlyLinks(old(mem), mem, buckets, old(l).size) && l.size == old(l).size - {b}
    {
      assert Lock(0);
      RemoveFromFreeList(b);
    }

    method Add(b: int)
      requires Sealed() && b in mem && Fits(mem, l, b, mem[b])
      modifies `mem, `l, `freeBitmap, `largeFreeBitmap
      ensures Sealed() && OnlyLinks(old(mem), mem, buckets, l.size)
      ensures 0 <= old(mem)[b] && l.size == old(l).size[b := old(mem)[b]]
      ensures b in l.home && !l.home[b].RestRing?
    {
      assert Lock(0);
      AddToFreeList(b);
    }

    method AddRest(b: int)
      requires Sealed() && b in mem && Fits(mem, l, b, mem[b])
      modifies `mem, `l
      ensures Sealed() && OnlyLinks(old(mem), mem, buckets, l.size)
      ensures 0 <= old(mem)[b] && l.size == old(l).size[b := old(mem)[b]]
      ensures b in l.home && l.home[b].RestRing?
    {
      assert Lock(0);
      AddToRestList(b);
    }

    /** Memory changed only in a region without link words. */
    method Remap(n: Mem, ghost lo: int, ghost len: nat)
      requires Sealed() && Clear(l, lo, len) && KeptBeyond(mem, n, lo, len)
      modifies `mem
      ensures Sealed() && mem == n && l == old(l)
    {
      assert Lock(0);
      StoredFrame(mem, n, l, lo, len);
      mem := n;
    }

    method FindSmall(start: nat) returns (block: int)
      requires Sealed() && start < NUM_BUCKETS
      ensures block != 0 ==> block in l.size && l.size[block] >= BucketSize(start)
    {
      assert Lock(0);
      block := SearchSmall(start);
    }

    method FindLarge(trueSize: nat) returns (block: int)
      requires Sealed() && 0 < trueSize < WORD
      ensures block != 0 ==> block in l.size && l.size[block] >= trueSize
      ensures block == 0 ==> forall x :: x in l.size && x in l.home && l.home[x].LargeRing? ==> l.size[x] < trueSize
      ensures (exists x :: x in l.size && x in l.home && l.home[x].LargeRing? && l.size[x] == trueSize) ==> block != 0 && l.size[block] == trueSize
    {
      assert Lock(0);
      block := SearchLargeBlock(trueSize);
      forall x | x in l.size && x in l.home && l.home[x].LargeRing? ensures l.size[x] in l.trie {
        assert HomeOk(l, x);
      }
    }

    method FindRest(trueSize: nat) returns (block: int)
      requires Sealed() && 0 < trueSize < WORD
      ensures block != 0 ==> block in l.home && l.home[block] == RestRing && block in l.size && l.size[block] >= trueSize
      ensures block != 0 ==> forall x :: x in l.size && x in l.home && l.home[x] == RestRing && l.size[x] >= trueSize ==> l.size[block] <= l.size[x]
      ensures block == 0 ==> forall x :: x in l.size && x in l.home && l.home[x] == RestRing ==> l.size[x] < trueSize
    {
      assert Lock(0);
      block := SearchRest(trueSize);
    }
  }
}
