/** What the heap invariant means: tiling, disjointness, boundary tags, membership and conservation. */
module HeapLaws {
  import opened Bits
  import opened Rings
  import opened Tries
  import opened FreeLists
  import opened ListOps
  import opened Memory
  import opened Blocks
  import opened Sums
  import opened HeapView
  import opened HeapSteps
  import opened IndexSteps
  import opened FreeIndex
  import opened HeapBooks
  import opened ZendHeap

  // ---------- layout ----------

  /** Different allocations share no byte, and each lies between the header and the guard of one segment. */
  lemma PayloadsDisjoint(v: View, x: int, y: int)
    requires Core(v) && x in Allocated(v.blocks) && y in Allocated(v.blocks) && x != y
    ensures Apart(x, Allocated(v.blocks)[x], y, Allocated(v.blocks)[y])
    ensures exists g :: g in v.segs && g + SEGMENT_HEADER <= x && x + Allocated(v.blocks)[x] <= g + v.segs[g] - HEADER
    ensures Apart(x, Allocated(v.blocks)[x], v.base, AREA)
  {
    assert Key(0);
    assert BlocksApart(v.blocks, x, y);
    Inside(v.blocks, v.segs, v.base, x);
    NextBlock(v.blocks, v.segs, v.base, y);
    assert BlockOk(v.blocks, v.segs, x);
    assert v.blocks[x].seg in v.segs;
  }

  /** Every address between the header and the end of a segment belongs to exactly one block. */
  lemma TiledSegment(v: View, g: int, a: int)
    requires Core(v) && g in v.segs && g + SEGMENT_HEADER <= a < g + v.segs[g]
    ensures exists b :: b in v.blocks && Covers(v.blocks, b, a)
    ensures forall b, c :: b in v.blocks && c in v.blocks && Covers(v.blocks, b, a) && Covers(v.blocks, c, a) ==> b == c
  {
    assert Key(0);
    Partition(v.blocks, v.segs, v.base, g, a);
  }

  /** The size tag of a block is repeated as the second tag of the next, and no two neighbours are free. */
  lemma BoundaryTags(v: View, b: int)
    requires Core(v) && v.stale == 0 && b in v.blocks && v.blocks[b].kind != Guard
    ensures var next := b + v.blocks[b].size;
            && next in v.blocks && b in v.mem && next + 8 in v.mem && v.mem[next + 8] == v.mem[b]
            && !(v.blocks[b].kind == Free && v.blocks[next].kind == Free)
  {
    assert Key(0);
    Next(v, b);
    ReadTag(v, b);
    Predecessor(v, b);
    assert TagsAt(v.mem, v.blocks, 0, b + v.blocks[b].size);
  }

  // ---------- the free blocks and the index ----------

  /** Each free block is in exactly one list, and that is the ring of its size or the rest list. */
  lemma FreeListedOnce(h: Heap, b: int) returns (p: Place)
    requires h.Seen() && Core(h.v) && b in h.v.blocks && h.v.blocks[b].kind == Free
    ensures p in h.index.l.rings && b in h.index.l.rings[p]
    ensures forall q :: q in h.index.l.rings && b in h.index.l.rings[q] ==> q == p
    ensures var s := h.v.blocks[b].size;
            p == RestRing || (SmallSize(s) && p.SmallRing? && p.i == BucketIndex(s)) || (!SmallSize(s) && p == LargeRing(s))
  {
    assert Key(0) && Lock(0);
    var l := h.index.l;
    assert b in FreeBlocks(h.v.blocks);
    assert HomeOk(l, b);
    p := l.home[b];
    forall q | q in l.rings && b in l.rings[q] ensures q == p {
      RingsDisjoint(l, p, q, b);
    }
    if p.SmallRing? { BucketBijection(l.size[b], p.i); }
  }

  /** And every block in a list is a free block of the tiling, of the listed size. */
  lemma ListedIsFree(h: Heap, p: Place, b: int)
    requires h.Seen() && Core(h.v) && p in h.index.l.rings && b in h.index.l.rings[p]
    ensures IsSentinel(h.index.l.base, p, b) || (b in h.v.blocks && h.v.blocks[b].kind == Free)
  {
    assert Key(0) && Lock(0);
    var l := h.index.l;
    assert RingOk(l, p);
    assert InRing(l, p, b);
    if !IsSentinel(l.base, p, b) {
      assert b in l.home && b in l.size;
      assert b in FreeBlocks(h.v.blocks);
    }
  }

  // ---------- conservation ----------

  /** The sizes of the blocks of segment g from b on, without the guard. */
  ghost function From(bl: Blocks, g: int, b: int): Sizes {
    map x | x in bl && bl[x].seg == g && x >= b && bl[x].kind != Guard :: bl[x].size
  }

  lemma {:induction false} SegmentSum(v: View, b: int)
    requires Core(v) && b in v.blocks && v.blocks[b].seg in v.segs
    ensures Sum(From(v.blocks, v.blocks[b].seg, b)) == v.blocks[b].seg + v.segs[v.blocks[b].seg] - HEADER - b
    decreases v.blocks[b].seg + v.segs[v.blocks[b].seg] - b
  {
    assert Key(0);
    var g := v.blocks[b].seg;
    assert BlockOk(v.blocks, v.segs, b);
    if v.blocks[b].kind == Guard {
      forall x | x in v.blocks && v.blocks[x].seg == g && x >= b ensures x == b {
        assert x != b ==> BlocksApart(v.blocks, x, b);
        Inside(v.blocks, v.segs, v.base, x);
      }
      assert From(v.blocks, g, b) == map[];
    } else {
      var next := b + v.blocks[b].size;
      SegmentSum(v, next);
      forall x | x in v.blocks && x > b ensures x >= next {
        assert BlocksApart(v.blocks, x, b);
        Inside(v.blocks, v.segs, v.base, x);
      }
      assert From(v.blocks, g, b) == From(v.blocks, g, next)[b := v.blocks[b].size];
      SumSet(From(v.blocks, g, next), b, v.blocks[b].size);
    }
  }

  /** The sizes of the blocks of some segments, without the guards. */
  ghost function Within(bl: Blocks, segs: set<int>): Sizes {
    map x | x in bl && bl[x].seg in segs && bl[x].kind != Guard :: bl[x].size
  }

  /** Sums over disjoint maps add up. */
  lemma {:induction false} SumUnion(m: Sizes, n: Sizes)
    requires m.Keys !! n.Keys
    ensures Sum(m + n) == Sum(m) + Sum(n)
    decreases m.Keys
  {
    if m.Keys == {} {
      assert m + n == n;
    } else {
      Inhabited(m.Keys);
      var k :| k in m.Keys;
      SumUnion(m - {k}, n);
      SumWithout(m, k);
      SumWithout(m + n, k);
      assert m + n - {k} == m - {k} + n;
    }
  }

  ghost function Sized(segs: Segments, some: set<int>): Sizes { map g | g in segs && g in some :: segs[g] }

  lemma {:induction false} SegmentsSum(v: View, some: set<int>)
    requires Core(v) && some <= v.segs.Keys
    ensures Sum(Within(v.blocks, some)) + 32 * |some| == Sum(Sized(v.segs, some))
  {
    if some == {} {
      assert Within(v.blocks, some) == map[];
      assert Sized(v.segs, some) == map[];
    } else {
      Inhabited(some);
      var g :| g in some;
      SegmentsSum(v, some - {g});
      OneMore(v, some, g);
      SumWithout(Sized(v.segs, some), g);
      OneSegment(v, g);
      SumUnion(Within(v.blocks, some - {g}), From(v.blocks, g, g + SEGMENT_HEADER));
    }
  }

  /** The blocks of one more segment. */
  lemma OneMore(v: View, some: set<int>, g: int)
    requires Core(v) && some <= v.segs.Keys && g in some
    ensures Within(v.blocks, some) == Within(v.blocks, some - {g}) + From(v.blocks, g, g + SEGMENT_HEADER)
    ensures Within(v.blocks, some - {g}).Keys !! From(v.blocks, g, g + SEGMENT_HEADER).Keys
    ensures Sized(v.segs, some) - {g} == Sized(v.segs, some - {g})
  {
    SegmentStart(v, g);
    var whole, rest, one := Within(v.blocks, some), Within(v.blocks, some - {g}), From(v.blocks, g, g + SEGMENT_HEADER);
    forall x ensures x in whole <==> x in rest + one {
    }
    assert whole == rest + one;
  }

  lemma SegmentStart(v: View, g: int)
    requires Core(v) && g in v.segs
    ensures forall x :: x in v.blocks && v.blocks[x].seg == g ==> x >= g + SEGMENT_HEADER
  {
    assert Key(0);
    forall x | x in v.blocks && v.blocks[x].seg == g ensures x >= g + SEGMENT_HEADER {
      Inside(v.blocks, v.segs, v.base, x);
    }
  }

  lemma OneSegment(v: View, g: int)
    requires Core(v) && g in v.segs
    ensures Sum(From(v.blocks, g, g + SEGMENT_HEADER)) + 32 == v.segs[g]
  {
    assert Key(0);
    assert SegmentOk(v.blocks, v.segs, v.base, g);
    SegmentSum(v, g + SEGMENT_HEADER);
  }

  /** Every byte got from the storage layer is allocated, cached, free, or one of 32 bytes per segment. */
  lemma Conservation(v: View)
    requires Core(v) && OnlyInHand(v.blocks, {})
    ensures Sum(v.segs) == Sum(Allocated(v.blocks)) + Sum(CachedBlocks(v.blocks)) + Sum(FreeBlocks(v.blocks)) + 32 * |v.segs|
  {
    SegmentsSum(v, v.segs.Keys);
    assert Sized(v.segs, v.segs.Keys) == v.segs;
    ByKind(v);
    var live, kept, free := Allocated(v.blocks), CachedBlocks(v.blocks), FreeBlocks(v.blocks);
    SumUnion(live, kept);
    SumUnion(live + kept, free);
  }

  /** Every block but a guard is allocated, cached or free. */
  lemma ByKind(v: View)
    requires Core(v) && OnlyInHand(v.blocks, {})
    ensures var live, kept, free := Allocated(v.blocks), CachedBlocks(v.blocks), FreeBlocks(v.blocks);
            live.Keys !! kept.Keys && (live + kept).Keys !! free.Keys && Within(v.blocks, v.segs.Keys) == live + kept + free
  {
    AllInSegments(v);
    var bl, all := v.blocks, Within(v.blocks, v.segs.Keys);
    var sum := Allocated(bl) + CachedBlocks(bl) + FreeBlocks(bl);
    forall x ensures x in all <==> x in sum {
      assert x in bl ==> bl[x].kind == Guard || bl[x].kind == Live || bl[x].kind == Cached || bl[x].kind == Free;
    }
    assert all == sum;
  }

  lemma AllInSegments(v: View)
    requires Core(v)
    ensures forall x :: x in v.blocks ==> v.blocks[x].seg in v.segs
  {
    assert Key(0);
    forall x | x in v.blocks ensures v.blocks[x].seg in v.segs {
      Inside(v.blocks, v.segs, v.base, x);
    }
  }
}
