/**
 The heap as a whole: what memory says about blocks, segments and cached blocks, and how each kind
 of step of the allocator keeps it consistent.
 */
module HeapView {
  import opened FreeLists
  import opened Memory
  import opened Blocks
  import opened Chains

  /**
   `size` are the listed free blocks, `first` is segments_list and `heads` the cache array.  `blocks`,
   `segs`, `order` and `chains` are what they stand for.  While an operation is changing the size of
   a block, `stale` is its address: its size is not yet in its own tag nor in the next block's.
   */
  datatype View = View(
    mem: Mem, base: int, size: Sizes, first: int, heads: seq<int>,
    blocks: Blocks, segs: Segments, order: seq<int>, chains: seq<seq<int>>, stale: int)

  // ---------- tags ----------

  function Tag(size: int, k: Kind): int { size + TypeBits(k) }

  ghost function BeforeTag(bl: Blocks, b: int): int
    requires b in bl
  {
    var p := b - bl[b].before;
    if bl[b].before == 0 || p !in bl then 3 else Tag(bl[b].before, bl[p].kind)
  }

  ghost predicate TagsAt(m: Mem, bl: Blocks, stale: int, b: int)
    requires b in bl
  {
    && (b != stale ==> Holds(m, b, Tag(bl[b].size, bl[b].kind)))
    && (bl[b].before == 0 || b - bl[b].before != stale ==> Holds(m, b + 8, BeforeTag(bl, b)))
  }

  ghost predicate Tagged(m: Mem, bl: Blocks, stale: int) {
    forall b {:trigger TagsAt(m, bl, stale, b)} :: b in bl ==> TagsAt(m, bl, stale, b)
  }

  /** What ZEND_MM_BLOCK writes. */
  function BlockWrite(m: Mem, b: int, size: nat, bits: nat): Mem {
    m[b := size + bits][b + size + 8 := size + bits]
  }

  // ---------- mapped words ----------

  ghost predicate MappedIn(m: Mem, g: int, n: nat, a: int) { g <= a < g + n && a % 8 == 0 ==> a in m }

  ghost predicate Region(m: Mem, g: int, n: nat) {
    forall a {:trigger MappedIn(m, g, n, a)} :: MappedIn(m, g, n, a)
  }

  ghost predicate SegmentMapped(m: Mem, segs: Segments, g: int)
    requires g in segs
  {
    Region(m, g, segs[g])
  }

  ghost predicate Mapped(m: Mem, base: int, segs: Segments) {
    && Region(m, base, AREA)
    && forall g {:trigger SegmentMapped(m, segs, g)} :: g in segs ==> SegmentMapped(m, segs, g)
  }

  // ---------- the list of segments ----------

  ghost predicate SegmentSize(m: Mem, segs: Segments, g: int)
    requires g in segs
  {
    Holds(m, g, segs[g])
  }

  ghost predicate SegmentList(m: Mem, segs: Segments, order: seq<int>, first: int) {
    && Chain(m, 8, first, order)
    && (forall g :: g in order <==> g in segs)
    && forall g {:trigger SegmentSize(m, segs, g)} :: g in segs ==> SegmentSize(m, segs, g)
  }

  // ---------- the cache ----------

  ghost predicate InCache(bl: Blocks, x: int, i: nat) {
    x in bl && bl[x].kind == Cached && bl[x].size == BucketSize(i)
  }

  ghost predicate CacheList(m: Mem, bl: Blocks, heads: seq<int>, chains: seq<seq<int>>, i: nat)
    requires i < |heads| && i < |chains|
  {
    Chain(m, 16, heads[i], chains[i]) && forall x :: x in chains[i] ==> InCache(bl, x, i)
  }

  ghost predicate CachedOk(bl: Blocks, chains: seq<seq<int>>, b: int)
    requires b in bl
  {
    && SmallSize(bl[b].size) && 0 <= BucketIndex(bl[b].size) < |chains|
    && b in chains[BucketIndex(bl[b].size)]
  }

  ghost predicate CacheOk(m: Mem, bl: Blocks, heads: seq<int>, chains: seq<seq<int>>) {
    && |heads| == |chains| == 64
    && (forall i {:trigger CacheList(m, bl, heads, chains, i)} :: 0 <= i < 64 ==> CacheList(m, bl, heads, chains, i))
    && forall b {:trigger CachedOk(bl, chains, b)} :: b in bl && bl[b].kind == Cached ==> CachedOk(bl, chains, b)
  }

  // ---------- the whole ----------

  ghost predicate Consistent(v: View) {
    && v.base > 0 && v.base % 8 == 0
    && Tiled(v.blocks, v.segs, v.base)
    && NoFreePair(v.blocks)
    && v.size == FreeBlocks(v.blocks)
    && Tagged(v.mem, v.blocks, v.stale)
    && Mapped(v.mem, v.base, v.segs)
    && SegmentList(v.mem, v.segs, v.order, v.first)
    && CacheOk(v.mem, v.blocks, v.heads, v.chains)
  }

  /**
   The heap is consistent.  This is stated behind a quantifier, so that the verifier does not look
   inside where the fact is only passed on; `assert Key(0)` opens it.
   */
  ghost predicate Core(v: View) {
    forall k {:trigger Key(k)} :: Key(k) ==> Consistent(v)
  }

  ghost predicate Key(k: int) { true }

  // ---------- what stays as it is ----------

  /** The words of block x after its header are the same in m and n. */
  ghost predicate PayloadKept(m: Mem, n: Mem, x: int, size: nat) {
    forall a {:trigger SameWord(m, n, a)} :: a in m && x + HEADER <= a < x + size ==> SameWord(m, n, a)
  }

  /** Every allocated block but b is still allocated, with its size and its contents, and no other is. */
  ghost predicate Spared(m: Mem, live: Sizes, n: Mem, live': Sizes, b: int) {
    && live - {b} == live' - {b}
    && forall x {:trigger PayloadKept(m, n, x, live[x])} :: x in live && x != b ==> PayloadKept(m, n, x, live[x])
  }

  lemma SparedTrans(m: Mem, live: Sizes, n: Mem, live': Sizes, o: Mem, live'': Sizes, b: int)
    requires Spared(m, live, n, live', b) && Spared(n, live', o, live'', b)
    ensures Spared(m, live, o, live'', b)
  {
    forall x {:trigger PayloadKept(m, o, x, live[x])} | x in live && x != b ensures PayloadKept(m, o, x, live[x]) {
      assert x in live - {b} && (live - {b})[x] == live[x];
      assert x in live' - {b} && (live' - {b})[x] == live'[x];
      assert PayloadKept(m, n, x, live[x]) && PayloadKept(n, o, x, live'[x]);
      forall a {:trigger SameWord(m, o, a)} | a in m && x + HEADER <= a < x + live[x] ensures SameWord(m, o, a) {
        assert SameWord(m, n, a) && SameWord(n, o, a);
      }
    }
  }

  // ---------- frames ----------

  ghost predicate TagsKept(m: Mem, n: Mem, b: int) { SameWord(m, n, b) && SameWord(m, n, b + 8) }

  ghost predicate LinkKept(m: Mem, n: Mem, b: int) { SameWord(m, n, b + 16) }

  lemma TaggedFrame(m: Mem, n: Mem, bl: Blocks, stale: int)
    requires Tagged(m, bl, stale)
    requires forall b {:trigger TagsKept(m, n, b)} :: b in bl ==> TagsKept(m, n, b)
    ensures Tagged(n, bl, stale)
  {
    forall b {:trigger TagsAt(n, bl, stale, b)} | b in bl ensures TagsAt(n, bl, stale, b) {
      assert TagsAt(m, bl, stale, b) && TagsKept(m, n, b);
    }
  }

  lemma SegmentsFrame(m: Mem, n: Mem, segs: Segments, order: seq<int>, first: int)
    requires SegmentList(m, segs, order, first)
    requires forall g {:trigger TagsKept(m, n, g)} :: g in segs ==> TagsKept(m, n, g)
    ensures SegmentList(n, segs, order, first)
  {
    forall g | g in order ensures SameWord(m, n, g + 8) {
      assert TagsKept(m, n, g);
    }
    ChainFrame(m, n, 8, first, order);
    forall g {:trigger SegmentSize(n, segs, g)} | g in segs ensures SegmentSize(n, segs, g) {
      assert SegmentSize(m, segs, g) && TagsKept(m, n, g);
    }
  }

  lemma CacheFrame(m: Mem, n: Mem, bl: Blocks, heads: seq<int>, chains: seq<seq<int>>)
    requires CacheOk(m, bl, heads, chains)
    requires forall b {:trigger LinkKept(m, n, b)} :: b in bl && bl[b].kind == Cached ==> LinkKept(m, n, b)
    ensures CacheOk(n, bl, heads, chains)
  {
    forall i {:trigger CacheList(n, bl, heads, chains, i)} | 0 <= i < 64 ensures CacheList(n, bl, heads, chains, i) {
      assert CacheList(m, bl, heads, chains, i);
      forall x | x in chains[i] ensures SameWord(m, n, x + 16) {
        assert InCache(bl, x, i) && LinkKept(m, n, x);
      }
      ChainFrame(m, n, 16, heads[i], chains[i]);
    }
  }

  /** The cache does not depend on the other blocks. */
  lemma CacheSame(m: Mem, bl: Blocks, x: Blocks, heads: seq<int>, chains: seq<seq<int>>)
    requires CacheOk(m, bl, heads, chains)
    requires CachedBlocks(bl) == CachedBlocks(x)
    ensures CacheOk(m, x, heads, chains)
  {
    forall i {:trigger CacheList(m, x, heads, chains, i)} | 0 <= i < 64 ensures CacheList(m, x, heads, chains, i) {
      assert CacheList(m, bl, heads, chains, i);
      forall b | b in chains[i] ensures InCache(x, b, i) {
        assert InCache(bl, b, i);
        assert b in CachedBlocks(bl) && CachedBlocks(bl)[b] == CachedBlocks(x)[b];
      }
    }
    forall b {:trigger CachedOk(x, chains, b)} | b in x && x[b].kind == Cached ensures CachedOk(x, chains, b) {
      assert b in CachedBlocks(x) && CachedBlocks(bl)[b] == CachedBlocks(x)[b];
      assert CachedOk(bl, chains, b);
    }
  }

  lemma MappedFrame(m: Mem, n: Mem, base: int, segs: Segments)
    requires Mapped(m, base, segs) && forall a :: a in m ==> a in n
    ensures Mapped(n, base, segs)
  {
    RegionFrame(m, n, base, AREA);
    forall g {:trigger SegmentMapped(n, segs, g)} | g in segs ensures SegmentMapped(n, segs, g) {
      assert SegmentMapped(m, segs, g);
      RegionFrame(m, n, g, segs[g]);
    }
  }

  lemma RegionFrame(m: Mem, n: Mem, g: int, len: nat)
    requires Region(m, g, len) && forall a :: a in m ==> a in n
    ensures Region(n, g, len)
  {
    forall a {:trigger MappedIn(n, g, len, a)} ensures MappedIn(n, g, len, a) {
      assert MappedIn(m, g, len, a);
    }
  }

  /** The words of a block are mapped. */
  lemma BlockMapped(v: View, b: int, a: int)
    requires Tiled(v.blocks, v.segs, v.base) && Mapped(v.mem, v.base, v.segs)
    requires b in v.blocks && b <= a < b + v.blocks[b].size && a % 8 == 0
    ensures a in v.mem
  {
    Inside(v.blocks, v.segs, v.base, b);
    var g := v.blocks[b].seg;
    assert SegmentMapped(v.mem, v.segs, g) && MappedIn(v.mem, g, v.segs[g], a);
  }

  lemma HeaderMapped(v: View, g: int)
    requires Tiled(v.blocks, v.segs, v.base) && Mapped(v.mem, v.base, v.segs) && g in v.segs
    ensures g in v.mem && g + 8 in v.mem && g % 8 == 0 && g > 0 && v.segs[g] >= SEGMENT_HEADER + MIN_BLOCK + HEADER
  {
    assert SegmentOk(v.blocks, v.segs, v.base, g);
    assert SegmentMapped(v.mem, v.segs, g) && MappedIn(v.mem, g, v.segs[g], g) && MappedIn(v.mem, g, v.segs[g], g + 8);
  }

  // ---------- writes to link words ----------

  /** Tags of any block, and all words of a block that is not free, are no link words. */
  lemma BlockWord(v: View, b: int, a: int)
    requires Tiled(v.blocks, v.segs, v.base)
    requires b in v.blocks && b <= a < b + v.blocks[b].size && (a < b + HEADER || v.blocks[b].kind != Free)
    ensures Elsewhere(v.base, FreeBlocks(v.blocks), a)
  {
    var size := FreeBlocks(v.blocks);
    Inside(v.blocks, v.segs, v.base, b);
    forall x {:trigger LinkWord(size, x, a)} ensures !LinkWord(size, x, a) {
      if x in size && x != b { assert BlocksApart(v.blocks, x, b); }
    }
  }

  lemma HeaderWord(v: View, g: int, a: int)
    requires Tiled(v.blocks, v.segs, v.base) && g in v.segs && g <= a < g + SEGMENT_HEADER
    ensures Elsewhere(v.base, FreeBlocks(v.blocks), a)
  {
    var size := FreeBlocks(v.blocks);
    assert SegmentOk(v.blocks, v.segs, v.base, g);
    forall x {:trigger LinkWord(size, x, a)} ensures !LinkWord(size, x, a) {
      if x in size { Inside(v.blocks, v.segs, v.base, x); }
    }
  }

  lemma LinksStep(v: View, n: Mem)
    requires Core(v) && OnlyLinks(v.mem, n, v.base, v.size)
    ensures Core(v.(mem := n))
    ensures Spared(v.mem, Allocated(v.blocks), n, Allocated(v.blocks), 0)
  {
    assert Key(0);
    var m := v.mem;
    forall b {:trigger TagsKept(m, n, b)} {:trigger LinkKept(m, n, b)} | b in v.blocks
      ensures TagsKept(m, n, b) && (v.blocks[b].kind == Cached ==> LinkKept(m, n, b))
    {
      BlockTagsKept(v, n, b);
    }
    forall g {:trigger TagsKept(m, n, g)} | g in v.segs ensures TagsKept(m, n, g) {
      HeaderMapped(v, g);
      HeaderWord(v, g, g);
      HeaderWord(v, g, g + 8);
      assert SameWord(m, n, g) && SameWord(m, n, g + 8);
    }
    TaggedFrame(m, n, v.blocks, v.stale);
    SegmentsFrame(m, n, v.segs, v.order, v.first);
    CacheFrame(m, n, v.blocks, v.heads, v.chains);
    MappedFrame(m, n, v.base, v.segs);
    LinksSpare(v, n);
  }

  lemma BlockTagsKept(v: View, n: Mem, b: int)
    requires Core(v) && OnlyLinks(v.mem, n, v.base, v.size) && b in v.blocks
    ensures TagsKept(v.mem, n, b) && (v.blocks[b].kind == Cached ==> LinkKept(v.mem, n, b))
  {
    assert Key(0);
    Inside(v.blocks, v.segs, v.base, b);
    BlockMapped(v, b, b);
    BlockMapped(v, b, b + 8);
    BlockWord(v, b, b);
    BlockWord(v, b, b + 8);
    assert SameWord(v.mem, n, b) && SameWord(v.mem, n, b + 8);
    if v.blocks[b].kind == Cached {
      NextBlock(v.blocks, v.segs, v.base, b);
      BlockMapped(v, b, b + 16);
      BlockWord(v, b, b + 16);
      assert SameWord(v.mem, n, b + 16);
    }
  }

  lemma LinksSpare(v: View, n: Mem)
    requires Core(v) && OnlyLinks(v.mem, n, v.base, v.size)
    ensures Spared(v.mem, Allocated(v.blocks), n, Allocated(v.blocks), 0)
  {
    assert Key(0);
    var live := Allocated(v.blocks);
    forall x {:trigger PayloadKept(v.mem, n, x, live[x])} | x in live && x != 0 ensures PayloadKept(v.mem, n, x, live[x]) {
      forall a {:trigger SameWord(v.mem, n, a)} | a in v.mem && x + HEADER <= a < x + live[x] ensures SameWord(v.mem, n, a) {
        BlockWord(v, x, a);
      }
    }
  }
}
