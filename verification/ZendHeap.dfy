/**
 The heap of the Zend memory manager, in the 64-bit release layout: allocation, release and
 reallocation of blocks, the cache of small blocks and the segments.
 */
module ZendHeap {
  import opened Bits
  import opened FreeLists
  import opened Memory
  import opened Blocks
  import opened Chains
  import opened Sums
  import opened HeapView
  import opened HeapSteps
  import opened CacheSteps
  import opened SegmentSteps
  import opened IndexSteps
  import opened FreeIndex
  import opened HeapBooks

  class Heap {
    const index: Index
    const blockSize: nat
    var segmentsList: int
    var realSize: int
    var realPeak: int
    var limit: nat
    var size: int
    var peak: int
    var cached: int
    var cache: seq<int>
    ghost var v: View

    /** zend_mm_startup_ex: a heap without segments, whose bucket arrays start at `base`. */
    constructor (base: int, start: Mem, unit: nat)
      requires base > 0 && base % 8 == 0 && AreaMapped(start, base) && SegmentUnit(unit)
      ensures Valid() && blockSize == unit && limit == TOP && v.blocks == map[] && v.segs == map[]
      ensures fresh(index)
    {
      index := new Index(base, start);
      blockSize := unit;
      segmentsList, realSize, realPeak, limit, size, peak, cached := 0, 0, 0, TOP, 0, 0, 0;
      cache := seq(64, i => 0);
      new;
      v := View(index.mem, base, map[], 0, cache, map[], map[], [], seq(64, i => []), 0);
      EmptyHeap(v, start);
    }

    /** The view is what memory, the index and the list of segments say. */
    ghost predicate Seen()
      reads `v, `segmentsList, index
    {
      && index.Sealed()
      && v.mem == index.mem && v.base == index.buckets && v.size == index.l.size && v.first == segmentsList
    }

    /**
     The invariant of the heap between operations: memory is consistent, no block is in hand, the
     counters add up and the peaks dominate.
     */
    ghost predicate Valid()
      reads this, index
    {
      && Seen() && Core(v) && v.stale == 0 && v.heads == cache && OnlyInHand(v.blocks, {}) && Bounded(v.segs)
      && Counted(v, realSize, realPeak, size, peak, cached)
      && SegmentUnit(blockSize) && blockSize <= limit < WORD
    }

    // ---------- single steps ----------

    /** zend_mm_remove_from_free_list, for a block that is about to be used. */
    method TakeFree(b: int)
      requires Seen() && Core(v) && b in v.blocks && v.blocks[b].kind == Free
      modifies `v, index
      ensures Seen() && Advanced(old(v), v, 0) && v.stale == old(v).stale
      ensures v.blocks == SetKind(old(v).blocks, b, InHand) && v.mem.Keys == old(v).mem.Keys
    {
      FreeListed(v, b);
      index.Remove(b);
      TakeStep(v, index.mem, b);
      v := v.(mem := index.mem, size := v.size - {b}, blocks := SetKind(v.blocks, b, InHand));
    }

    /** zend_mm_add_to_free_list. */
    method ListFree(b: int)
      requires Seen() && Core(v) && b in v.blocks && v.blocks[b].kind == InHand && Lonely(v.blocks, b)
      requires v.stale == 0 && v.blocks[b].size < WORD
      modifies `v, index
      ensures Seen() && Advanced(old(v), v, 0) && v.stale == 0
      ensures v.blocks == SetKind(old(v).blocks, b, Free)
      ensures b in index.l.home && !index.l.home[b].RestRing?
    {
      NoBlockAtZero(v);
      CanList(v, index.l, b);
      index.Add(b);
      ListStep(v, index.mem, b);
      v := v.(mem := index.mem, size := v.size[b := v.blocks[b].size], blocks := SetKind(v.blocks, b, Free));
    }

    /** zend_mm_add_to_rest_list. */
    method ListRest(b: int)
      requires Seen() && Core(v) && b in v.blocks && v.blocks[b].kind == InHand && Lonely(v.blocks, b)
      requires v.stale == 0 && v.blocks[b].size < WORD
      modifies `v, index
      ensures Seen() && Advanced(old(v), v, 0) && v.stale == 0
      ensures v.blocks == SetKind(old(v).blocks, b, Free)
      ensures b in index.l.home && index.l.home[b].RestRing?
    {
      NoBlockAtZero(v);
      CanList(v, index.l, b);
      index.AddRest(b);
      ListStep(v, index.mem, b);
      v := v.(mem := index.mem, size := v.size[b := v.blocks[b].size], blocks := SetKind(v.blocks, b, Free));
    }

    /** Block b swallows the next one; the tags follow later. */
    ghost method Fuse(b: int, x: int)
      requires Seen() && Core(v) && Open(v, b) && Open(v, b + v.blocks[b].size) && v.stale in {0, b, b + v.blocks[b].size}
      requires v.blocks[b].kind == Live ==> b == x
      requires v.blocks[b + v.blocks[b].size].kind == Live ==> b + v.blocks[b].size == x
      modifies `v
      ensures Seen() && Advanced(old(v), v, x) && v.stale == b && v.mem == old(v).mem
      ensures b + old(v).blocks[b].size + old(v).blocks[b + old(v).blocks[b].size].size in old(v).blocks
      ensures v.blocks == Merge(old(v).blocks, b)
    {
      FuseStep(v, b, x);
      v := v.(blocks := Merge(v.blocks, b), stale := b);
    }

    /** ZEND_MM_BLOCK: block b gets its tags. */
    method SetBlock(b: int, bits: nat, len: nat, ghost k: Kind)
      requires Seen() && Core(v) && Open(v, b) && v.stale in {0, b} && k in {Live, InHand}
      requires len == v.blocks[b].size && bits == TypeBits(k)
      requires b + len in v.blocks ==> v.blocks[b + len].kind != Free
      modifies `v, index
      ensures Seen() && Advanced(old(v), v, b) && v.stale == 0
      ensures v.blocks == SetKind(old(v).blocks, b, k) && v.mem.Keys == old(v).mem.Keys
      ensures PayloadKept(old(v).mem, v.mem, b, len)
    {
      FinishStep(v, b, k);
      ClearBlock(v, index.l, b);
      index.Remap(BlockWrite(index.mem, b, len, bits), b, len + 16);
      v := v.(mem := index.mem, blocks := SetKind(v.blocks, b, k), stale := 0);
    }

    /** The two ZEND_MM_BLOCK of a split: n bytes stay with block b, `rest` bytes become a block in hand. */
    method SplitBlock(b: int, n: nat, rest: nat)
      requires Seen() && Core(v) && Open(v, b) && v.stale in {0, b}
      requires n % 8 == 0 && MIN_BLOCK <= n && MIN_BLOCK <= rest && n + rest == v.blocks[b].size
      requires b + v.blocks[b].size in v.blocks ==> v.blocks[b + v.blocks[b].size].kind != Free
      modifies `v, index
      ensures Seen() && Advanced(old(v), v, b) && v.stale == 0
      ensures b + old(v).blocks[b].size in old(v).blocks && v.blocks == Split(old(v).blocks, b, n, Live, InHand)
      ensures PayloadKept(old(v).mem, v.mem, b, n)
    {
      SplitStep(v, b, n);
      SplitWrites(v, b, n);
      ClearBlock(v, index.l, b);
      FirstHalf(v, b, n);
      index.Remap(BlockWrite(index.mem, b, n, 1), b, v.blocks[b].size + 16);
      index.Remap(BlockWrite(index.mem, b + n, rest, 0), b, v.blocks[b].size + 16);
      v := v.(mem := index.mem, blocks := Split(v.blocks, b, n, Live, InHand), stale := 0);
    }

    // ---------- combined steps ----------

    /** If the block behind b is free, it leaves the free list and becomes part of b. */
    method MergeNext(b: int, len: nat) returns (total: nat)
      requires Seen() && Core(v) && Open(v, b) && v.stale in {0, b} && len == v.blocks[b].size && OnlyInHand(v.blocks, {b})
      modifies `v, index
      ensures Seen() && Advanced(old(v), v, b) && v.stale in {0, b} && OnlyInHand(v.blocks, {b})
      ensures b in v.blocks && v.blocks[b] == old(v).blocks[b].(size := total) && v.mem.Keys == old(v).mem.Keys
      ensures b + total in v.blocks && v.blocks[b + total].kind !in {Free, InHand}
      ensures total > len ==> b + len in old(v).blocks && old(v).blocks[b + len].kind == Free && total == len + old(v).blocks[b + len].size
      ensures total == len || total > len
      ensures total == len ==> v == old(v) && (b + len in old(v).blocks ==> old(v).blocks[b + len].kind != Free)
      ensures forall x :: x < b && x in old(v).blocks ==> x in v.blocks && v.blocks[x] == old(v).blocks[x]
      ensures old(v).blocks[b].kind == Live ==> PayloadKept(old(v).mem, v.mem, b, len)
    {
      var next := b + len;
      Next(v, b);
      ReadTag(v, next);
      NextNotInHand(v, b);
      total := len;
      SparedSelf(v, b);
      if IsFreeTag(index.mem[next]) {
        ghost var was := v;
        NextFused(v, b);
        TakeFree(next);
        ReadTag(v, next);
        total := len + BlockSize(index.mem[next]);
        ghost var mid := v;
        if was.blocks[b].kind == Live { PayloadSpared(was, mid, b); }
        Fuse(b, b);
        AdvancedMore(was, mid, b);
        AdvancedTrans(was, mid, v, b);
      }
    }

    /** If the block before b is free, it leaves the free list and b becomes part of it. */
    method MergePrev(b: int, len: nat) returns (c: int, total: nat)
      requires Seen() && Core(v) && Open(v, b) && v.stale in {0, b} && len == v.blocks[b].size && OnlyInHand(v.blocks, {b})
      modifies `v, index
      ensures Seen() && Advanced(old(v), v, b) && v.stale in {0, c} && OnlyInHand(v.blocks, {c})
      ensures Open(v, c) && v.blocks[c].size == total && v.blocks[c].seg == old(v).blocks[b].seg && PrevUsed(v.blocks, c)
      ensures c <= b < c + total && (c != b ==> v.blocks[c].kind == InHand)
      ensures c + total == b + len && c + total in v.blocks && b + len in old(v).blocks && v.blocks[c + total].kind == old(v).blocks[b + len].kind
      ensures v.mem.Keys == old(v).mem.Keys
    {
      Before(v, b);
      Next(v, b);
      ReadBefore(v, b);
      NoBlockAtZero(v);
      SparedSelf(v, b);
      c, total := b, len;
      if IsFreeTag(index.mem[b + 8]) {
        ghost var was := v;
        c := b - BlockSize(index.mem[b + 8]);
        assert c != b && v.blocks[c].kind == Free;
        PrevFused(v, b, c);
        TakeFree(c);
        ReadTag(v, c);
        total := len + BlockSize(index.mem[c]);
        ghost var mid := v;
        Fuse(c, b);
        AdvancedMore(was, mid, b);
        AdvancedTrans(was, mid, v, b);
      }
    }

    /** Lists the block in hand `rest` among the free blocks or in the rest list. */
    method ListRemainder(rest: int, keepRest: bool)
      requires Seen() && Core(v) && rest in v.blocks && v.blocks[rest].kind == InHand && Lonely(v.blocks, rest)
      requires v.stale == 0 && Bounded(v.segs) && OnlyInHand(v.blocks, {rest})
      modifies `v, index
      ensures Seen() && Advanced(old(v), v, 0) && v.stale == 0 && OnlyInHand(v.blocks, {})
      ensures v.blocks == SetKind(old(v).blocks, rest, Free)
      ensures rest in index.l.home && (index.l.home[rest].RestRing? <==> keepRest)
    {
      SizeBounded(v, rest);
      if !keepRest {
        ListFree(rest);
      } else {
        ListRest(rest);
      }
    }

    /** Block b is cut to n bytes, and the remainder is listed. */
    method SplitOff(b: int, len: nat, n: nat, keepRest: bool)
      requires Seen() && Core(v) && Open(v, b) && v.stale in {0, b} && len == v.blocks[b].size && OnlyInHand(v.blocks, {b})
      requires b + len in v.blocks && v.blocks[b + len].kind != Free && Bounded(v.segs)
      requires n % 8 == 0 && MIN_BLOCK <= n && n + MIN_BLOCK <= len
      modifies `v, index
      ensures Seen() && Advanced(old(v), v, b) && v.stale == 0 && OnlyInHand(v.blocks, {})
      ensures b in v.blocks && v.blocks[b].kind == Live && v.blocks[b].size == n
      ensures b + n in v.blocks && v.blocks[b + n].kind == Free && v.blocks[b + n].size == len - n
      ensures b + n in index.l.home && (index.l.home[b + n].RestRing? <==> keepRest)
      ensures PayloadKept(old(v).mem, v.mem, b, n)
    {
      ghost var was := v;
      SplitRemainder(was, b, n);
      SplitBlock(b, n, len - n);
      ghost var mid := v;
      ListRemainder(b + n, keepRest);
      PayloadSpared(mid, v, b);
      PayloadTrans(was.mem, mid.mem, v.mem, b, n);
      AdvancedMore(mid, v, b);
      AdvancedTrans(was, mid, v, b);
    }

    /**
     The end of every allocation: the first trueSize bytes of block b are used and the remainder is
     listed, unless it is too small to be a block.
     */
    method Carve(b: int, len: nat, trueSize: nat, keepRest: bool) returns (used: nat)
      requires Seen() && Core(v) && Open(v, b) && v.stale in {0, b} && len == v.blocks[b].size && OnlyInHand(v.blocks, {b})
      requires b + len in v.blocks && v.blocks[b + len].kind != Free && Bounded(v.segs)
      requires trueSize % 8 == 0 && MIN_BLOCK <= trueSize <= len
      modifies `v, index
      ensures Seen() && Advanced(old(v), v, b) && v.stale == 0 && OnlyInHand(v.blocks, {})
      ensures b in v.blocks && v.blocks[b].kind == Live && v.blocks[b].size == used
      ensures used == if len - trueSize < MIN_BLOCK then len else trueSize
      ensures used < len ==>
                && b + used in v.blocks && v.blocks[b + used].kind == Free && v.blocks[b + used].size == len - used
                && b + used in index.l.home && (index.l.home[b + used].RestRing? <==> keepRest)
      ensures PayloadKept(old(v).mem, v.mem, b, used)
    {
      if len - trueSize < MIN_BLOCK {
        used := len;
        SetBlock(b, 1, len, Live);
      } else {
        used := trueSize;
        SplitOff(b, len, trueSize, keepRest);
      }
    }

    // ---------- zend_mm_del_segment ----------

    /** The walk to the pointer to a segment: 0 stands for segments_list, anything else is a link word. */
    method FindLink(segment: int, ghost order: seq<int>, ghost k: nat) returns (link: int)
      requires k < |order| && order[k] == segment && segmentsList == order[0]
      requires forall i {:trigger order[i]} :: 0 <= i < k ==> order[i] != segment && Holds(index.mem, order[i] + 8, Chains.After(order, i))
      ensures link == if k == 0 then 0 else order[k - 1] + 8
    {
      var words := index.mem;
      ghost var j := 0;
      link := 0;
      var p := segmentsList;
      while p != segment
        invariant 0 <= j <= k && p == order[j] && link == if j == 0 then 0 else order[j - 1] + 8
        decreases k - j
      {
        link := p + 8;
        p := words[p + 8];
        j := j + 1;
      }
    }

    /** The pointer to the segment at position j becomes the pointer to the next one. */
    method CutLink(segment: int, ghost j: nat)
      requires Seen() && Core(v) && j < |v.order| && v.order[j] == segment
      modifies `segmentsList, index
      ensures index.Sealed() && index.l == old(index.l)
      ensures segmentsList == if j == 0 then Chains.After(v.order, 0) else v.first
      ensures index.mem == if j == 0 then v.mem else v.mem[v.order[j - 1] + 8 := Chains.After(v.order, j)]
    {
      LinksTo(v, j);
      var link := FindLink(segment, v.order, j);
      var next := index.mem[segment + 8];
      if link == 0 {
        segmentsList := next;
      } else {
        ClearHeader(v, index.l, link - 8, next);
        index.Remap(index.mem[link := next], link - 8, 16);
      }
    }

    /** The segment that block b fills leaves the list and goes back to the storage layer. */
    method DelSegment(segment: int, ghost b: int)
      requires Seen() && Core(v) && Open(v, b) && v.stale in {0, b} && v.blocks[b].before == 0 && segment == b - SEGMENT_HEADER
      requires b + v.blocks[b].size in v.blocks && v.blocks[b + v.blocks[b].size].kind == Guard
      modifies `v, `segmentsList, `realSize, index
      ensures Seen() && SegmentGone(old(v), v, segment, b, old(realSize), realSize)
    {
      Sole(v, b);
      ghost var was := v;
      ghost var j := SegmentPosition(v, segment);
      LinksTo(v, j);
      ClearSegment(v, index.l, b);
      SegmentCut(v, b, j, realSize);
      var len := index.mem[segment];
      CutLink(segment, j);
      realSize := realSize - len;
      index.Remap(Unmapped(index.mem, segment, len), segment, len);
      v := CutView(was, j);
    }

    // ---------- release ----------

    /** Block b becomes one with the free blocks on either side of it. */
    method Coalesce(b: int, len: nat) returns (c: int, total: nat)
      requires Seen() && Core(v) && v.stale == 0 && b in v.blocks && v.blocks[b].kind == Live && v.blocks[b].size == len
      requires OnlyInHand(v.blocks, {})
      modifies `v, index
      ensures Seen() && Whole(old(v), v, b, c, total)
    {
      ghost var was := v;
      total := MergeNext(b, len);
      ghost var mid := v;
      c, total := MergePrev(b, total);
      AdvancedTrans(was, mid, v, b);
      Swallowed(v, c, b);
    }

    /** The end of _zend_mm_free_int for a block that does not go to the cache. */
    method Release(b: int, len: nat)
      requires Seen() && Core(v) && v.stale == 0 && b in v.blocks && v.blocks[b].kind == Live && v.blocks[b].size == len
      requires OnlyInHand(v.blocks, {}) && Bounded(v.segs)
      modifies `v, `segmentsList, `realSize, index
      ensures Seen() && Released(old(v), v, old(realSize), realSize, b) && OnlyInHand(v.blocks, {})
    {
      ghost var was := v;
      var c, total := Coalesce(b, len);
      ghost var whole := v;
      Next(v, c);
      Before(v, c);
      ReadTag(v, c + total);
      ReadBefore(v, c);
      if IsFirstTag(index.mem[c + 8]) && IsGuardTag(index.mem[c + total]) {
        Sole(v, c);
        DelSegment(c - SEGMENT_HEADER, c);
        Dropped(was, whole, v, c, b, total);
      } else {
        SetBlock(c, 0, total, InHand);
        ghost var tagged := v;
        ListRemainder(c, false);
        Relisted(was, whole, tagged, v, c, b, total);
      }
    }

    /** A small block goes to the front of its cache list. */
    method CachePush(b: int, len: nat)
      requires Seen() && Core(v) && v.stale == 0 && v.heads == cache
      requires b in v.blocks && v.blocks[b].kind == Live && v.blocks[b].size == len && SmallSize(len)
      modifies `v, `cache, index
      ensures Seen() && Core(v) && v.stale == 0 && v.heads == cache
      ensures v.blocks == SetKind(old(v).blocks, b, Cached) && v.segs == old(v).segs
      ensures Spared(old(v).mem, Allocated(old(v).blocks), v.mem, Allocated(v.blocks), b)
      ensures CachedBlocks(v.blocks) == CachedBlocks(old(v).blocks)[b := len]
    {
      PushStep(v, b);
      var i := BucketIndex(len);
      var next := cache[i];
      ClearPayload(v, index.l, b, b + 16, next);
      index.Remap(index.mem[b + 16 := next], b + 16, 8);
      v := v.(mem := index.mem, heads := v.heads[i := b], chains := v.chains[i := [b] + v.chains[i]],
              blocks := SetKind(v.blocks, b, Cached));
      cache := cache[i := b];
    }

    /** _zend_mm_free_int. */
    method FreeInt(p: int)
      requires Valid() && (p == 0 || p - HEADER in Allocated(v.blocks))
      modifies this, index
      ensures Valid() && limit == old(limit) && realSize <= old(realSize)
      ensures p == 0 ==> v == old(v)
      ensures p != 0 ==> Allocated(v.blocks) == Allocated(old(v).blocks) - {p - HEADER}
      ensures p != 0 ==> Spared(old(v).mem, Allocated(old(v).blocks), v.mem, Allocated(v.blocks), p - HEADER)
      ensures p != 0 ==>
                var len := Allocated(old(v).blocks)[p - HEADER];
                CachedBlocks(v.blocks) ==
                  if SmallSize(len) && old(cached) < CACHE_SIZE then CachedBlocks(old(v).blocks)[p - HEADER := len] else CachedBlocks(old(v).blocks)
    {
      if p == 0 {
        return;
      }
      ghost var was := v;
      var b := p - HEADER;
      Next(v, b);
      ReadTag(v, b);
      var len := BlockSize(index.mem[b]);
      if SmallSize(len) && cached < CACHE_SIZE {
        CachePush(b, len);
        CountedPush(was, v, b, realSize, realPeak, size, peak, cached);
        cached := cached + len;
      } else {
        FreeUncached(b, len);
      }
    }

    /** The path of _zend_mm_free_int for a block that does not go to the cache. */
    method FreeUncached(b: int, len: nat)
      requires Valid() && b in v.blocks && v.blocks[b].kind == Live && v.blocks[b].size == len
      modifies `v, `segmentsList, `realSize, `size, index
      ensures Valid() && Allocated(v.blocks) == Allocated(old(v).blocks) - {b} && realSize <= old(realSize)
      ensures Spared(old(v).mem, Allocated(old(v).blocks), v.mem, Allocated(v.blocks), b)
      ensures CachedBlocks(v.blocks) == CachedBlocks(old(v).blocks)
    {
      ghost var was, real0 := v, realSize;
      size := size - len;
      Release(b, len);
      CountedRelease(was, v, b, real0, realPeak, size + len, peak, cached, realSize);
    }

    // ---------- allocation ----------

    /** The block at the front of a cache list is handed out. */
    method CachePop(i: nat) returns (b: int)
      requires Seen() && Core(v) && v.stale == 0 && v.heads == cache && i < 64 && |cache| == 64 && cache[i] != 0
      modifies `v, `cache
      ensures Seen() && Core(v) && v.stale == 0 && v.heads == cache && b == old(cache)[i] && v.segs == old(v).segs
      ensures b in old(v).blocks && old(v).blocks[b].kind == Cached && old(v).blocks[b].size == BucketSize(i)
      ensures v.blocks == SetKind(old(v).blocks, b, Live) && v.mem == old(v).mem
      ensures Spared(old(v).mem, Allocated(old(v).blocks), v.mem, Allocated(v.blocks), b)
      ensures CachedBlocks(v.blocks) == CachedBlocks(old(v).blocks) - {b}
    {
      PopStep(v, i);
      b := cache[i];
      var next := index.mem[b + 16];
      v := v.(heads := v.heads[i := next], chains := v.chains[i := v.chains[i][1..]], blocks := SetKind(v.blocks, b, Live));
      cache := cache[i := next];
    }

    /**
     The searches of _zend_mm_alloc_int: the small buckets, the large tries and, when a new segment
     might hit the limit, the rest list.
     */
    method FindBlock(trueSize: nat) returns (best: int)
      requires Seen() && Core(v) && trueSize % 8 == 0 && MIN_BLOCK <= trueSize < WORD
      ensures best != 0 ==> best in v.blocks && v.blocks[best].kind == Free && v.blocks[best].size >= trueSize
      ensures best == 0 ==> NothingListed(index.l, trueSize, realSize >= limit - blockSize)
    {
      BucketBijection(trueSize, 0);
      FreeIsFree(v);
      if SmallSize(trueSize) {
        best := index.FindSmall(BucketIndex(trueSize));
        if best != 0 {
          return;
        }
      }
      best := index.FindLarge(trueSize);
      if best == 0 && realSize >= limit - blockSize {
        best := index.FindRest(trueSize);
      }
    }

    /** The free block `best` leaves its list and is carved. */
    method UseBlock(best: int, trueSize: nat) returns (used: nat)
      requires Seen() && Core(v) && v.stale == 0 && OnlyInHand(v.blocks, {}) && Bounded(v.segs)
      requires best in v.blocks && v.blocks[best].kind == Free && v.blocks[best].size >= trueSize
      requires trueSize % 8 == 0 && MIN_BLOCK <= trueSize
      modifies `v, index
      ensures Seen() && Advanced(old(v), v, best) && v.stale == 0 && OnlyInHand(v.blocks, {})
      ensures best in v.blocks && v.blocks[best].kind == Live && v.blocks[best].size == used >= trueSize
      ensures used < trueSize + MIN_BLOCK
    {
      ghost var was := v;
      Next(v, best);
      TakeFree(best);
      ghost var taken := v;
      ReadTag(v, best);
      AdvancedMore(was, taken, best);
      used := Carve(best, index.mem[best], trueSize, false);
      AdvancedTrans(was, taken, v, best);
    }

    // ---------- zend_mm_free_cache ----------

    /** Block b becomes one with the free blocks around it, the one before it first, and is tagged free. */
    method CoalesceFree(b: int, len: nat) returns (c: int, total: nat)
      requires Seen() && Core(v) && v.stale == 0 && b in v.blocks && v.blocks[b].kind == Live && v.blocks[b].size == len
      requires OnlyInHand(v.blocks, {})
      modifies `v, index
      ensures Seen() && Whole(old(v), v, b, c, total) && v.stale == 0 && v.blocks[c].kind == InHand
    {
      ghost var was := v;
      c, total := MergePrev(b, len);
      Swallowed(v, c, b);
      ghost var mid := v;
      total := MergeNext(c, total);
      WholeAfter(was, mid, v, b, c, total);
      ghost var whole := v;
      SetBlock(c, 0, total, InHand);
      WholeTagged(was, whole, v, b, c, total);
    }

    /** One turn of the inner loop: the block b at the front of cache list i is given up. */
    method FlushBlock(i: nat, b: int) returns (next: int)
      requires Seen() && Core(v) && v.stale == 0 && OnlyInHand(v.blocks, {}) && Bounded(v.segs)
      requires i < 64 && |v.heads| == |v.chains| == 64 && v.heads[i] == b != 0
      modifies `v, `segmentsList, `realSize, `cached, index
      ensures Seen() && Flushed(old(v), v, old(realSize), realSize, i, b) && OnlyInHand(v.blocks, {})
      ensures next == v.heads[i] && cached == old(cached) - old(v).blocks[b].size
    {
      PopStep(v, i);
      ghost var was := v;
      ReadTag(v, b);
      var len := BlockSize(index.mem[b]);
      next := index.mem[b + 16];
      cached := cached - len;
      v := v.(heads := v.heads[i := next], chains := v.chains[i := v.chains[i][1..]], blocks := SetKind(v.blocks, b, Live));
      ghost var popped := v;
      var c, total := CoalesceFree(b, len);
      GiveBack(c, total, b, popped);
      FlushedBlock(was, popped, v, old(realSize), realSize, i, b);
    }

    /** The block in hand c, which contains b, is listed, or its segment goes if it fills it. */
    method GiveBack(c: int, total: nat, ghost b: int, ghost was: View)
      requires Seen() && Whole(was, v, b, c, total) && v.stale == 0 && v.blocks[c].kind == InHand && Bounded(v.segs)
      modifies `v, `segmentsList, `realSize, index
      ensures Seen() && Released(was, v, old(realSize), realSize, b) && OnlyInHand(v.blocks, {})
    {
      ghost var whole := v;
      Next(v, c);
      Before(v, c);
      ReadTag(v, c + total);
      ReadBefore(v, c);
      if IsFirstTag(index.mem[c + 8]) && IsGuardTag(index.mem[c + total]) {
        Sole(v, c);
        DelSegment(c - SEGMENT_HEADER, c);
        Dropped(was, whole, v, c, b, total);
      } else {
        ListRemainder(c, false);
        SparedSelf(whole, c);
        assert SetKind(whole.blocks, c, InHand) == whole.blocks;
        Relisted(was, whole, whole, v, c, b, total);
      }
    }

    method FlushList(i: nat)
      requires Seen() && Core(v) && v.stale == 0 && OnlyInHand(v.blocks, {}) && Bounded(v.segs)
      requires i < 64 && v.heads == cache && |cache| == |v.chains| == 64
      requires cached == Sum(CachedBlocks(v.blocks)) && realSize == Sum(v.segs)
      modifies `v, `segmentsList, `realSize, `cached, `cache, index
      ensures Seen() && Core(v) && v.stale == 0 && OnlyInHand(v.blocks, {}) && Bounded(v.segs)
      ensures v.heads == cache == old(cache)[i := 0] && |v.chains| == 64
      ensures cached == Sum(CachedBlocks(v.blocks)) && realSize == Sum(v.segs) <= old(realSize)
      ensures Spared(old(v).mem, Allocated(old(v).blocks), v.mem, Allocated(v.blocks), 0) && Fewer(v.segs, old(v).segs)
    {
      var block := cache[i];
      ghost var was := v;
      SparedSelf(v, 0);
      while block != 0
        invariant Seen() && Core(v) && v.stale == 0 && OnlyInHand(v.blocks, {}) && Bounded(v.segs)
        invariant cache == old(cache) && v.heads == cache[i := block] && |v.chains| == 64
        invariant cached == Sum(CachedBlocks(v.blocks)) && realSize == Sum(v.segs) <= old(realSize)
        invariant Spared(was.mem, Allocated(was.blocks), v.mem, Allocated(v.blocks), 0) && Fewer(v.segs, was.segs)
        decreases |v.chains[i]|
      {
        ghost var before, real0 := v, realSize;
        block := FlushBlock(i, block);
        FlushCount(before, v, real0, realSize, i, before.heads[i]);
        SparedTrans(was.mem, Allocated(was.blocks), before.mem, Allocated(before.blocks), v.mem, Allocated(v.blocks), 0);
      }
      cache := cache[i := 0];
    }

    method FreeCache()
      requires Seen() && Core(v) && v.stale == 0 && OnlyInHand(v.blocks, {}) && Bounded(v.segs) && v.heads == cache
      requires cached == Sum(CachedBlocks(v.blocks)) && realSize == Sum(v.segs)
      modifies `v, `segmentsList, `realSize, `cached, `cache, index
      ensures Seen() && Core(v) && v.stale == 0 && OnlyInHand(v.blocks, {}) && Bounded(v.segs) && v.heads == cache
      ensures cached == 0 && CachedBlocks(v.blocks) == map[] && |cache| == 64 && forall i :: 0 <= i < 64 ==> cache[i] == 0
      ensures realSize == Sum(v.segs) <= old(realSize) && Fewer(v.segs, old(v).segs)
      ensures Spared(old(v).mem, Allocated(old(v).blocks), v.mem, Allocated(v.blocks), 0)
      ensures AllReusable(old(v), v)
    {
      ghost var was := v;
      CacheSize(v);
      SparedSelf(v, 0);
      for i := 0 to 64
        invariant Seen() && Core(v) && v.stale == 0 && OnlyInHand(v.blocks, {}) && Bounded(v.segs)
        invariant v.heads == cache && |cache| == |v.chains| == 64 && forall j :: 0 <= j < i ==> cache[j] == 0
        invariant cached == Sum(CachedBlocks(v.blocks)) && realSize == Sum(v.segs) <= old(realSize)
        invariant Spared(was.mem, Allocated(was.blocks), v.mem, Allocated(v.blocks), 0) && Fewer(v.segs, was.segs)
      {
        ghost var before := v;
        if cache[i] != 0 {
          FlushList(i);
          SparedTrans(was.mem, Allocated(was.blocks), before.mem, Allocated(before.blocks), v.mem, Allocated(v.blocks), 0);
        }
      }
      NothingCached(v);
      CacheIsFreed(was, v);
    }

    // ---------- new segments ----------

    /**
     The storage layer: it refuses, or hands out a region of unused addresses whose words hold
     anything.  `at` and `fill` are its choice.
     */
    method StorageAlloc(len: nat) returns (at: int, fill: Mem)
      requires Seen() && Core(v) && len > 0
      ensures at != 0 ==> FreshRegion(v.segs, v.base, at, len) && at + len <= TOP && Unused(index.mem, at, len)
    {
      at, fill := *, *;
      if !(at > 0 && at % 8 == 0 && at + len <= TOP && Unused(index.mem, at, len)) {
        return 0, fill;
      }
      UnusedIsFresh(v, at, len);
    }

    /** The segment size for a block of trueSize bytes; a block too large for the usual size is `oversized`. */
    method SegmentSizeFor(trueSize: nat) returns (segmentSize: nat, oversized: bool)
      requires SegmentUnit(blockSize) && trueSize % 8 == 0 && MIN_BLOCK <= trueSize < WORD
      ensures segmentSize % 8 == 0 && segmentSize < WORD && (segmentSize >= trueSize ==> segmentSize >= trueSize + 32)
      ensures segmentSize < trueSize <==> trueSize + 32 + blockSize - 1 >= WORD
      ensures oversized <==> trueSize + 32 > blockSize
      ensures segmentSize >= trueSize ==> segmentSize < trueSize + 32 + blockSize
    {
      segmentSize := blockSize;
      oversized := false;
      if trueSize > blockSize - (SEGMENT_HEADER + HEADER) {
        segmentSize := RoundUp((trueSize + SEGMENT_HEADER + HEADER) % WORD, blockSize);
        oversized := true;
      }
      SegmentRoom(trueSize, blockSize, segmentSize);
    }

    /** Gets a segment for a block of trueSize bytes; its one block is in hand.  0 if there is none. */
    method NewSegment(trueSize: nat) returns (best: int, len: nat, keepRest: bool)
      requires Seen() && Core(v) && v.stale == 0 && OnlyInHand(v.blocks, {}) && Bounded(v.segs) && realSize == Sum(v.segs)
      requires SegmentUnit(blockSize) && limit < WORD && trueSize % 8 == 0 && MIN_BLOCK <= trueSize < WORD
      modifies `v, `segmentsList, `realSize, `realPeak, index
      ensures best == 0 ==> Seen() && v == old(v) && realSize == old(realSize) && realPeak == old(realPeak)
      ensures best != 0 ==> Seen() && Acquired(old(v), v, best, len) && trueSize <= len && Bounded(v.segs)
      ensures best != 0 ==> realSize == Sum(v.segs) <= limit && realPeak == if old(realPeak) < realSize then realSize else old(realPeak)
    {
      var segmentSize;
      segmentSize, keepRest := SegmentSizeFor(trueSize);
      best, len := 0, 0;
      if segmentSize < trueSize || !Within(realSize, segmentSize, limit) {
        return;
      }
      best, len := AcquireSegment(segmentSize);
    }

    /** Takes a segment of the given size from the storage layer; 0 if it refuses. */
    method AcquireSegment(segmentSize: nat) returns (best: int, len: nat)
      requires Seen() && Core(v) && v.stale == 0 && OnlyInHand(v.blocks, {}) && Bounded(v.segs) && realSize == Sum(v.segs)
      requires segmentSize % 8 == 0 && segmentSize >= 64 && Within(realSize, segmentSize, limit)
      modifies `v, `segmentsList, `realSize, `realPeak, index
      ensures best == 0 ==> Seen() && v == old(v) && realSize == old(realSize) && realPeak == old(realPeak)
      ensures best != 0 ==> Seen() && Acquired(old(v), v, best, len) && len == segmentSize - 32 && Bounded(v.segs)
      ensures best != 0 ==> realSize == Sum(v.segs) <= limit && realPeak == if old(realPeak) < realSize then realSize else old(realPeak)
    {
      var segment, fill := StorageAlloc(segmentSize);
      if segment == 0 {
        return 0, 0;
      }
      NoWrap(v, segment, segmentSize, limit);
      SumSet(v.segs, segment, segmentSize);
      ghost var was := v;
      SetUpSegment(segment, segmentSize, fill);
      NewBlock(was, v, segment, segmentSize);
      realSize := realSize + segmentSize;
      if realSize > realPeak {
        realPeak := realSize;
      }
      len := segmentSize - SEGMENT_HEADER - HEADER;
      best := segment + SEGMENT_HEADER;
    }

    /** Maps a fresh segment, puts it first in the list and marks its first block and its guard. */
    method SetUpSegment(segment: int, segmentSize: nat, fill: Mem)
      requires Seen() && Core(v) && v.stale == 0 && segmentSize % 8 == 0 && segmentSize >= 64
      requires FreshRegion(v.segs, v.base, segment, segmentSize) && Unused(index.mem, segment, segmentSize)
      modifies `v, `segmentsList, index
      ensures Seen() && segment !in old(v).segs && Core(v)
      ensures v == old(v).(mem := v.mem, first := segment, segs := old(v).segs[segment := segmentSize], order := [segment] + old(v).order,
                           blocks := AddSegment(old(v).blocks, segment, segmentSize, InHand), stale := segment + 16)
      ensures Spared(old(v).mem, Allocated(old(v).blocks), v.mem, Allocated(v.blocks), 0)
      ensures CachedBlocks(v.blocks) == CachedBlocks(old(v).blocks)
    {
      ghost var was := v;
      FreshClear(v, index.l, segment, segmentSize);
      index.Remap(index.mem + NewWords(segment, segmentSize, fill), segment, segmentSize);
      index.Remap(index.mem[segment := segmentSize], segment, segmentSize);
      index.Remap(index.mem[segment + 8 := segmentsList], segment, segmentSize);
      segmentsList := segment;
      index.Remap(index.mem[segment + 24 := 3], segment, segmentSize);
      index.Remap(index.mem[segment + segmentSize - 16 := 3 + HEADER], segment, segmentSize);
      SegmentPrepared(was.mem, index.mem, segment, segmentSize, was.first, fill);
      AddStep(was, index.mem, segment, segmentSize);
      v := was.(mem := index.mem, first := segment, segs := was.segs[segment := segmentSize], order := [segment] + was.order,
                blocks := AddSegment(was.blocks, segment, segmentSize, InHand), stale := segment + 16);
    }

    /**
     _zend_mm_alloc_int.  The result is 0 when the request cannot be met; the source then reports the
     error and abandons the request that is being served.
     */
    method AllocInt(request: nat) returns (p: int)
      requires Valid() && request < WORD
      modifies this, index
      ensures limit == old(limit)
      ensures p != 0 ==> Valid() && Allotted(old(v), v, p - HEADER) && v.blocks[p - HEADER].size >= TrueSize(request) >= request + HEADER
      ensures p != 0 ==> realSize == old(realSize) || realSize <= limit
      ensures p == 0 ==> Seen() && Core(v) && OnlyInHand(v.blocks, {})
      ensures p == 0 ==> Spared(old(v).mem, Allocated(old(v).blocks), v.mem, Allocated(v.blocks), 0)
      ensures p == 0 && request + 23 < WORD ==> old(NothingListed(index.l, TrueSize(request), realSize >= limit - blockSize))
    {
      var trueSize := TrueSize(request);
      TrueSizeFits(request);
      if SmallSize(trueSize) && trueSize < request {
        SparedSelf(v, 0);
        return 0;
      }
      var best := AllocBlock(trueSize);
      p := if best != 0 then best + HEADER else 0;
    }

    /** A block for trueSize bytes: from the cache, or in some other way. */
    method AllocBlock(trueSize: nat) returns (best: int)
      requires Valid() && trueSize % 8 == 0 && MIN_BLOCK <= trueSize < WORD
      modifies this, index
      ensures limit == old(limit)
      ensures best != 0 ==> Valid() && Allotted(old(v), v, best) && v.blocks[best].size >= trueSize
      ensures best != 0 ==> realSize == old(realSize) || realSize <= limit
      ensures best == 0 ==> Seen() && Core(v) && OnlyInHand(v.blocks, {})
      ensures best == 0 ==> Spared(old(v).mem, Allocated(old(v).blocks), v.mem, Allocated(v.blocks), 0)
      ensures best == 0 ==> old(NothingListed(index.l, trueSize, realSize >= limit - blockSize))
    {
      BucketBijection(trueSize, 0);
      CacheSize(v);
      if SmallSize(trueSize) && cache[BucketIndex(trueSize)] != 0 {
        best := AllocCached(trueSize);
      } else {
        best := AllocUncached(trueSize);
      }
    }

    /** A block of exactly this size is in the cache. */
    method AllocCached(trueSize: nat) returns (b: int)
      requires Valid() && trueSize % 8 == 0 && MIN_BLOCK <= trueSize && SmallSize(trueSize) && |cache| == 64
      requires 0 <= BucketIndex(trueSize) < 64 && cache[BucketIndex(trueSize)] != 0
      modifies `v, `cache, `cached
      ensures Valid() && Allotted(old(v), v, b) && v.blocks[b].size == trueSize
    {
      ghost var was := v;
      BucketBijection(trueSize, BucketIndex(trueSize));
      b := CachePop(BucketIndex(trueSize));
      cached := cached - trueSize;
      CountedPop(was, v, b, realSize, realPeak, size, peak, cached + trueSize);
    }

    /** Any other way to meet a request: a listed block, or a new segment. */
    method AllocUncached(trueSize: nat) returns (best: int)
      requires Valid() && trueSize % 8 == 0 && MIN_BLOCK <= trueSize < WORD
      modifies this, index
      ensures limit == old(limit)
      ensures best != 0 ==> Valid() && Allotted(old(v), v, best) && v.blocks[best].size >= trueSize
      ensures best != 0 ==> realSize == old(realSize) || realSize <= limit
      ensures best == 0 ==> Seen() && Core(v) && OnlyInHand(v.blocks, {})
      ensures best == 0 ==> Spared(old(v).mem, Allocated(old(v).blocks), v.mem, Allocated(v.blocks), 0)
      ensures best == 0 ==> old(NothingListed(index.l, trueSize, realSize >= limit - blockSize))
    {
      best := FindBlock(trueSize);
      if best != 0 {
        AllocListed(best, trueSize);
      } else {
        best := AllocSegment(trueSize);
      }
    }

    method AllocListed(best: int, trueSize: nat)
      requires Valid() && best in v.blocks && v.blocks[best].kind == Free && v.blocks[best].size >= trueSize
      requires trueSize % 8 == 0 && MIN_BLOCK <= trueSize
      modifies `v, `size, `peak, index
      ensures Valid() && Allotted(old(v), v, best) && v.blocks[best].size >= trueSize
    {
      ghost var was := v;
      var used := UseBlock(best, trueSize);
      CountedUse(was, v, best, used, realSize, realPeak, size, peak, cached);
      Charge(used);
    }

    /** heap->size += true_size, and the peak follows. */
    method Charge(used: int)
      modifies `size, `peak
      ensures size == old(size) + used && peak == if old(peak) < size then size else old(peak)
    {
      size := size + used;
      if peak < size {
        peak := size;
      }
    }

    method AllocSegment(trueSize: nat) returns (best: int)
      requires Valid() && trueSize % 8 == 0 && MIN_BLOCK <= trueSize < WORD
      modifies this, index
      ensures limit == old(limit)
      ensures best != 0 ==> Valid() && Allotted(old(v), v, best) && v.blocks[best].size >= trueSize && realSize <= limit
      ensures best == 0 ==> Seen() && Core(v) && OnlyInHand(v.blocks, {})
      ensures best == 0 ==> Spared(old(v).mem, Allocated(old(v).blocks), v.mem, Allocated(v.blocks), 0)
    {
      ghost var was := v;
      var len, keepRest;
      best, len, keepRest := NewSegment(trueSize);
      if best == 0 {
        FreeCache();
        return;
      }
      CarveSegment(best, len, trueSize, keepRest, was);
    }

    /** Carves the block out of a segment that came in since `was`. */
    method CarveSegment(best: int, len: nat, trueSize: nat, keepRest: bool, ghost was: View)
      requires Seen() && Core(was) && Acquired(was, v, best, len) && Bounded(v.segs) && v.heads == cache
      requires size == Sum(Allocated(was.blocks)) + Sum(CachedBlocks(was.blocks)) <= peak
      requires cached == Sum(CachedBlocks(was.blocks)) < CACHE_SIZE + MAX_SMALL && realSize == Sum(v.segs) <= realPeak
      requires SegmentUnit(blockSize) && blockSize <= limit < WORD && trueSize % 8 == 0 && MIN_BLOCK <= trueSize <= len
      modifies `v, `size, `peak, index
      ensures Valid() && Allotted(was, v, best) && v.blocks[best].size >= trueSize
    {
      ghost var mid := v;
      var used := Carve(best, len, trueSize, keepRest);
      CarvedSegment(was, mid, v, best, len);
      CountedSegment(was, v, best, used, realSize, realPeak, size, peak, cached);
      Charge(used);
    }

    // ---------- contents ----------

    /** The program writes a word of an allocated block. */
    method WriteWord(b: int, a: int, x: int)
      requires Seen() && Core(v) && v.stale == 0 && b in v.blocks && v.blocks[b].kind == Live
      requires b + HEADER <= a && a + 8 <= b + v.blocks[b].size && a % 8 == 0
      modifies `v, index
      ensures Seen() && Core(v) && v == old(v).(mem := old(v).mem[a := x]) && a in old(v).mem
      ensures Spared(old(v).mem, Allocated(v.blocks), v.mem, Allocated(v.blocks), b)
    {
      PokeStep(v, b, a, x);
      ClearPayload(v, index.l, b, a, x);
      index.Remap(index.mem[a := x], a, 8);
      v := v.(mem := index.mem);
    }

    /** memcpy from the payload of one block to that of another. */
    method CopyWords(b: int, c: int, len: nat)
      requires Seen() && Core(v) && v.stale == 0 && b != c && len % 8 == 0
      requires b in v.blocks && v.blocks[b].kind == Live && b + HEADER + len <= b + v.blocks[b].size
      requires c in v.blocks && v.blocks[c].kind == Live && c + HEADER + len <= c + v.blocks[c].size
      modifies `v, index
      ensures Seen() && Core(v) && v == old(v).(mem := v.mem)
      ensures Copied(old(v).mem, v.mem, b + HEADER, c + HEADER, len)
      ensures Spared(old(v).mem, Allocated(v.blocks), v.mem, Allocated(v.blocks), c)
    {
      ghost var was := v;
      LinksStepNone(v);
      NoBlockAtZero(v);
      SparedMore(v.mem, Allocated(v.blocks), v.mem, Allocated(v.blocks), c);
      var k := 0;
      while k < len
        invariant 0 <= k <= len && k % 8 == 0
        invariant Seen() && Core(v) && v == was.(mem := v.mem)
        invariant Copied(was.mem, v.mem, b + HEADER, c + HEADER, k)
        invariant Spared(was.mem, Allocated(was.blocks), v.mem, Allocated(was.blocks), c)
      {
        PayloadWord(was, b, b + HEADER + k);
        PayloadWord(was, c, c + HEADER + k);
        PayloadOf(was.mem, Allocated(was.blocks), v.mem, Allocated(was.blocks), b, c, b + HEADER + k);
        ghost var before := v.mem;
        var x := index.mem[b + HEADER + k];
        WriteWord(c, c + HEADER + k, x);
        CopiedOneMore(was.mem, before, b + HEADER, c + HEADER, k, x);
        SparedTrans(was.mem, Allocated(was.blocks), before, Allocated(was.blocks), v.mem, Allocated(was.blocks), c);
        k := k + 8;
      }
    }

    // ---------- reallocation ----------

    /** The block is large enough, and what it has too much is a block of its own. */
    method Shrink(b: int, orig: nat, trueSize: nat)
      requires Valid() && b in v.blocks && v.blocks[b].kind == Live && v.blocks[b].size == orig
      requires trueSize % 8 == 0 && MIN_BLOCK <= trueSize && trueSize + MIN_BLOCK <= orig
      modifies `v, `size, index
      ensures Valid() && Reallocated(old(v), v, b, b) && v.blocks[b].size == trueSize
    {
      ghost var was := v;
      ShrinkBlock(b, orig, trueSize);
      InPlace(was, v, b, trueSize);
      CountedResize(was, v, b, realSize, realPeak, size, peak, cached, peak);
      size := size + (trueSize - orig);
    }

    method ShrinkBlock(b: int, orig: nat, trueSize: nat)
      requires Seen() && Core(v) && v.stale == 0 && OnlyInHand(v.blocks, {}) && Bounded(v.segs)
      requires b in v.blocks && v.blocks[b].kind == Live && v.blocks[b].size == orig
      requires trueSize % 8 == 0 && MIN_BLOCK <= trueSize && trueSize + MIN_BLOCK <= orig
      modifies `v, index
      ensures Seen() && Resized(old(v), v, b, trueSize, trueSize)
    {
      ghost var was := v;
      var total := MergeNext(b, orig);
      ghost var merged := v;
      PayloadShorter(was.mem, merged.mem, b, orig, trueSize);
      SplitOff(b, total, trueSize, false);
      AdvancedTrans(was, merged, v, b);
      PayloadTrans(was.mem, merged.mem, v.mem, b, trueSize);
    }

    /** A cached block of the right size takes the contents, and the old block goes to the cache. */
    method SwapCached(b: int, orig: nat, trueSize: nat) returns (c: int)
      requires Valid() && b in v.blocks && v.blocks[b].kind == Live && v.blocks[b].size == orig
      requires trueSize % 8 == 0 && orig < trueSize && SmallSize(trueSize) && MIN_BLOCK <= trueSize && |cache| == 64
      requires 0 <= BucketIndex(trueSize) < 64 && cache[BucketIndex(trueSize)] != 0
      modifies `v, `cache, `cached, index
      ensures Valid() && Reallocated(old(v), v, b, c) && v.blocks[c].size == trueSize
    {
      ghost var was := v;
      c := SwapBlocks(b, orig, trueSize);
      CountedSwap(was, v, b, c, realSize, realPeak, size, peak, cached);
      cached := cached - (trueSize - orig);
    }

    method SwapBlocks(b: int, orig: nat, trueSize: nat) returns (c: int)
      requires Seen() && Core(v) && v.stale == 0 && v.heads == cache && OnlyInHand(v.blocks, {})
      requires b in v.blocks && v.blocks[b].kind == Live && v.blocks[b].size == orig
      requires trueSize % 8 == 0 && orig < trueSize && SmallSize(trueSize) && MIN_BLOCK <= trueSize && |cache| == 64
      requires 0 <= BucketIndex(trueSize) < 64 && cache[BucketIndex(trueSize)] != 0
      modifies `v, `cache, index
      ensures Seen() && Core(v) && v.stale == 0 && v.heads == cache && OnlyInHand(v.blocks, {}) && v.segs == old(v).segs
      ensures Reallocated(old(v), v, b, c) && v.blocks[c].size == trueSize
      ensures c in old(v).blocks && old(v).blocks[c].kind == Cached && old(v).blocks[c].size == trueSize
      ensures CachedBlocks(v.blocks) == (CachedBlocks(old(v).blocks) - {c})[b := orig]
    {
      ghost var was := v;
      Next(v, b);
      BucketBijection(trueSize, BucketIndex(trueSize));
      c := CachePop(BucketIndex(trueSize));
      ghost var popped := v;
      AllottedFrom(was, v, c);
      CopyWords(b, c, orig - HEADER);
      ghost var copied := v;
      CachePush(b, orig);
      MoveDone(was, popped, copied, v, b, c);
    }

    /** The next block is free and makes block b large enough. */
    method GrowInPlace(b: int, orig: nat, trueSize: nat)
      requires Valid() && b in v.blocks && v.blocks[b].kind == Live && v.blocks[b].size == orig < trueSize && trueSize % 8 == 0
      requires b + orig in v.blocks && v.blocks[b + orig].kind == Free && orig + v.blocks[b + orig].size >= trueSize
      modifies `v, `size, `peak, index
      ensures Valid() && Reallocated(old(v), v, b, b) && v.blocks[b].size >= trueSize
    {
      ghost var was := v;
      var used := GrowBlock(b, orig, trueSize);
      InPlace(was, v, b, orig);
      CountedResize(was, v, b, realSize, realPeak, size, peak, cached, if peak < size + used - orig then size + used - orig else peak);
      Charge(used - orig);
    }

    method GrowBlock(b: int, orig: nat, trueSize: nat) returns (used: nat)
      requires Seen() && Core(v) && v.stale == 0 && OnlyInHand(v.blocks, {}) && Bounded(v.segs)
      requires b in v.blocks && v.blocks[b].kind == Live && v.blocks[b].size == orig < trueSize && trueSize % 8 == 0
      requires b + orig in v.blocks && v.blocks[b + orig].kind == Free && orig + v.blocks[b + orig].size >= trueSize
      modifies `v, index
      ensures Seen() && Resized(old(v), v, b, used, orig) && used >= trueSize
    {
      ghost var was := v;
      Next(v, b);
      var total := MergeNext(b, orig);
      ghost var merged := v;
      Next(v, b);
      Before(v, b);
      ReadBefore(v, b);
      ReadTag(v, b + total);
      // A remainder that reaches from here to the guard goes to the rest list.
      var keepRest := IsFirstTag(index.mem[b + 8]) && IsGuardTag(index.mem[b + total]);
      used := Carve(b, total, trueSize, keepRest);
      AdvancedTrans(was, merged, v, b);
      PayloadShorter(merged.mem, v.mem, b, used, orig);
      PayloadTrans(was.mem, merged.mem, v.mem, b, orig);
    }

    // ---------- a segment grows ----------

    /** The storage layer: it refuses, or hands out a region that may overlap the old segment. */
    method StorageRealloc(segment: int, oldLen: nat, len: nat) returns (at: int, fill: Mem)
      requires Seen() && Core(v) && len > 0 && segment in v.segs && oldLen == v.segs[segment]
      ensures at != 0 ==> FreshRegion(v.segs - {segment}, v.base, at, len) && at + len <= TOP
      ensures at != 0 ==> Unused(Unmapped(index.mem, segment, oldLen), at, len)
    {
      at, fill := *, *;
      if !(at > 0 && at % 8 == 0 && at + len <= TOP && Unused(Unmapped(index.mem, segment, oldLen), at, len)) {
        return 0, fill;
      }
      UnusedButOld(v, segment, at, len);
    }

    /** The words of the segment move to the region at `at`; the pointer to it and its marks follow. */
    method Relocate(segment: int, oldLen: nat, at: int, len: nat, fill: Mem, ghost b: int, ghost j: nat)
      requires Seen() && Core(v) && FillsSegment(v, b, segment, oldLen) && j < |v.order| && v.order[j] == segment
      requires len % 8 == 0 && len >= 64 && len > oldLen && FreshRegion(v.segs - {segment}, v.base, at, len)
      requires Unused(Unmapped(index.mem, segment, oldLen), at, len)
      modifies `segmentsList, index
      ensures index.Sealed() && index.l == old(index.l)
      ensures segmentsList == if j == 0 then at else old(segmentsList)
      ensures KeptOutside(v.mem, index.mem, segment, oldLen, LinkTo(v.order, j))
      ensures j > 0 ==> Holds(index.mem, v.order[j - 1] + 8, at)
      ensures Prepared(index.mem, at, len, Chains.After(v.order, j))
      ensures Copied(v.mem, index.mem, segment + 32, at + 32, oldLen - 48)
    {
      MoveWords(segment, oldLen, at, len, fill, b);
      ClearMoved(v, index.l, b, segment, oldLen, at, len);
      LinksKept(v, segment, at, len, fill, j);
      LinkOutside(v, segment, oldLen, at, len, fill, j);
      MarkSegment(segment, at, len, j);
      RelocateDone(v, index.mem, b, segment, oldLen, at, len, fill, j);
    }

    /** The size, the pointer, the first-block mark and the guard of the moved segment. */
    method MarkSegment(segment: int, at: int, len: nat, ghost j: nat)
      requires index.Sealed() && Core(v) && index.buckets == v.base && index.l.size == v.size && segmentsList == v.first
      requires Clear(index.l, at, len) && len >= 64 && at > 0 && j < |v.order| && v.order[j] == segment
      requires forall i {:trigger v.order[i]} ::
                 0 <= i < j ==> v.order[i] != segment && Holds(index.mem[at := len], v.order[i] + 8, Chains.After(v.order, i))
      requires j > 0 ==> LinkTo(v.order, j) != 0 && !Inner(at, len, LinkTo(v.order, j))
      modifies `segmentsList, index
      ensures index.Sealed() && index.l == old(index.l)
      ensures segmentsList == if j == 0 then at else old(segmentsList)
      ensures MarkedAs(old(index.mem), index.mem, segment, at, len, LinkTo(v.order, j))
    {
      MarksOf(index.mem, segment, at, len, LinkTo(v.order, j));
      index.Remap(index.mem[at := len], at, len);
      PointTo(segment, at, len, j);
      index.Remap(index.mem[at + len - 16 := 3 + HEADER], at, len);
    }

    /** If the segment has moved, the pointer to it and the first-block mark follow. */
    method PointTo(segment: int, at: int, len: nat, ghost j: nat)
      requires index.Sealed() && Core(v) && index.buckets == v.base && index.l.size == v.size && segmentsList == v.first
      requires Clear(index.l, at, len) && len >= 64 && at > 0 && j < |v.order| && v.order[j] == segment
      requires forall i {:trigger v.order[i]} :: 0 <= i < j ==> v.order[i] != segment && Holds(index.mem, v.order[i] + 8, Chains.After(v.order, i))
      requires j > 0 ==> LinkTo(v.order, j) != 0
      modifies `segmentsList, index
      ensures index.Sealed() && index.l == old(index.l)
      ensures segmentsList == if j == 0 then at else old(segmentsList)
      ensures index.mem == Pointed(old(index.mem), segment, at, LinkTo(v.order, j))
    {
      LinksTo(v, j);
      if at != segment {
        Relink(segment, at, j);
        index.Remap(index.mem[at + 24 := 3], at, len);
      }
    }

    /** What the storage layer does to memory when it moves a segment. */
    method MoveWords(segment: int, oldLen: nat, at: int, len: nat, fill: Mem, ghost b: int)
      requires Seen() && Core(v) && FillsSegment(v, b, segment, oldLen) && len >= 64 && FreshRegion(v.segs - {segment}, v.base, at, len)
      modifies index
      ensures index.Sealed() && index.l == old(index.l)
      ensures index.mem == MovedMem(v.mem, segment, oldLen, at, len, fill)
    {
      var m := index.mem;
      ClearSegment(v, index.l, b);
      ClearMoved(v, index.l, b, segment, oldLen, at, len);
      index.Remap(Unmapped(m, segment, oldLen), segment, oldLen);
      index.Remap(index.mem + MovedWords(m, segment, oldLen, at, len, fill), at, len);
    }

    /** The pointer to the old segment becomes a pointer to the new one. */
    method Relink(segment: int, at: int, ghost j: nat)
      requires index.Sealed() && Core(v) && index.buckets == v.base && index.l.size == v.size && segmentsList == v.first
      requires j < |v.order| && v.order[j] == segment
      requires forall i {:trigger v.order[i]} :: 0 <= i < j ==> v.order[i] != segment && Holds(index.mem, v.order[i] + 8, Chains.After(v.order, i))
      modifies `segmentsList, index
      ensures index.Sealed() && index.l == old(index.l)
      ensures segmentsList == if j == 0 then at else old(segmentsList)
      ensures index.mem == if j == 0 then old(index.mem) else old(index.mem)[v.order[j - 1] + 8 := at]
    {
      LinksTo(v, j);
      var link := FindLink(segment, v.order, j);
      if link == 0 {
        segmentsList := at;
      } else {
        ClearHeader(v, index.l, link - 8, at);
        index.Remap(index.mem[link := at], link - 8, 16);
      }
    }

    /**
     The segment of block b gets `len` bytes, in place or elsewhere, and b grows to trueSize.  A free
     block behind b has left its list already.  0 when the storage layer refuses.
     */
    method Regrow(b: int, orig: nat, oldLen: nat, len: nat, trueSize: nat) returns (c: int, used: nat)
      requires Seen() && Core(v) && v.stale == 0 && Bounded(v.segs) && Growable(v, b, orig, trueSize)
      requires b - SEGMENT_HEADER in v.segs && v.segs[b - SEGMENT_HEADER] == oldLen
      requires len % 8 == 0 && len >= trueSize + 32 && trueSize % 8 == 0
      modifies `v, `segmentsList, index
      ensures Seen() && (c == 0 ==> v == old(v))
      ensures c != 0 ==> Regrown(old(v), v, b, c, oldLen, len) && v.blocks[c].size == used >= trueSize
    {
      var segment := b - SEGMENT_HEADER;
      Next(v, b);
      var at, fill := StorageRealloc(segment, oldLen, len);
      if at == 0 {
        return 0, 0;
      }
      c, used := RegrowAt(b, orig, oldLen, at, len, fill, trueSize);
    }

    /** The storage layer has a place for the segment. */
    method RegrowAt(b: int, orig: nat, oldLen: nat, at: int, len: nat, fill: Mem, trueSize: nat) returns (c: int, used: nat)
      requires Seen() && Core(v) && v.stale == 0 && Bounded(v.segs) && Growable(v, b, orig, trueSize)
      requires b - SEGMENT_HEADER in v.segs && v.segs[b - SEGMENT_HEADER] == oldLen && at > 0 && at + len <= TOP
      requires len % 8 == 0 && len >= trueSize + 32 && trueSize % 8 == 0 && trueSize >= MIN_BLOCK
      requires FreshRegion(v.segs - {b - SEGMENT_HEADER}, v.base, at, len) && Unused(Unmapped(index.mem, b - SEGMENT_HEADER, oldLen), at, len)
      modifies `v, `segmentsList, index
      ensures Seen() && c == at + SEGMENT_HEADER && Regrown(old(v), v, b, c, oldLen, len) && v.blocks[c].size == used >= trueSize
    {
      ghost var was := v;
      Next(v, b);
      ghost var fused := Replant(b, orig, oldLen, at, len, fill, trueSize);
      c := at + SEGMENT_HEADER;
      ghost var moved := v;
      used := Carve(c, len - 32, trueSize, true);
      RegrowDone(was, fused, moved, v, b, c, orig, oldLen, len, used);
    }

    /** Block b takes in a block in hand behind it and moves with its segment. */
    method Replant(b: int, orig: nat, oldLen: nat, at: int, len: nat, fill: Mem, trueSize: nat) returns (ghost fused: View)
      requires Seen() && Core(v) && v.stale == 0 && Bounded(v.segs) && Growable(v, b, orig, trueSize)
      requires b - SEGMENT_HEADER in v.segs && v.segs[b - SEGMENT_HEADER] == oldLen
      requires len % 8 == 0 && len >= trueSize + 32 && trueSize >= MIN_BLOCK && at + len <= TOP
      requires FreshRegion(v.segs - {b - SEGMENT_HEADER}, v.base, at, len)
      requires Unused(Unmapped(index.mem, b - SEGMENT_HEADER, oldLen), at, len)
      modifies `v, `segmentsList, index
      ensures Core(fused) && Advanced(old(v), fused, b) && fused.mem == old(v).mem && orig <= oldLen - 32 && oldLen < len
      ensures Seen() && MovedTo(fused, v, b, at + SEGMENT_HEADER, oldLen, len)
    {
      FuseRest(b, orig, oldLen, trueSize);
      fused := v;
      MoveSegment(b - SEGMENT_HEADER, oldLen, at, len, fill, b);
    }

    /** A block in hand behind b becomes part of it, so that b fills its segment. */
    ghost method FuseRest(b: int, orig: nat, oldLen: nat, trueSize: nat)
      requires Seen() && Core(v) && v.stale == 0 && Growable(v, b, orig, trueSize)
      requires b - SEGMENT_HEADER in v.segs && v.segs[b - SEGMENT_HEADER] == oldLen
      modifies `v
      ensures Seen() && Advanced(old(v), v, b) && v.mem == old(v).mem && v.stale in {0, b} && OnlyInHand(v.blocks, {})
      ensures FillsSegment(v, b, b - SEGMENT_HEADER, oldLen) && orig <= v.blocks[b].size < trueSize && v.blocks[b].kind == Live
    {
      SparedSelf(v, b);
      if v.blocks[b + orig].kind == InHand {
        Fuse(b, b);
      }
      Sole(v, b);
    }

    /** Block b, which fills its segment, moves with it. */
    method MoveSegment(segment: int, oldLen: nat, at: int, len: nat, fill: Mem, ghost b: int)
      requires Seen() && Core(v) && v.stale in {0, b} && FillsSegment(v, b, segment, oldLen) && v.blocks[b].kind == Live && OnlyInHand(v.blocks, {})
      requires len % 8 == 0 && len >= 64 && len > oldLen && FreshRegion(v.segs - {segment}, v.base, at, len)
      requires Unused(Unmapped(index.mem, segment, oldLen), at, len) && Bounded(v.segs) && at + len <= TOP
      modifies `v, `segmentsList, index
      ensures Seen() && MovedTo(old(v), v, b, at + SEGMENT_HEADER, oldLen, len)
    {
      ghost var was := v;
      ghost var j := SegmentPosition(v, segment);
      Relocate(segment, oldLen, at, len, fill, b, j);
      MoveStep(was, index.mem, b, j, at, len);
      v := was.(mem := index.mem, first := segmentsList, order := was.order[j := at], segs := (was.segs - {segment})[at := len],
                blocks := Moved(was.blocks, segment, at, len), stale := at + 16);
      MovedBlock(was, v, b, at, len);
    }

    /** The paths at realloc_segment: block b alone, or with one free block behind it, is in its segment. */
    method GrowSegment(b: int, orig: nat, trueSize: nat) returns (c: int)
      requires Valid() && trueSize % 8 == 0 && trueSize < WORD && LastBlock(v, b, orig, trueSize)
      modifies this, index
      ensures limit == old(limit)
      ensures c != 0 ==> Valid() && Reallocated(old(v), v, b, c) && v.blocks[c].size >= trueSize && realSize <= limit
      ensures c == 0 ==> Seen() && Core(v)
    {
      ghost var was := v;
      Next(v, b);
      TakeRest(b, orig, trueSize);
      CountedSame(was, v, realSize, realPeak, size, peak, cached);
      FirstBlock(v, b);
      var oldLen := index.mem[b - SEGMENT_HEADER];
      var segmentSize, _ := SegmentSizeFor(trueSize);
      if segmentSize < trueSize || !Within(realSize, segmentSize - oldLen, limit) {
        RefuseGrowth(b, orig, trueSize);
        return 0;
      }
      ghost var taken := v;
      c := GrowSegmentTo(b, orig, oldLen, segmentSize, trueSize);
      if c != 0 {
        ReallocatedLater(was, taken, v, b, c);
      }
    }

    /** zend_mm_remove_from_free_list for the block behind b, if it is free. */
    method TakeRest(b: int, orig: nat, trueSize: nat)
      requires Seen() && Core(v) && v.stale == 0 && OnlyInHand(v.blocks, {}) && LastBlock(v, b, orig, trueSize)
      modifies `v, index
      ensures Seen() && Advanced(old(v), v, 0) && v.stale == 0 && Growable(v, b, orig, trueSize)
    {
      SparedSelf(v, 0);
      Next(v, b);
      ReadTag(v, b + orig);
      if IsFreeTag(index.mem[b + orig]) {
        TakeFree(b + orig);
      }
    }

    /** When the limit forbids the growth, the block behind b goes back to its list. */
    method PutBack(b: int, orig: nat, trueSize: nat)
      requires Seen() && Core(v) && v.stale == 0 && Bounded(v.segs) && Growable(v, b, orig, trueSize)
      modifies `v, index
      ensures Seen() && Advanced(old(v), v, 0) && v.stale == 0 && OnlyInHand(v.blocks, {})
    {
      SparedSelf(v, 0);
      Next(v, b);
      ReadTag(v, b + orig);
      if IsFreeTag(index.mem[b + orig]) {
        SizeBounded(v, b + orig);
        ListFree(b + orig);
      }
    }

    /** The limit forbids the growth. */
    method RefuseGrowth(b: int, orig: nat, trueSize: nat)
      requires Seen() && Core(v) && v.stale == 0 && Bounded(v.segs) && Growable(v, b, orig, trueSize) && v.heads == cache
      requires cached == Sum(CachedBlocks(v.blocks)) && realSize == Sum(v.segs)
      modifies `v, `segmentsList, `realSize, `cached, `cache, index
      ensures Seen() && Core(v) && OnlyInHand(v.blocks, {})
    {
      PutBack(b, orig, trueSize);
      FreeCache();
    }

    /** The end of GrowSegment: the segment has room and stays within the limit. */
    method GrowSegmentTo(b: int, orig: nat, oldLen: nat, len: nat, trueSize: nat) returns (c: int)
      requires Seen() && Core(v) && v.stale == 0 && v.heads == cache && Bounded(v.segs) && Growable(v, b, orig, trueSize)
      requires SegmentUnit(blockSize) && blockSize <= limit < WORD && Counted(v, realSize, realPeak, size, peak, cached)
      requires b - SEGMENT_HEADER in v.segs && v.segs[b - SEGMENT_HEADER] == oldLen
      requires len % 8 == 0 && len >= trueSize + 32 && trueSize % 8 == 0 && Within(realSize, len - oldLen, limit)
      modifies this, index
      ensures limit == old(limit)
      ensures c != 0 ==> Valid() && Regrown(old(v), v, b, c, oldLen, len) && v.blocks[c].size >= trueSize && realSize <= limit
      ensures c == 0 ==> Seen() && Core(v)
    {
      ghost var was := v;
      var used;
      c, used := Regrow(b, orig, oldLen, len, trueSize);
      if c == 0 {
        return;
      }
      GrownCounted(was, v, b, c, oldLen, len, realSize, realPeak, size, peak, cached, limit);
      ChargeGrowth(len - oldLen, used - orig);
    }

    /** Both sizes grow, and the peaks follow. */
    method ChargeGrowth(more: int, used: int)
      modifies `realSize, `realPeak, `size, `peak
      ensures realSize == old(realSize) + more && realPeak == if old(realPeak) < realSize then realSize else old(realPeak)
      ensures size == old(size) + used && peak == if old(peak) < size then size else old(peak)
    {
      realSize := realSize + more;
      if realSize > realPeak {
        realPeak := realSize;
      }
      Charge(used);
    }

    // ---------- _zend_mm_realloc_int ----------

    /** The last resort: a new block, a copy, and the old block is released. */
    method MoveBlock(b: int, orig: nat, request: nat) returns (q: int)
      requires Valid() && request + 23 < WORD && orig < TrueSize(request)
      requires b in v.blocks && v.blocks[b].kind == Live && v.blocks[b].size == orig
      modifies this, index
      ensures limit == old(limit)
      ensures q != 0 ==> Valid() && Reallocated(old(v), v, b, q - HEADER) && v.blocks[q - HEADER].size >= request + HEADER
      ensures q != 0 ==> realSize <= old(realSize) || realSize <= limit
      ensures q == 0 ==> Seen() && Core(v)
    {
      ghost var was := v;
      q := AllocInt(request);
      if q == 0 {
        return;
      }
      StillThere(was, v, b, q - HEADER);
      HandOver(b, q - HEADER, orig, was);
    }

    /** Block c, allotted since `was`, gets the contents of block b, and b is released. */
    method HandOver(b: int, c: int, orig: nat, ghost was: View)
      requires Valid() && b in v.blocks && v.blocks[b].kind == Live && v.blocks[b].size == orig
      requires Core(was) && b in was.blocks && was.blocks[b].kind == Live && was.blocks[b].size == orig
      requires Allotted(was, v, c) && v.blocks[c].size >= orig && b != c
      modifies this, index
      ensures Valid() && limit == old(limit) && realSize <= old(realSize)
      ensures Reallocated(was, v, b, c) && v.blocks[c].size == old(v).blocks[c].size
    {
      ghost var allotted := v;
      Next(v, b);
      Transfer(b, c, orig);
      ghost var copied := v;
      FreeInt(b + HEADER);
      MoveDone(was, allotted, copied, v, b, c);
    }

    /** memcpy between the payloads of two allocated blocks. */
    method Transfer(b: int, c: int, orig: nat)
      requires Valid() && b != c && b in v.blocks && v.blocks[b].kind == Live && v.blocks[b].size == orig
      requires c in v.blocks && v.blocks[c].kind == Live && v.blocks[c].size >= orig
      modifies `v, index
      ensures Valid() && v.blocks == old(v).blocks
      ensures Copied(old(v).mem, v.mem, b + HEADER, c + HEADER, orig - HEADER)
      ensures Spared(old(v).mem, Allocated(v.blocks), v.mem, Allocated(v.blocks), c)
    {
      Next(v, b);
      CopyWords(b, c, orig - HEADER);
    }

    /** Block b must grow to trueSize: from the cache, in place, with its segment, or elsewhere. */
    method Grow(b: int, orig: nat, request: nat) returns (q: int)
      requires Valid() && request + 23 < WORD && orig < TrueSize(request)
      requires b in v.blocks && v.blocks[b].kind == Live && v.blocks[b].size == orig
      modifies this, index
      ensures limit == old(limit)
      ensures q != 0 ==> Valid() && Reallocated(old(v), v, b, q - HEADER) && v.blocks[q - HEADER].size >= request + HEADER
      ensures q != 0 ==> realSize <= old(realSize) || realSize <= limit
      ensures q == 0 ==> Seen() && Core(v)
    {
      var trueSize := TrueSize(request);
      TrueSizeFits(request);
      var hit := HasCached(trueSize);
      if hit {
        var c := SwapCached(b, orig, trueSize);
        return c + HEADER;
      }
      q := GrowOrMove(b, orig, request, trueSize);
    }

    /** Whether the cache has a block of exactly this size. */
    method HasCached(trueSize: nat) returns (yes: bool)
      requires Valid() && trueSize % 8 == 0 && MIN_BLOCK <= trueSize
      ensures |cache| == 64 && (yes <==> SmallSize(trueSize) && 0 <= BucketIndex(trueSize) < 64 && cache[BucketIndex(trueSize)] != 0)
    {
      CacheSize(v);
      BucketBijection(trueSize, 0);
      yes := SmallSize(trueSize) && cache[BucketIndex(trueSize)] != 0;
    }

    /** No cached block will do. */
    method GrowOrMove(b: int, orig: nat, request: nat, trueSize: nat) returns (q: int)
      requires Valid() && request + 23 < WORD && orig < trueSize == TrueSize(request) < WORD && trueSize % 8 == 0 && trueSize >= request + HEADER
      requires b in v.blocks && v.blocks[b].kind == Live && v.blocks[b].size == orig
      modifies this, index
      ensures limit == old(limit)
      ensures q != 0 ==> Valid() && Reallocated(old(v), v, b, q - HEADER) && v.blocks[q - HEADER].size >= request + HEADER
      ensures q != 0 ==> realSize <= old(realSize) || realSize <= limit
      ensures q == 0 ==> Seen() && Core(v)
    {
      var room := RoomBehind(b, orig, trueSize);
      if room == Enough {
        GrowInPlace(b, orig, trueSize);
        return b + HEADER;
      } else if room == Segment {
        var c := GrowSegment(b, orig, trueSize);
        return if c != 0 then c + HEADER else 0;
      }
      q := MoveBlock(b, orig, request);
    }

    /** Whether the free block behind b is large enough, or else b can only grow with its segment. */
    method RoomBehind(b: int, orig: nat, trueSize: nat) returns (room: Room)
      requires Seen() && Core(v) && v.stale == 0 && OnlyInHand(v.blocks, {})
      requires b in v.blocks && v.blocks[b].kind == Live && v.blocks[b].size == orig < trueSize
      ensures room == Enough ==> b + orig in v.blocks && v.blocks[b + orig].kind == Free && orig + v.blocks[b + orig].size >= trueSize
      ensures room == Segment ==> LastBlock(v, b, orig, trueSize)
      ensures room == Elsewhere ==> !LastBlock(v, b, orig, trueSize)
    {
      var next := b + orig;
      Next(v, b);
      Before(v, b);
      ReadBefore(v, b);
      ReadTag(v, next);
      room := Elsewhere;
      if IsFreeTag(index.mem[next]) {
        Next(v, next);
        if orig + BlockSize(index.mem[next]) >= trueSize {
          room := Enough;
        } else {
          ReadTag(v, next + BlockSize(index.mem[next]));
          if IsFirstTag(index.mem[b + 8]) && IsGuardTag(index.mem[next + BlockSize(index.mem[next])]) {
            room := Segment;
          }
        }
      } else if IsFirstTag(index.mem[b + 8]) && IsGuardTag(index.mem[next]) {
        room := Segment;
      }
    }

    /** _zend_mm_realloc_int.  0 when the request cannot be met, as for AllocInt. */
    method ReallocInt(p: int, request: nat) returns (q: int)
      requires Valid() && request < WORD && (p == 0 || p - HEADER in Allocated(v.blocks))
      modifies this, index
      ensures limit == old(limit)
      ensures q != 0 ==> Valid() && q - HEADER in v.blocks && v.blocks[q - HEADER].size >= request + HEADER
      ensures q != 0 ==> realSize <= old(realSize) || realSize <= limit
      ensures q != 0 && p == 0 ==> Allotted(old(v), v, q - HEADER)
      ensures q != 0 && p != 0 ==> Reallocated(old(v), v, p - HEADER, q - HEADER)
      ensures q == 0 ==> Seen() && Core(v)
    {
      if p == 0 {
        q := AllocInt(request);
        return;
      }
      q := ReallocBlock(p - HEADER, request);
    }

    /** The block b must hold request bytes. */
    method ReallocBlock(b: int, request: nat) returns (q: int)
      requires Valid() && request < WORD && b in v.blocks && v.blocks[b].kind == Live
      modifies this, index
      ensures limit == old(limit)
      ensures q != 0 ==> Valid() && Reallocated(old(v), v, b, q - HEADER) && v.blocks[q - HEADER].size >= request + HEADER
      ensures q != 0 ==> realSize <= old(realSize) || realSize <= limit
      ensures q == 0 ==> Seen() && Core(v)
    {
      var trueSize := TrueSize(request);
      TrueSizeFits(request);
      Next(v, b);
      ReadTag(v, b);
      var orig := BlockSize(index.mem[b]);
      if trueSize < request {
        return 0;
      }
      if trueSize <= orig {
        Keep(b, orig, trueSize);
        return b + HEADER;
      }
      q := Grow(b, orig, request);
    }

    /** The block is large enough already. */
    method Keep(b: int, orig: nat, trueSize: nat)
      requires Valid() && b in v.blocks && v.blocks[b].kind == Live && v.blocks[b].size == orig
      requires trueSize % 8 == 0 && MIN_BLOCK <= trueSize <= orig
      modifies `v, `size, index
      ensures Valid() && Reallocated(old(v), v, b, b) && v.blocks[b].size == if orig - trueSize >= MIN_BLOCK then trueSize else orig
    {
      if orig - trueSize >= MIN_BLOCK {
        Shrink(b, orig, trueSize);
      } else {
        SparedSelf(v, b);
        InPlace(v, v, b, orig);
      }
    }

    // ---------- the program's view ----------

    /** The program writes the word at `offset` of the payload of an allocated block. */
    method Store(p: int, offset: nat, x: int)
      requires Valid() && p - HEADER in Allocated(v.blocks)
      requires offset % 8 == 0 && HEADER + offset + 8 <= Allocated(v.blocks)[p - HEADER]
      modifies `v, index
      ensures Valid() && v.blocks == old(v).blocks && p + offset in old(v).mem && v.mem == old(v).mem[p + offset := x]
      ensures Spared(old(v).mem, Allocated(v.blocks), v.mem, Allocated(v.blocks), p - HEADER)
    {
      PayloadWord(v, p - HEADER, p + offset);
      WriteWord(p - HEADER, p + offset, x);
    }

    /** zend_memory_usage: the bytes of all segments, or the bytes of the allocated blocks. */
    method MemoryUsage(realUsage: bool) returns (bytes: int)
      requires Valid()
      ensures bytes == if realUsage then Sum(v.segs) else Sum(Allocated(v.blocks))
    {
      bytes := if realUsage then realSize else size - cached;
    }

    /** zend_set_memory_limit. */
    method SetLimit(memoryLimit: nat)
      requires Valid() && memoryLimit < WORD
      modifies `limit
      ensures Valid() && limit >= memoryLimit && (memoryLimit >= blockSize ==> limit == memoryLimit)
    {
      limit := if memoryLimit >= blockSize then memoryLimit else blockSize;
    }
  }
}
