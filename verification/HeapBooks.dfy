/** What the heap's methods reckon with: tags as they are read, relations between states, and the accounts. */
module HeapBooks {
  import opened Bits
  import opened FreeLists
  import opened Memory
  import opened Blocks
  import opened Chains
  import opened Sums
  import opened HeapView
  import opened HeapSteps
  import opened CacheSteps
  import opened SegmentSteps
  import opened IndexSteps

  const CACHE_SIZE: nat := 262144

  // ---------- tags, as the source reads them ----------

  function BlockSize(tag: int): int { tag - tag % 4 }

  predicate IsFreeTag(tag: int) { tag % 2 == 0 }

  predicate IsGuardTag(tag: int) { tag % 4 == 3 }

  predicate IsFirstTag(before: int) { before == 3 }

  lemma Mod4(a: nat, q: nat, r: nat)
    requires a == 4 * q + r && r < 4
    ensures a % 4 == r
  {
  }

  lemma Mod2(a: nat, q: nat, r: nat)
    requires a == 2 * q + r && r < 2
    ensures a % 2 == r
  {
  }

  lemma Eighth(size: nat) returns (q: nat)
    requires size % 8 == 0
    ensures size == 8 * q
  {
    q := size / 8;
  }

  lemma TagParts(q: nat, k: Kind)
    ensures BlockSize(Tag(8 * q, k)) == 8 * q
    ensures IsFreeTag(Tag(8 * q, k)) <==> k in {Free, InHand}
    ensures IsGuardTag(Tag(8 * q, k)) <==> k == Guard
    ensures q > 0 ==> Tag(8 * q, k) != 3
  {
    var bits := TypeBits(k);
    Mod4(8 * q + bits, 2 * q, bits);
    Mod2(8 * q + bits, if bits == 3 then 4 * q + 1 else 4 * q, if bits == 0 then 0 else 1);
  }

  lemma ReadTag(v: View, b: int)
    requires Core(v) && b in v.blocks && b != v.stale
    ensures b in v.mem && v.mem[b] == Tag(v.blocks[b].size, v.blocks[b].kind)
    ensures BlockSize(v.mem[b]) == v.blocks[b].size
    ensures IsFreeTag(v.mem[b]) <==> v.blocks[b].kind in {Free, InHand}
    ensures IsGuardTag(v.mem[b]) <==> v.blocks[b].kind == Guard
  {
    assert Key(0);
    assert TagsAt(v.mem, v.blocks, v.stale, b);
    Inside(v.blocks, v.segs, v.base, b);
    var q := Eighth(v.blocks[b].size);
    TagParts(q, v.blocks[b].kind);
  }

  /** The second tag tells whether the block is the first of its segment, and about the block before it. */
  lemma ReadBefore(v: View, b: int)
    requires Core(v) && b in v.blocks && (v.blocks[b].before == 0 || b - v.blocks[b].before != v.stale)
    ensures b + 8 in v.mem
    ensures IsFirstTag(v.mem[b + 8]) <==> v.blocks[b].before == 0
    ensures v.blocks[b].before != 0 ==> b - v.blocks[b].before in v.blocks && BlockSize(v.mem[b + 8]) == v.blocks[b].before
    ensures IsFreeTag(v.mem[b + 8]) <==>
              v.blocks[b].before != 0 && b - v.blocks[b].before in v.blocks && v.blocks[b - v.blocks[b].before].kind in {Free, InHand}
  {
    assert Key(0);
    assert TagsAt(v.mem, v.blocks, v.stale, b);
    Predecessor(v, b);
    if v.blocks[b].before != 0 {
      Inside(v.blocks, v.segs, v.base, b - v.blocks[b].before);
      var q := Eighth(v.blocks[b].before);
      TagParts(q, v.blocks[b - v.blocks[b].before].kind);
    }
  }

  /** A block that is not the guard, and the one behind it. */
  lemma Next(v: View, b: int)
    requires Core(v) && b in v.blocks && v.blocks[b].kind != Guard
    ensures b + v.blocks[b].size in v.blocks && v.blocks[b + v.blocks[b].size].before == v.blocks[b].size
    ensures v.blocks[b].size % 8 == 0 && v.blocks[b].size >= MIN_BLOCK && b > 0
    ensures v.blocks[b].kind == Free ==> v.blocks[b + v.blocks[b].size].kind != Free
  {
    assert Key(0);
    NextBlock(v.blocks, v.segs, v.base, b);
    Inside(v.blocks, v.segs, v.base, b);
  }

  lemma FreeListed(v: View, b: int)
    requires Core(v) && b in v.blocks && v.blocks[b].kind == Free
    ensures b in v.size
  {
    assert Key(0);
    assert b in FreeBlocks(v.blocks);
  }

  // ---------- relations between states ----------

  /** Only the blocks in s, if any, are in hand. */
  ghost predicate OnlyInHand(bl: Blocks, s: set<int>) {
    forall b {:trigger bl[b].kind} :: b in bl && bl[b].kind == InHand ==> b in s
  }

  /** The block before b, if there is one, is in use. */
  ghost predicate PrevUsed(bl: Blocks, b: int)
    requires b in bl
  {
    bl[b].before != 0 && b - bl[b].before in bl ==> bl[b - bl[b].before].kind !in {Free, InHand}
  }

  /** From v to w only block b was touched; cache and segments are the same. */
  ghost predicate Advanced(v: View, w: View, b: int) {
    && Core(w)
    && Spared(v.mem, Allocated(v.blocks), w.mem, Allocated(w.blocks), b)
    && CachedBlocks(w.blocks) == CachedBlocks(v.blocks)
    && w.base == v.base && w.first == v.first && w.heads == v.heads
    && w.segs == v.segs && w.order == v.order && w.chains == v.chains
  }

  lemma AdvancedTrans(u: View, v: View, w: View, b: int)
    requires Advanced(u, v, b) && Advanced(v, w, b)
    ensures Advanced(u, w, b)
  {
    assert Key(0);
    SparedTrans(u.mem, Allocated(u.blocks), v.mem, Allocated(v.blocks), w.mem, Allocated(w.blocks), b);
  }

  /** What spares every block but some also spares every block but b. */
  lemma SparedMore(m: Mem, live: Sizes, n: Mem, live': Sizes, b: int)
    requires Spared(m, live, n, live', 0) && 0 !in live && 0 !in live'
    ensures Spared(m, live, n, live', b)
  {
    assert live - {0} == live && live' - {0} == live';
    forall x {:trigger PayloadKept(m, n, x, live[x])} | x in live && x != b ensures PayloadKept(m, n, x, live[x]) {
    }
  }

  lemma NoBlockAtZero(v: View)
    requires Core(v)
    ensures 0 !in v.blocks
  {
    assert Key(0);
    if 0 in v.blocks { Predecessor(v, 0); }
  }

  /** The end of the address space in which the storage layer hands out segments. */
  const TOP: nat := 0x4000_0000_0000_0000

  ghost predicate Bounded(segs: Segments) {
    forall g :: g in segs ==> g + segs[g] <= TOP
  }

  lemma SizeBounded(v: View, b: int)
    requires Core(v) && Bounded(v.segs) && b in v.blocks
    ensures v.blocks[b].size <= TOP
  {
    assert Key(0);
    Inside(v.blocks, v.segs, v.base, b);
    assert SegmentOk(v.blocks, v.segs, v.base, v.blocks[b].seg);
  }

  /** The checks the start-up code makes: a power of two, at least the two headers. */
  predicate SegmentUnit(n: nat) { 32 <= n <= TOP && High(n) == Low(n) }

  /** No link word is in a block that is not free or in the tags behind it. */
  lemma ClearBlock(v: View, l: Lists, b: int)
    requires Core(v) && Open(v, b) && l.base == v.base && l.size == v.size
    requires b + v.blocks[b].size in v.blocks ==> v.blocks[b + v.blocks[b].size].kind != Free
    ensures Clear(l, b, v.blocks[b].size + 16)
    ensures KeptBeyond(v.mem, BlockWrite(v.mem, b, v.blocks[b].size, 0), b, v.blocks[b].size + 16)
    ensures KeptBeyond(v.mem, BlockWrite(v.mem, b, v.blocks[b].size, 1), b, v.blocks[b].size + 16)
  {
    assert Key(0);
    var e := b + v.blocks[b].size;
    NextBlock(v.blocks, v.segs, v.base, b);
    Inside(v.blocks, v.segs, v.base, b);
    Inside(v.blocks, v.segs, v.base, e);
    forall y {:trigger ClearOf(l, b, v.blocks[b].size + 16, y)} | y in l.size ensures ClearOf(l, b, v.blocks[b].size + 16, y) {
      assert BlocksApart(v.blocks, y, b) && BlocksApart(v.blocks, y, e);
    }
  }

  lemma FirstHalf(v: View, b: int, n: nat)
    requires n + 16 <= (if b in v.blocks then v.blocks[b].size else 0)
    ensures var m := BlockWrite(v.mem, b, n, 1);
            && KeptBeyond(v.mem, m, b, v.blocks[b].size + 16)
            && KeptBeyond(m, BlockWrite(m, b + n, v.blocks[b].size - n, 0), b, v.blocks[b].size + 16)
  {
  }

  lemma SparedSelf(v: View, b: int)
    requires Core(v)
    ensures Advanced(v, v, b)
  {
    assert Key(0);
    LinksStepNone(v);
    NoBlockAtZero(v);
    SparedMore(v.mem, Allocated(v.blocks), v.mem, Allocated(v.blocks), b);
  }

  lemma LinksStepNone(v: View)
    requires Core(v)
    ensures Spared(v.mem, Allocated(v.blocks), v.mem, Allocated(v.blocks), 0)
  {
    assert Key(0);
  }

  lemma AdvancedMore(u: View, w: View, b: int)
    requires Core(u) && Advanced(u, w, 0)
    ensures Advanced(u, w, b)
  {
    assert Key(0);
    NoBlockAtZero(u);
    NoBlockAtZero(w);
    SparedMore(u.mem, Allocated(u.blocks), w.mem, Allocated(w.blocks), b);
  }

  lemma NextNotInHand(v: View, b: int)
    requires Core(v) && b in v.blocks && OnlyInHand(v.blocks, {b}) && b + v.blocks[b].size in v.blocks
    ensures v.blocks[b + v.blocks[b].size].kind != InHand
  {
    assert Key(0);
    Inside(v.blocks, v.segs, v.base, b);
  }

  /** The block before b, if there is one. */
  lemma Before(v: View, b: int)
    requires Core(v) && b in v.blocks
    ensures var p := b - v.blocks[b].before;
            v.blocks[b].before != 0 ==>
              && p in v.blocks && p + v.blocks[p].size == b && 0 < p < b && v.blocks[p].seg == v.blocks[b].seg && v.blocks[p].kind != Guard
              && (v.blocks[b].kind == Free ==> v.blocks[p].kind != Free)
  {
    assert Key(0);
    Predecessor(v, b);
    assert BlockOk(v.blocks, v.segs, b);
  }

  /** Block b takes in the free block behind it. */
  lemma NextFused(v: View, b: int)
    requires Core(v) && Open(v, b) && OnlyInHand(v.blocks, {b})
    requires b + v.blocks[b].size in v.blocks && v.blocks[b + v.blocks[b].size].kind == Free
    ensures var c := b + v.blocks[b].size;
            var s := v.blocks[b].size + v.blocks[c].size;
            && v.blocks[c].size > 0 && c + v.blocks[c].size in v.blocks
            && var bl := Merge(SetKind(v.blocks, c, InHand), b);
            && OnlyInHand(bl, {b}) && b in bl && bl[b] == v.blocks[b].(size := s)
            && b + s in bl && bl[b + s].kind !in {Free, InHand}
            && forall x :: x < b && x in v.blocks ==> x in bl && bl[x] == v.blocks[x]
  {
    Next(v, b);
    Next(v, b + v.blocks[b].size);
  }

  /** The free block c takes in the block b behind it. */
  lemma PrevFused(v: View, b: int, c: int)
    requires Core(v) && Open(v, b) && OnlyInHand(v.blocks, {b}) && v.blocks[b].before != 0 && c == b - v.blocks[b].before
    requires c in v.blocks && v.blocks[c].kind == Free && b + v.blocks[b].size in v.blocks
    ensures c + v.blocks[c].size == b
    ensures var bl := Merge(SetKind(v.blocks, c, InHand), c);
            && OnlyInHand(bl, {c}) && c in bl && bl[c] == v.blocks[c].(size := v.blocks[c].size + v.blocks[b].size, kind := InHand)
            && bl[c].seg == v.blocks[b].seg && PrevUsed(bl, c)
            && b + v.blocks[b].size in bl && bl[b + v.blocks[b].size].kind == v.blocks[b + v.blocks[b].size].kind
  {
    Before(v, b);
    Before(v, c);
    Next(v, b);
  }

  /** The remainder of a split lies between a used block and one that is not free. */
  lemma SplitRemainder(v: View, b: int, n: nat)
    requires Core(v) && Open(v, b) && OnlyInHand(v.blocks, {b})
    requires n % 8 == 0 && MIN_BLOCK <= n && n + MIN_BLOCK <= v.blocks[b].size
    requires b + v.blocks[b].size in v.blocks && v.blocks[b + v.blocks[b].size].kind != Free
    ensures var bl := Split(v.blocks, b, n, Live, InHand);
            && OnlyInHand(bl, {b + n}) && Lonely(bl, b + n)
            && b in bl && bl[b] == v.blocks[b].(size := n, kind := Live)
            && b + n in bl && bl[b + n].size == v.blocks[b].size - n && bl[b + n].kind == InHand
  {
  }

  // ---------- segments ----------

  function Unmapped(m: Mem, g: int, n: int): Mem { map a | a in m && !(g <= a < g + n) :: m[a] }

  lemma SegmentPosition(v: View, g: int) returns (k: nat)
    requires Core(v) && g in v.segs
    ensures k < |v.order| && v.order[k] == g
  {
    assert Key(0);
    assert g in v.order;
    k :| 0 <= k < |v.order| && v.order[k] == g;
  }

  lemma FirstSegment(v: View)
    requires Core(v) && v.segs != map[]
    ensures v.order != [] && v.first == v.order[0]
  {
    assert Key(0);
    assert v.order == [] ==> v.segs.Keys == {} by {
      assert forall g :: g in v.segs <==> g in v.order;
    }
  }

  lemma SegmentWords(v: View, j: nat)
    requires Core(v) && j < |v.order|
    ensures v.order[j] in v.segs && v.order[j] > 0 && v.order[j] % 8 == 0
    ensures v.order[j] + 8 in v.mem && v.mem[v.order[j] + 8] == Chains.After(v.order, j)
    ensures v.order[j] in v.mem && v.mem[v.order[j]] == v.segs[v.order[j]]
    ensures forall k :: 0 <= k < |v.order| && k != j ==> v.order[k] != v.order[j]
    ensures j == 0 <==> v.first == v.order[j]
  {
    assert Key(0);
    assert v.order[j] in v.order;
    assert LinkAt(v.mem, 8, v.order, j) && SegmentSize(v.mem, v.segs, v.order[j]);
    HeaderMapped(v, v.order[j]);
  }

  /** What the walk to the segment at position j reads, and what it finds there. */
  lemma LinksTo(v: View, j: nat)
    requires Core(v) && j < |v.order|
    ensures v.first == v.order[0] && forall i {:trigger v.order[i]} :: 0 <= i < j ==> v.order[i] != v.order[j] && v.order[i] in v.segs && v.order[i] > 0 && Holds(v.mem, v.order[i] + 8, Chains.After(v.order, i))
    ensures v.order[j] in v.segs && Holds(v.mem, v.order[j] + 8, Chains.After(v.order, j)) && Holds(v.mem, v.order[j], v.segs[v.order[j]])
  {
    FirstSegment(v) by { SegmentWords(v, j); }
    SegmentWords(v, j);
    forall i {:trigger v.order[i]} | 0 <= i < j
      ensures v.order[i] != v.order[j] && v.order[i] in v.segs && v.order[i] > 0 && Holds(v.mem, v.order[i] + 8, Chains.After(v.order, i))
    {
      SegmentWords(v, i);
    }
  }

  /** Memory after the pointer to a segment was changed and the segment unmapped. */
  ghost function CutMem(v: View, j: nat): Mem
    requires j < |v.order| && v.order[j] in v.segs
  {
    Unmapped(if j == 0 then v.mem else v.mem[v.order[j - 1] + 8 := Chains.After(v.order, j)], v.order[j], v.segs[v.order[j]])
  }

  ghost function CutView(v: View, j: nat): View
    requires j < |v.order| && v.order[j] in v.segs
  {
    v.(mem := CutMem(v, j), first := if j == 0 then Chains.After(v.order, 0) else v.first,
       order := v.order[..j] + v.order[j + 1..], segs := v.segs - {v.order[j]}, blocks := DropSegment(v.blocks, v.order[j]), stale := 0)
  }

  /** From v to w the segment of block b was given back. */
  ghost predicate SegmentGone(v: View, w: View, g: int, b: int, r: int, r': int) {
    && Core(w) && w.stale == 0 && g in v.segs && r' == r - v.segs[g]
    && w.segs == v.segs - {g} && w.blocks == DropSegment(v.blocks, g)
    && Spared(v.mem, Allocated(v.blocks), w.mem, Allocated(w.blocks), b) && CachedBlocks(w.blocks) == CachedBlocks(v.blocks)
    && w.heads == v.heads && w.chains == v.chains && w.base == v.base
  }

  lemma SegmentCut(v: View, b: int, j: nat, r: int)
    requires Core(v) && Open(v, b) && v.stale in {0, b} && v.blocks[b].before == 0
    requires b + v.blocks[b].size in v.blocks && v.blocks[b + v.blocks[b].size].kind == Guard
    requires j < |v.order| && v.order[j] == b - SEGMENT_HEADER && b - SEGMENT_HEADER in v.segs
    ensures SegmentGone(v, CutView(v, j), v.order[j], b, r, r - v.segs[v.order[j]])
  {
    LinksTo(v, j);
    if j > 0 { HeadersApart(v, v.order[j], v.order[j - 1]); }
    DropStep(v, CutMem(v, j), b, j);
  }

  lemma HeadersApart(v: View, g: int, h: int)
    requires Core(v) && g in v.segs && h in v.segs && g != h
    ensures Apart(g, v.segs[g], h, SEGMENT_HEADER)
  {
    assert Key(0);
    HeaderMapped(v, h);
    assert SegmentsApart(v.segs, g, h);
  }

  lemma Sole(v: View, b: int)
    requires Core(v) && Open(v, b) && v.blocks[b].before == 0
    requires b + v.blocks[b].size in v.blocks && v.blocks[b + v.blocks[b].size].kind == Guard
    ensures v.blocks[b].seg == b - SEGMENT_HEADER && b - SEGMENT_HEADER in v.segs && v.segs[b - SEGMENT_HEADER] == v.blocks[b].size + 32
    ensures b - SEGMENT_HEADER > 0
  {
    assert Key(0);
    SoleBlock(v.blocks, v.segs, v.base, b);
    HeaderMapped(v, b - SEGMENT_HEADER);
  }

  /** No link word is in a segment header, nor anywhere in a segment without free blocks. */
  lemma ClearHeader(v: View, l: Lists, g: int, x: int)
    requires Core(v) && g in v.segs && l.base == v.base && l.size == v.size
    ensures Clear(l, g, 16) && g + 8 in v.mem
    ensures KeptBeyond(v.mem, v.mem[g + 8 := x], g, 16)
  {
    assert Key(0);
    HeaderMapped(v, g);
    assert SegmentOk(v.blocks, v.segs, v.base, g);
    forall y {:trigger ClearOf(l, g, 16, y)} | y in l.size ensures ClearOf(l, g, 16, y) {
      Inside(v.blocks, v.segs, v.base, y);
    }
  }

  lemma ClearSegment(v: View, l: Lists, b: int)
    requires Core(v) && Open(v, b) && v.blocks[b].before == 0 && l.base == v.base && l.size == v.size
    requires b + v.blocks[b].size in v.blocks && v.blocks[b + v.blocks[b].size].kind == Guard
    ensures Clear(l, b - SEGMENT_HEADER, v.blocks[b].size + 32)
  {
    assert Key(0);
    var g, len := b - SEGMENT_HEADER, v.blocks[b].size + 32;
    SoleBlock(v.blocks, v.segs, v.base, b);
    assert SegmentOk(v.blocks, v.segs, v.base, g);
    forall y {:trigger ClearOf(l, g, len, y)} | y in l.size ensures ClearOf(l, g, len, y) {
      Inside(v.blocks, v.segs, v.base, y);
      assert SegmentsApart(v.segs, v.blocks[y].seg, g);
    }
  }

  // ---------- counters ----------

  ghost predicate Counted(v: View, realSize: int, realPeak: int, size: int, peak: int, cached: int) {
    && realSize == Sum(v.segs) <= realPeak
    && size == Sum(Allocated(v.blocks)) + Sum(CachedBlocks(v.blocks)) <= peak
    && cached == Sum(CachedBlocks(v.blocks)) < CACHE_SIZE + MAX_SMALL
  }

  /** Block b moves from the allocated blocks to the cache. */
  lemma CountPush(v: View, w: View, b: int)
    requires b in v.blocks && v.blocks[b].kind == Live && SmallSize(v.blocks[b].size)
    requires Spared(v.mem, Allocated(v.blocks), w.mem, Allocated(w.blocks), b) && b !in Allocated(w.blocks)
    requires CachedBlocks(w.blocks) == CachedBlocks(v.blocks)[b := v.blocks[b].size]
    ensures Sum(CachedBlocks(w.blocks)) == Sum(CachedBlocks(v.blocks)) + v.blocks[b].size
    ensures Sum(Allocated(w.blocks)) == Sum(Allocated(v.blocks)) - v.blocks[b].size
    ensures Allocated(w.blocks) == Allocated(v.blocks) - {b}
  {
    SumSet(CachedBlocks(v.blocks), b, v.blocks[b].size);
    SumWithout(Allocated(v.blocks), b);
    assert Allocated(w.blocks) - {b} == Allocated(w.blocks);
    assert b !in CachedBlocks(v.blocks);
  }

  /** Block b is given up. */
  lemma CountRelease(v: View, w: View, b: int)
    requires b in v.blocks && v.blocks[b].kind == Live
    requires Spared(v.mem, Allocated(v.blocks), w.mem, Allocated(w.blocks), b) && b !in Allocated(w.blocks)
    ensures Sum(Allocated(w.blocks)) == Sum(Allocated(v.blocks)) - v.blocks[b].size
    ensures Allocated(w.blocks) == Allocated(v.blocks) - {b}
  {
    SumWithout(Allocated(v.blocks), b);
    assert Allocated(w.blocks) - {b} == Allocated(w.blocks);
  }

  lemma CountSegments(segs: Segments, segs': Segments, r: int, r': int)
    requires r == Sum(segs) && SegmentsLeft(segs, segs', r, r')
    ensures r' == Sum(segs') <= r && (Bounded(segs) ==> Bounded(segs'))
  {
    if !(segs' == segs && r' == r) {
      var g :| g in segs && segs' == segs - {g} && r' == r - segs[g];
      SumWithout(segs, g);
    }
  }

  lemma CountedPush(v: View, w: View, b: int, r: int, rp: int, s: int, sp: int, c: int)
    requires Counted(v, r, rp, s, sp, c) && c < CACHE_SIZE
    requires b in v.blocks && v.blocks[b].kind == Live && SmallSize(v.blocks[b].size) && w.segs == v.segs
    requires Spared(v.mem, Allocated(v.blocks), w.mem, Allocated(w.blocks), b) && b !in Allocated(w.blocks)
    requires CachedBlocks(w.blocks) == CachedBlocks(v.blocks)[b := v.blocks[b].size]
    ensures Counted(w, r, rp, s, sp, c + v.blocks[b].size)
    ensures Allocated(w.blocks) == Allocated(v.blocks) - {b}
  {
    CountPush(v, w, b);
  }

  lemma CountedRelease(v: View, w: View, b: int, r: int, rp: int, s: int, sp: int, c: int, r': int)
    requires Counted(v, r, rp, s, sp, c) && Bounded(v.segs)
    requires b in v.blocks && v.blocks[b].kind == Live && Released(v, w, r, r', b)
    ensures Counted(w, r', rp, s - v.blocks[b].size, sp, c) && Bounded(w.segs)
    ensures Allocated(w.blocks) == Allocated(v.blocks) - {b}
  {
    CountRelease(v, w, b);
    CountSegments(v.segs, w.segs, r, r');
  }

  // ---------- release ----------

  /**
   From v to w block b was given up: it is not allocated any more, nothing else was touched, and at
   most one segment, whose bytes are taken off real_size, is gone.
   */
  ghost predicate Released(v: View, w: View, r: int, r': int, b: int) {
    && Core(w) && w.stale == 0
    && Spared(v.mem, Allocated(v.blocks), w.mem, Allocated(w.blocks), b) && b !in Allocated(w.blocks)
    && CachedBlocks(w.blocks) == CachedBlocks(v.blocks)
    && w.base == v.base && w.heads == v.heads && w.chains == v.chains
    && SegmentsLeft(v.segs, w.segs, r, r')
  }

  ghost predicate Fewer(segs: Segments, than: Segments) {
    forall g :: g in segs ==> g in than && segs[g] == than[g]
  }

  ghost predicate SegmentsLeft(segs: Segments, segs': Segments, r: int, r': int) {
    || (segs' == segs && r' == r)
    || (exists g {:trigger segs[g]} :: g in segs && segs' == segs - {g} && r' == r - segs[g])
  }

  /** In w, block b is part of block c, which has no free neighbour; in v it is allocated. */
  ghost predicate Whole(v: View, w: View, b: int, c: int, total: nat) {
    && Advanced(v, w, b) && w.stale in {0, c} && OnlyInHand(w.blocks, {c})
    && Open(w, c) && w.blocks[c].size == total && PrevUsed(w.blocks, c)
    && c + total in w.blocks && w.blocks[c + total].kind !in {Free, InHand}
    && (c == b || (w.blocks[c].kind == InHand && b !in w.blocks))
  }

  /** No block starts inside another. */
  lemma Swallowed(v: View, c: int, b: int)
    requires Core(v) && c in v.blocks
    ensures c < b < c + v.blocks[c].size ==> b !in v.blocks
  {
    assert Key(0);
    if b in v.blocks && b != c {
      assert BlocksApart(v.blocks, c, b);
      Inside(v.blocks, v.segs, v.base, b);
    }
  }

  /** What spares every block but one that is not allocated spares every block but any. */
  lemma SparedOther(m: Mem, live: Sizes, n: Mem, live': Sizes, c: int, b: int)
    requires Spared(m, live, n, live', c) && c !in live && c !in live'
    ensures Spared(m, live, n, live', b)
  {
    assert live - {c} == live && live' - {c} == live';
    forall x {:trigger PayloadKept(m, n, x, live[x])} | x in live && x != b ensures PayloadKept(m, n, x, live[x]) {
    }
  }

  /** Block b, now part of block c, goes with its segment. */
  lemma Dropped(u: View, v: View, w: View, c: int, b: int, total: nat)
    requires Whole(u, v, b, c, total)
    requires w.blocks == DropSegment(v.blocks, v.blocks[c].seg)
    requires Spared(v.mem, Allocated(v.blocks), w.mem, Allocated(w.blocks), c)
    ensures Spared(u.mem, Allocated(u.blocks), w.mem, Allocated(w.blocks), b) && b !in Allocated(w.blocks)
    ensures OnlyInHand(w.blocks, {})
  {
    if c != b {
      SparedOther(v.mem, Allocated(v.blocks), w.mem, Allocated(w.blocks), c, b);
    }
    SparedTrans(u.mem, Allocated(u.blocks), v.mem, Allocated(v.blocks), w.mem, Allocated(w.blocks), b);
  }

  /** Block b, now part of block c, is free. */
  lemma Relisted(u: View, v: View, t: View, w: View, c: int, b: int, total: nat)
    requires Whole(u, v, b, c, total)
    requires Advanced(v, t, c) && t.blocks == SetKind(v.blocks, c, InHand)
    requires Advanced(t, w, 0) && w.blocks == SetKind(t.blocks, c, Free)
    ensures Advanced(u, w, b) && b !in Allocated(w.blocks)
  {
    AdvancedMore(t, w, c);
    AdvancedTrans(v, t, w, c);
    if c != b {
      SparedOther(v.mem, Allocated(v.blocks), w.mem, Allocated(w.blocks), c, b);
    }
    AdvancedTrans(u, v, w, b);
  }

  lemma ClearPayload(v: View, l: Lists, b: int, a: int, x: int)
    requires Core(v) && b in v.blocks && v.blocks[b].kind !in {Free, Guard} && b <= a && a + 8 <= b + v.blocks[b].size
    requires l.base == v.base && l.size == v.size
    ensures Clear(l, a, 8) && KeptBeyond(v.mem, v.mem[a := x], a, 8)
  {
    assert Key(0);
    Inside(v.blocks, v.segs, v.base, b);
    forall y {:trigger ClearOf(l, a, 8, y)} | y in l.size ensures ClearOf(l, a, 8, y) {
      assert BlocksApart(v.blocks, y, b);
    }
  }

  // ---------- allocation ----------

  /** ZEND_MM_TRUE_SIZE in 64-bit arithmetic. */
  function TrueSize(size: nat): nat {
    if size < 16 then 32 else (size + 23) % WORD / 8 * 8
  }

  /** The true size has room for the header, unless the addition wrapped around; then it is below the request. */
  lemma TrueSizeFits(size: nat)
    requires size < WORD
    ensures TrueSize(size) % 8 == 0 && TrueSize(size) < WORD
    ensures TrueSize(size) < size <==> size + 23 >= WORD
    ensures size + 23 < WORD ==> TrueSize(size) >= MIN_BLOCK && size + HEADER <= TrueSize(size) < size + HEADER + MIN_BLOCK
    ensures size + 23 >= WORD ==> SmallSize(TrueSize(size))
  {
  }

  /** No block of the tries, nor of the rest list if that was searched, is large enough. */
  ghost predicate NothingListed(l: Lists, trueSize: nat, rest: bool) {
    forall x :: x in l.size && x in l.home && (l.home[x].LargeRing? || (rest && l.home[x].RestRing?)) ==> l.size[x] < trueSize
  }

  lemma FreeIsFree(v: View)
    requires Core(v)
    ensures forall x :: x in v.size ==> x in v.blocks && v.blocks[x].kind == Free && v.blocks[x].size == v.size[x]
  {
    assert Key(0);
  }

  // ---------- flushing the cache ----------

  lemma WholeAfter(u: View, v: View, w: View, b: int, c: int, total: nat)
    requires Advanced(u, v, b) && v.stale in {0, c} && OnlyInHand(v.blocks, {c}) && Open(v, c) && PrevUsed(v.blocks, c)
    requires c == b || (v.blocks[c].kind == InHand && b !in v.blocks && c < b < c + total && c < b)
    requires Advanced(v, w, c) && w.stale in {0, c} && OnlyInHand(w.blocks, {c})
    requires c in w.blocks && w.blocks[c] == v.blocks[c].(size := total) && total > 0
    requires c + total in w.blocks && w.blocks[c + total].kind !in {Free, InHand}
    requires forall x :: x < c && x in v.blocks ==> x in w.blocks && w.blocks[x] == v.blocks[x]
    ensures Whole(u, w, b, c, total)
  {
    if c != b {
      SparedOther(v.mem, Allocated(v.blocks), w.mem, Allocated(w.blocks), c, b);
      Swallowed(w, c, b);
    }
    AdvancedTrans(u, v, w, b);
    Before(v, c);
    Before(w, c);
  }

  lemma WholeTagged(u: View, v: View, w: View, b: int, c: int, total: nat)
    requires Whole(u, v, b, c, total) && Advanced(v, w, c) && w.stale == 0 && w.blocks == SetKind(v.blocks, c, InHand)
    ensures Whole(u, w, b, c, total)
  {
    if c != b {
      SparedOther(v.mem, Allocated(v.blocks), w.mem, Allocated(w.blocks), c, b);
    }
    AdvancedTrans(u, v, w, b);
    Before(v, c);
    Next(v, c);
  }

  /** From v to w the block b at the front of cache list i left the cache and was given up. */
  ghost predicate Flushed(v: View, w: View, r: int, r': int, i: nat, b: int) {
    && Core(w) && w.stale == 0
    && Spared(v.mem, Allocated(v.blocks), w.mem, Allocated(w.blocks), 0)
    && b in CachedBlocks(v.blocks) && CachedBlocks(w.blocks) == CachedBlocks(v.blocks) - {b}
    && w.base == v.base && SegmentsLeft(v.segs, w.segs, r, r')
    && i < |v.chains| && v.chains[i] != [] && w.chains == v.chains[i := v.chains[i][1..]]
    && i < |v.heads| && |w.heads| == |v.heads| && w.heads == v.heads[i := w.heads[i]]
  }

  lemma FlushedBlock(v: View, u: View, w: View, r: int, r': int, i: nat, b: int)
    requires Core(v) && i < |v.heads| && i < |v.chains| && v.chains[i] != [] && b in v.blocks && v.blocks[b].kind == Cached
    requires u == v.(heads := u.heads, chains := v.chains[i := v.chains[i][1..]], blocks := SetKind(v.blocks, b, Live))
    requires |u.heads| == |v.heads| && u.heads == v.heads[i := u.heads[i]]
    requires Spared(v.mem, Allocated(v.blocks), u.mem, Allocated(u.blocks), b) && CachedBlocks(u.blocks) == CachedBlocks(v.blocks) - {b}
    requires Released(u, w, r, r', b)
    ensures Flushed(v, w, r, r', i, b)
  {
    SparedTrans(v.mem, Allocated(v.blocks), u.mem, Allocated(u.blocks), w.mem, Allocated(w.blocks), b);
    SparedOther(v.mem, Allocated(v.blocks), w.mem, Allocated(w.blocks), b, 0);
  }

  lemma FlushCount(v: View, w: View, r: int, r': int, i: nat, b: int)
    requires Flushed(v, w, r, r', i, b) && r == Sum(v.segs) && Bounded(v.segs)
    ensures Sum(CachedBlocks(w.blocks)) == Sum(CachedBlocks(v.blocks)) - CachedBlocks(v.blocks)[b]
    ensures r' == Sum(w.segs) <= r && Bounded(w.segs) && Fewer(w.segs, v.segs)
    ensures |w.chains[i]| < |v.chains[i]|
  {
    SumWithout(CachedBlocks(v.blocks), b);
    CountSegments(v.segs, w.segs, r, r');
  }

  lemma CacheSize(v: View)
    requires Core(v)
    ensures |v.heads| == |v.chains| == 64
  {
    assert Key(0);
  }

  /** The bytes of block b, of the given size, are all in the listed free block c. */
  ghost predicate FreedInto(w: View, b: int, size: nat, c: int) {
    c in w.size && c in w.blocks && w.blocks[c].kind == Free && c <= b && b + size <= c + w.size[c]
  }

  /** Every block that was cached in v is part of a listed free block in w, unless its segment is gone. */
  ghost predicate AllReusable(v: View, w: View) {
    forall b {:trigger b in CachedBlocks(v.blocks)} :: b in CachedBlocks(v.blocks) && v.blocks[b].seg in w.segs ==>
      exists c :: FreedInto(w, b, v.blocks[b].size, c)
  }

  lemma CacheIsFreed(v: View, w: View)
    requires Core(v) && Core(w) && CachedBlocks(w.blocks) == map[] && OnlyInHand(w.blocks, {})
    requires Spared(v.mem, Allocated(v.blocks), w.mem, Allocated(w.blocks), 0) && Fewer(w.segs, v.segs)
    ensures AllReusable(v, w)
  {
    assert Allocated(w.blocks) == Allocated(v.blocks) by { NothingAtZero(v); NothingAtZero(w); }
    forall b {:trigger b in CachedBlocks(v.blocks)} | b in CachedBlocks(v.blocks) && v.blocks[b].seg in w.segs
      ensures exists c :: FreedInto(w, b, v.blocks[b].size, c)
    {
      var c := FlushedIntoFree(v, w, b);
    }
  }

  lemma NothingAtZero(v: View)
    requires Core(v)
    ensures Allocated(v.blocks) - {0} == Allocated(v.blocks)
  {
    assert Key(0);
    if 0 in v.blocks { Inside(v.blocks, v.segs, v.base, 0); }
    assert 0 !in Allocated(v.blocks);
  }

  lemma FlushedIntoFree(v: View, w: View, b: int) returns (c: int)
    requires Core(v) && Core(w) && CachedBlocks(w.blocks) == map[] && OnlyInHand(w.blocks, {})
    requires Allocated(w.blocks) == Allocated(v.blocks) && Fewer(w.segs, v.segs)
    requires b in CachedBlocks(v.blocks) && v.blocks[b].seg in w.segs
    ensures FreedInto(w, b, v.blocks[b].size, c)
  {
    assert Key(0);
    Inside(v.blocks, v.segs, v.base, b);
    NextBlock(v.blocks, v.segs, v.base, b);
    var g := v.blocks[b].seg;
    Partition(w.blocks, w.segs, w.base, g, b);
    c :| c in w.blocks && w.blocks[c].seg == g && Covers(w.blocks, c, b);
    FreeAfter(v, w, b, c);
    assert c in FreeBlocks(w.blocks);
    NextBlock(w.blocks, w.segs, w.base, c);
    var d := c + w.blocks[c].size;
    if d < b + v.blocks[b].size {
      FreeAfter(v, w, b, d);
    }
  }

  /** A block of w that starts before or inside what was the cached block b, and reaches into it, is free. */
  lemma FreeAfter(v: View, w: View, b: int, c: int)
    requires Core(v) && Core(w) && CachedBlocks(w.blocks) == map[] && OnlyInHand(w.blocks, {})
    requires Allocated(w.blocks) == Allocated(v.blocks) && Fewer(w.segs, v.segs)
    requires b in CachedBlocks(v.blocks) && c in w.blocks && w.blocks[c].seg == v.blocks[b].seg
    requires c < b + v.blocks[b].size && b < c + w.blocks[c].size
    ensures w.blocks[c].kind == Free
  {
    assert Key(0);
    assert BlockOk(v.blocks, v.segs, b) && BlockOk(w.blocks, w.segs, c);
    assert w.blocks[c].kind != Cached by {
      assert c !in CachedBlocks(w.blocks);
    }
    StillLive(v, w, c);
    assert c in v.blocks && c != b ==> BlocksApart(v.blocks, c, b);
  }

  lemma StillLive(v: View, w: View, c: int)
    requires Allocated(w.blocks) == Allocated(v.blocks) && c in w.blocks
    ensures w.blocks[c].kind == Live ==> c in v.blocks && v.blocks[c].kind == Live && v.blocks[c].size == w.blocks[c].size
  {
    assert w.blocks[c].kind == Live ==> c in Allocated(w.blocks) && Allocated(w.blocks)[c] == Allocated(v.blocks)[c];
  }

  lemma NothingCached(v: View)
    requires Core(v) && |v.heads| == 64 && forall i :: 0 <= i < 64 ==> v.heads[i] == 0
    ensures CachedBlocks(v.blocks) == map[] && Sum(CachedBlocks(v.blocks)) == 0
  {
    assert Key(0);
    forall i ensures 0 <= i < 64 ==> v.chains[i] == [] {
      if 0 <= i < 64 {
        assert CacheList(v.mem, v.blocks, v.heads, v.chains, i);
        EmptyChain(v.mem, 16, v.chains[i]);
      }
    }
    assert forall b :: b in v.blocks && v.blocks[b].kind == Cached ==> CachedOk(v.blocks, v.chains, b);
    assert forall b :: b !in CachedBlocks(v.blocks);
    assert CachedBlocks(v.blocks) == map[];
  }

  // ---------- new segments ----------

  predicate Unused(m: Mem, at: int, len: nat) { forall a :: at <= a < at + len ==> a !in m }

  /** (x + (unit - 1)) & ~(unit - 1), in 64 bits and for a power of two. */
  function RoundUp(x: nat, unit: nat): nat
    requires unit > 0
  {
    var y := (x + unit - 1) % WORD;
    y - y % unit
  }

  function NewWords(at: int, len: nat, fill: Mem): Mem {
    map a | at <= a < at + len && a % 8 == 0 :: if a in fill then fill[a] else 0
  }

  lemma EvenStep(x: nat) returns (y: nat)
    requires x > 0 && Low(x) > 0
    ensures x == 2 * y && y > 0 && Low(y) == Low(x) - 1
  {
    y := x / 2;
  }

  lemma HighOfEight()
    ensures High(8) == 3
  {
    assert High(4) == 2;
  }

  lemma UnitMultiple(unit: nat)
    requires SegmentUnit(unit)
    ensures unit % 8 == 0
  {
    HighOfEight();
    if High(unit) < High(8) { HighMonotone(unit, 8); }
    var x := EvenStep(unit);
    var y := EvenStep(x);
    var z := EvenStep(y);
    assert unit == 8 * z;
  }

  lemma Multiple8(q: nat, unit: nat)
    requires unit % 8 == 0
    ensures (q * unit) % 8 == 0
  {
    assert q * unit == 8 * (q * (unit / 8));
  }

  lemma Mod64(x: nat)
    requires x < 2 * WORD
    ensures x % WORD == if x < WORD then x else x - WORD
  {
  }

  lemma DivParts(y: nat, unit: nat) returns (q: nat, r: nat)
    requires unit > 0
    ensures y == unit * q + r && r == y % unit && r < unit
  {
    q, r := y / unit, y % unit;
  }

  lemma WholeUnits(y: nat, unit: nat, q: nat, r: nat)
    requires unit > 0 && unit % 8 == 0 && y == unit * q + r && r < unit
    ensures (y - r) % 8 == 0 && 0 <= y - r <= y < y - r + unit
  {
    Multiple8(q, unit);
  }

  lemma RoundDown(y: nat, unit: nat) returns (d: nat)
    requires unit > 0 && unit % 8 == 0
    ensures d == y - y % unit && d % 8 == 0 && d <= y < d + unit
    ensures y < unit ==> d == 0
  {
    var q, r := DivParts(y, unit);
    WholeUnits(y, unit, q, r);
    d := y - r;
    if y < unit { SmallMod(y, unit); }
  }

  lemma SmallMod(y: nat, unit: nat)
    requires y < unit
    ensures y % unit == y
  {
  }

  lemma RoundUpFacts(x: nat, unit: nat)
    requires SegmentUnit(unit) && x < WORD
    ensures RoundUp(x, unit) % 8 == 0 && 0 <= RoundUp(x, unit) < WORD
    ensures x + unit - 1 < WORD ==> x <= RoundUp(x, unit) < x + unit
    ensures x + unit - 1 >= WORD ==> RoundUp(x, unit) < unit
  {
    UnitMultiple(unit);
    Mod64(x + unit - 1);
    var y := (x + unit - 1) % WORD;
    var d := RoundDown(y, unit);
    assert RoundUp(x, unit) == d;
  }

  /** A segment size that passed the first check has room for the block and both headers. */
  lemma SegmentRoom(trueSize: nat, unit: nat, len: nat)
    requires SegmentUnit(unit) && trueSize % 8 == 0 && MIN_BLOCK <= trueSize < WORD
    requires len == if trueSize > unit - 32 then RoundUp((trueSize + 32) % WORD, unit) else unit
    ensures len % 8 == 0 && len < WORD
    ensures len >= trueSize ==> len >= trueSize + 32
    ensures len < trueSize <==> trueSize + 32 + unit - 1 >= WORD
    ensures len >= trueSize ==> len < trueSize + 32 + unit
  {
    UnitMultiple(unit);
    Mod64(trueSize + 32);
    if trueSize > unit - 32 {
      RoundUpFacts((trueSize + 32) % WORD, unit);
    }
  }

  lemma UnusedIsFresh(v: View, at: int, len: nat)
    requires Core(v) && at > 0 && at % 8 == 0 && len > 0 && Unused(v.mem, at, len)
    ensures FreshRegion(v.segs, v.base, at, len)
  {
    assert Key(0);
    forall h | h in v.segs ensures Apart(at, len, h, v.segs[h]) {
      HeaderMapped(v, h);
      var a := if at < h then h else at;
      assert SegmentMapped(v.mem, v.segs, h) && MappedIn(v.mem, h, v.segs[h], a);
    }
    var a := if at < v.base then v.base else at;
    assert MappedIn(v.mem, v.base, AREA, a);
  }

  lemma NoWrap(v: View, at: int, len: nat, limit: nat)
    requires Core(v) && Bounded(v.segs) && 0 < at && at + len <= TOP
    ensures Within(Sum(v.segs), len, limit) <==> Sum(v.segs) + len <= limit
    ensures FreshRegion(v.segs, v.base, at, len) ==> Bounded(v.segs[at := len])
  {
    SegmentsPacked(v);
    Mod64(Sum(v.segs) + len);
  }

  /** All segments together are no larger than the address space. */
  lemma SegmentsPacked(v: View)
    requires Core(v) && Bounded(v.segs)
    ensures Sum(v.segs) <= TOP
  {
    assert Key(0);
    forall g | g in v.segs ensures 0 <= g && g + v.segs[g] <= TOP {
      HeaderMapped(v, g);
    }
    forall g, h | g in v.segs && h in v.segs && g < h ensures g + v.segs[g] <= h {
      HeaderMapped(v, h);
      assert SegmentsApart(v.segs, g, h);
    }
    Packed(v.segs, TOP);
  }

  /** From v to w a segment came in; its one block `best` is in hand and not tagged yet. */
  ghost predicate Acquired(v: View, w: View, best: int, len: nat) {
    && Core(w) && w.stale == best && OnlyInHand(w.blocks, {best})
    && Spared(v.mem, Allocated(v.blocks), w.mem, Allocated(w.blocks), 0) && CachedBlocks(w.blocks) == CachedBlocks(v.blocks)
    && w.base == v.base && w.heads == v.heads && w.chains == v.chains && w.segs == v.segs[best - SEGMENT_HEADER := len + 32]
    && best in w.blocks && w.blocks[best].size == len && w.blocks[best].kind == InHand && w.blocks[best].before == 0
    && best + len in w.blocks && w.blocks[best + len].kind == Guard
    && best !in v.blocks
  }

  lemma NewBlock(v: View, w: View, g: int, n: nat)
    requires Core(v) && OnlyInHand(v.blocks, {}) && n >= 64 && FreshRegion(v.segs, v.base, g, n)
    requires w == v.(mem := w.mem, first := g, segs := v.segs[g := n], order := [g] + v.order,
                     blocks := AddSegment(v.blocks, g, n, InHand), stale := g + 16)
    requires Core(w) && Spared(v.mem, Allocated(v.blocks), w.mem, Allocated(w.blocks), 0) && CachedBlocks(w.blocks) == CachedBlocks(v.blocks)
    ensures Acquired(v, w, g + SEGMENT_HEADER, n - 32)
  {
    assert Key(0);
    FreshAddresses(v, g, n);
  }

  /** No link word is in a region that is in use by nobody. */
  lemma FreshClear(v: View, l: Lists, g: int, n: nat)
    requires Core(v) && FreshRegion(v.segs, v.base, g, n) && n >= 64 && l.base == v.base && l.size == v.size
    ensures Clear(l, g, n)
  {
    assert Key(0);
    FreshAddresses(v, g, n);
    forall y {:trigger ClearOf(l, g, n, y)} | y in l.size ensures ClearOf(l, g, n, y) {
      assert y in FreeBlocks(v.blocks);
    }
  }

  lemma SegmentPrepared(m: Mem, n: Mem, g: int, len: nat, next: int, fill: Mem)
    requires Unused(m, g, len) && len >= 64 && len % 8 == 0 && g % 8 == 0
    requires n == (m + NewWords(g, len, fill))[g := len][g + 8 := next][g + 24 := 3][g + len - 16 := 3 + HEADER]
    ensures Grown(m, n) && Prepared(n, g, len, next)
  {
    forall a {:trigger SameWord(m, n, a)} | a in m ensures SameWord(m, n, a) {
    }
  }

  /** Block b is newly allocated; every other allocated block is still there with its contents. */
  ghost predicate Allotted(v: View, w: View, b: int) {
    && b !in Allocated(v.blocks) && b in w.blocks && w.blocks[b].kind == Live && b > 0 && b % 8 == 0
    && Allocated(w.blocks) == Allocated(v.blocks)[b := w.blocks[b].size]
    && Spared(v.mem, Allocated(v.blocks), w.mem, Allocated(w.blocks), b)
  }

  lemma AllottedFrom(v: View, w: View, b: int)
    requires Core(w) && b !in Allocated(v.blocks) && b in w.blocks && w.blocks[b].kind == Live
    requires Spared(v.mem, Allocated(v.blocks), w.mem, Allocated(w.blocks), b)
    ensures Allotted(v, w, b)
  {
    assert Key(0);
    Inside(w.blocks, w.segs, w.base, b);
    assert Allocated(v.blocks) - {b} == Allocated(v.blocks);
    assert Allocated(w.blocks) == (Allocated(w.blocks) - {b})[b := w.blocks[b].size];
  }

  lemma CountedPop(v: View, w: View, b: int, r: int, rp: int, s: int, sp: int, c: int)
    requires Counted(v, r, rp, s, sp, c) && w.segs == v.segs && Core(w)
    requires b in v.blocks && v.blocks[b].kind == Cached && w.blocks == SetKind(v.blocks, b, Live)
    requires Spared(v.mem, Allocated(v.blocks), w.mem, Allocated(w.blocks), b)
    requires CachedBlocks(w.blocks) == CachedBlocks(v.blocks) - {b}
    ensures Counted(w, r, rp, s, sp, c - v.blocks[b].size) && Allotted(v, w, b)
  {
    AllottedFrom(v, w, b);
    SumWithout(CachedBlocks(v.blocks), b);
    SumSet(Allocated(v.blocks), b, v.blocks[b].size);
  }

  lemma CountedUse(v: View, w: View, b: int, used: nat, r: int, rp: int, s: int, sp: int, c: int)
    requires Counted(v, r, rp, s, sp, c) && Advanced(v, w, b)
    requires b !in Allocated(v.blocks) && b in w.blocks && w.blocks[b].kind == Live && w.blocks[b].size == used
    ensures Counted(w, r, rp, s + used, if sp < s + used then s + used else sp, c) && Allotted(v, w, b)
  {
    AllottedFrom(v, w, b);
    SumSet(Allocated(v.blocks), b, used);
  }

  /** A block was carved out of a new segment. */
  lemma CarvedSegment(v: View, u: View, w: View, b: int, len: nat)
    requires Core(v) && Acquired(v, u, b, len) && Advanced(u, w, b)
    ensures Spared(v.mem, Allocated(v.blocks), w.mem, Allocated(w.blocks), b) && b !in Allocated(v.blocks)
    ensures CachedBlocks(w.blocks) == CachedBlocks(v.blocks) && w.heads == v.heads && w.segs == u.segs && w.base == v.base
  {
    NoBlockAtZero(u);
    NoBlockAtZero(v);
    SparedMore(v.mem, Allocated(v.blocks), u.mem, Allocated(u.blocks), b);
    SparedTrans(v.mem, Allocated(v.blocks), u.mem, Allocated(u.blocks), w.mem, Allocated(w.blocks), b);
  }

  lemma CountedSegment(v: View, w: View, b: int, used: nat, r: int, rp: int, s: int, sp: int, c: int)
    requires s == Sum(Allocated(v.blocks)) + Sum(CachedBlocks(v.blocks)) <= sp && c == Sum(CachedBlocks(v.blocks)) < CACHE_SIZE + MAX_SMALL
    requires Core(w) && r == Sum(w.segs) <= rp && CachedBlocks(w.blocks) == CachedBlocks(v.blocks)
    requires Spared(v.mem, Allocated(v.blocks), w.mem, Allocated(w.blocks), b)
    requires b !in Allocated(v.blocks) && b in w.blocks && w.blocks[b].kind == Live && w.blocks[b].size == used
    ensures Counted(w, r, rp, s + used, if sp < s + used then s + used else sp, c) && Allotted(v, w, b)
  {
    AllottedFrom(v, w, b);
    SumSet(Allocated(v.blocks), b, used);
  }

  // ---------- the contents of one block ----------

  lemma PayloadSpared(v: View, w: View, b: int)
    requires Core(v) && Advanced(v, w, 0) && b in v.blocks && v.blocks[b].kind == Live
    ensures PayloadKept(v.mem, w.mem, b, v.blocks[b].size)
  {
    NoBlockAtZero(v);
    assert b in Allocated(v.blocks) && PayloadKept(v.mem, w.mem, b, Allocated(v.blocks)[b]);
  }

  lemma PayloadTrans(m: Mem, n: Mem, o: Mem, b: int, len: nat)
    requires PayloadKept(m, n, b, len) && PayloadKept(n, o, b, len)
    ensures PayloadKept(m, o, b, len)
  {
    forall a {:trigger SameWord(m, o, a)} | a in m && b + HEADER <= a < b + len ensures SameWord(m, o, a) {
      assert SameWord(m, n, a) && SameWord(n, o, a);
    }
  }

  ghost predicate WordMoved(m: Mem, n: Mem, src: int, dst: int, k: int) {
    src + k in m && dst + k in n && n[dst + k] == m[src + k]
  }

  /** `len` bytes of words at `dst` in n are those at `src` in m. */
  ghost predicate Copied(m: Mem, n: Mem, src: int, dst: int, len: int) {
    forall k {:trigger WordMoved(m, n, src, dst, k)} :: 0 <= k < len && k % 8 == 0 ==> WordMoved(m, n, src, dst, k)
  }

  lemma CopiedOneMore(m: Mem, n: Mem, src: int, dst: int, k: nat, x: int)
    requires Copied(m, n, src, dst, k) && src + k in m && m[src + k] == x && k % 8 == 0
    ensures Copied(m, n[dst + k := x], src, dst, k + 8)
  {
    forall j {:trigger WordMoved(m, n[dst + k := x], src, dst, j)} | 0 <= j < k + 8 && j % 8 == 0
      ensures WordMoved(m, n[dst + k := x], src, dst, j)
    {
      assert j < k ==> WordMoved(m, n, src, dst, j);
    }
  }

  lemma PayloadWord(v: View, b: int, a: int)
    requires Core(v) && b in v.blocks && b <= a < b + v.blocks[b].size && (a - b) % 8 == 0
    ensures a in v.mem && a % 8 == 0
  {
    assert Key(0);
    Inside(v.blocks, v.segs, v.base, b);
    BlockMapped(v, b, a);
  }

  lemma PayloadOf(m: Mem, live: Sizes, n: Mem, live': Sizes, x: int, c: int, a: int)
    requires Spared(m, live, n, live', c) && x in live && x != c && x + HEADER <= a < x + live[x] && a in m
    ensures a in n && n[a] == m[a]
  {
    assert PayloadKept(m, n, x, live[x]);
    assert SameWord(m, n, a);
  }

  lemma PayloadShorter(m: Mem, n: Mem, b: int, len: nat, less: nat)
    requires PayloadKept(m, n, b, len) && less <= len
    ensures PayloadKept(m, n, b, less)
  {
  }

  /**
   Block b was reallocated as block c: c is allocated instead of b, the common prefix of the contents
   is the same, and every other allocated block is untouched.
   */
  ghost predicate Reallocated(v: View, w: View, b: int, c: int) {
    && b in v.blocks && c in w.blocks && w.blocks[c].kind == Live && c > 0 && c % 8 == 0
    && c !in Allocated(v.blocks) - {b}
    && Allocated(w.blocks) == (Allocated(v.blocks) - {b})[c := w.blocks[c].size]
    && Copied(v.mem, w.mem, b + HEADER, c + HEADER, (if v.blocks[b].size < w.blocks[c].size then v.blocks[b].size else w.blocks[c].size) - HEADER)
    && var live := Allocated(v.blocks);
       forall x {:trigger PayloadKept(v.mem, w.mem, x, live[x])} :: x in live && x != b ==> PayloadKept(v.mem, w.mem, x, live[x])
  }

  /** Block b is still where it was. */
  lemma InPlace(v: View, w: View, b: int, len: nat)
    requires Core(v) && Core(w) && b in v.blocks && v.blocks[b].kind == Live && b in w.blocks && w.blocks[b].kind == Live
    requires len == if v.blocks[b].size < w.blocks[b].size then v.blocks[b].size else w.blocks[b].size
    requires Spared(v.mem, Allocated(v.blocks), w.mem, Allocated(w.blocks), b) && PayloadKept(v.mem, w.mem, b, len)
    ensures Reallocated(v, w, b, b)
  {
    Next(v, b);
    PayloadWord(v, b, b);
    assert Allocated(w.blocks) == (Allocated(w.blocks) - {b})[b := w.blocks[b].size];
    forall k {:trigger WordMoved(v.mem, w.mem, b + HEADER, b + HEADER, k)} | 0 <= k < len - HEADER && k % 8 == 0
      ensures WordMoved(v.mem, w.mem, b + HEADER, b + HEADER, k)
    {
      PayloadWord(v, b, b + HEADER + k);
      assert SameWord(v.mem, w.mem, b + HEADER + k);
    }
  }

  /** Block b, still allocated at the same place, has another size and its first `kept` bytes. */
  ghost predicate Resized(v: View, w: View, b: int, size: nat, kept: nat) {
    && Advanced(v, w, b) && w.stale == 0 && OnlyInHand(w.blocks, {})
    && b in w.blocks && w.blocks[b].kind == Live && w.blocks[b].size == size
    && PayloadKept(v.mem, w.mem, b, kept)
  }

  lemma CountedResize(v: View, w: View, b: int, r: int, rp: int, s: int, sp: int, c: int, sp': int)
    requires Counted(v, r, rp, s, sp, c) && w.segs == v.segs && CachedBlocks(w.blocks) == CachedBlocks(v.blocks)
    requires b in v.blocks && v.blocks[b].kind == Live && b in w.blocks && Reallocated(v, w, b, b)
    requires s + w.blocks[b].size - v.blocks[b].size <= sp'
    ensures Counted(w, r, rp, s + w.blocks[b].size - v.blocks[b].size, sp', c)
  {
    SumWithout(Allocated(v.blocks), b);
    SumSet(Allocated(v.blocks) - {b}, b, w.blocks[b].size);
    assert Allocated(v.blocks) - {b} - {b} == Allocated(v.blocks) - {b};
  }

  /** v to u: block c is allotted; u to t: it gets the contents of b; t to w: block b is given up. */
  lemma MoveDone(v: View, u: View, t: View, w: View, b: int, c: int)
    requires Core(v) && b in v.blocks && v.blocks[b].kind == Live && Allotted(v, u, c)
    requires u.blocks[c].size >= v.blocks[b].size && t.blocks == u.blocks
    requires Copied(u.mem, t.mem, b + HEADER, c + HEADER, v.blocks[b].size - HEADER)
    requires Spared(u.mem, Allocated(u.blocks), t.mem, Allocated(u.blocks), c)
    requires Spared(t.mem, Allocated(u.blocks), w.mem, Allocated(w.blocks), b) && b !in Allocated(w.blocks)
    ensures Reallocated(v, w, b, c) && w.blocks[c].size == u.blocks[c].size
  {
    var live, len := Allocated(v.blocks), v.blocks[b].size - HEADER;
    Next(v, b);
    MovedSet(live, Allocated(u.blocks), Allocated(w.blocks), b, c);
    assert c in Allocated(w.blocks) && w.blocks[c].size == u.blocks[c].size;
    forall x {:trigger PayloadKept(v.mem, w.mem, x, live[x])} | x in live && x != b ensures PayloadKept(v.mem, w.mem, x, live[x]) {
      assert PayloadKept(v.mem, u.mem, x, live[x]) && x in Allocated(u.blocks) && x != c;
      assert PayloadKept(u.mem, t.mem, x, Allocated(u.blocks)[x]) && PayloadKept(t.mem, w.mem, x, Allocated(u.blocks)[x]);
      PayloadTrans(v.mem, u.mem, t.mem, x, live[x]);
      PayloadTrans(v.mem, t.mem, w.mem, x, live[x]);
    }
    forall k {:trigger WordMoved(v.mem, w.mem, b + HEADER, c + HEADER, k)} | 0 <= k < len && k % 8 == 0
      ensures WordMoved(v.mem, w.mem, b + HEADER, c + HEADER, k)
    {
      PayloadWord(v, b, b + HEADER + k);
      PayloadOf(v.mem, live, u.mem, Allocated(u.blocks), b, c, b + HEADER + k);
      assert WordMoved(u.mem, t.mem, b + HEADER, c + HEADER, k);
      PayloadOf(t.mem, Allocated(u.blocks), w.mem, Allocated(w.blocks), c, b, c + HEADER + k);
    }
  }

  lemma MovedSet(live: Sizes, more: Sizes, after: Sizes, b: int, c: int)
    requires b in live && c !in live && c in more && more == live[c := more[c]] && more - {b} == after - {b} && b !in after
    ensures after == (live - {b})[c := more[c]] && c in after && after[c] == more[c]
  {
    assert after - {b} == after;
  }

  lemma CountedSwap(v: View, w: View, b: int, c: int, r: int, rp: int, s: int, sp: int, k: int)
    requires Counted(v, r, rp, s, sp, k) && w.segs == v.segs && Reallocated(v, w, b, c)
    requires b in v.blocks && v.blocks[b].kind == Live && c in v.blocks && v.blocks[c].kind == Cached && c in w.blocks
    requires w.blocks[c].size == v.blocks[c].size && v.blocks[b].size < v.blocks[c].size
    requires CachedBlocks(w.blocks) == (CachedBlocks(v.blocks) - {c})[b := v.blocks[b].size]
    ensures Counted(w, r, rp, s, sp, k + v.blocks[b].size - v.blocks[c].size)
  {
    var live, kept := Allocated(v.blocks), CachedBlocks(v.blocks);
    SumWithout(live, b);
    SumSet(live - {b}, c, v.blocks[c].size);
    SumWithout(kept, c);
    SumSet(kept - {c}, b, v.blocks[b].size);
  }

  // ---------- a segment grows ----------

  /** Block b fills the segment of oldLen bytes. */
  ghost predicate FillsSegment(v: View, b: int, segment: int, oldLen: nat) {
    && Open(v, b) && v.blocks[b].before == 0 && segment == b - SEGMENT_HEADER && oldLen == v.blocks[b].size + 32
    && b + v.blocks[b].size in v.blocks && v.blocks[b + v.blocks[b].size].kind == Guard
    && segment in v.segs && v.segs[segment] == oldLen
  }

  function MovedWords(m: Mem, segment: int, oldLen: nat, at: int, len: nat, fill: Mem): Mem {
    map a | at <= a < at + len && a % 8 == 0 ::
      if a - at < oldLen && segment + (a - at) in m then m[segment + (a - at)] else if a in fill then fill[a] else 0
  }

  lemma UnusedButOld(v: View, segment: int, at: int, len: nat)
    requires Core(v) && segment in v.segs && at > 0 && at % 8 == 0 && len > 0
    requires Unused(Unmapped(v.mem, segment, v.segs[segment]), at, len)
    ensures FreshRegion(v.segs - {segment}, v.base, at, len)
  {
    assert Key(0);
    var n := Unmapped(v.mem, segment, v.segs[segment]);
    assert SegmentOk(v.blocks, v.segs, v.base, segment);
    forall h | h in v.segs - {segment} ensures Apart(at, len, h, v.segs[h]) {
      HeaderMapped(v, h);
      var a := if at < h then h else at;
      assert SegmentMapped(v.mem, v.segs, h) && MappedIn(v.mem, h, v.segs[h], a);
      assert SegmentsApart(v.segs, segment, h);
      assert h <= a < h + v.segs[h] ==> a in n;
    }
    var a := if at < v.base then v.base else at;
    assert MappedIn(v.mem, v.base, AREA, a);
    assert v.base <= a < v.base + AREA ==> a in n;
  }

  lemma ClearMoved(v: View, l: Lists, b: int, segment: int, oldLen: nat, at: int, len: nat)
    requires Core(v) && FillsSegment(v, b, segment, oldLen) && FreshRegion(v.segs - {segment}, v.base, at, len) && len >= 64
    requires l.base == v.base && l.size == v.size
    ensures Clear(l, at, len)
  {
    assert Key(0);
    SoleBlock(v.blocks, v.segs, v.base, b);
    forall y {:trigger ClearOf(l, at, len, y)} | y in l.size ensures ClearOf(l, at, len, y) {
      assert y in FreeBlocks(v.blocks);
      Inside(v.blocks, v.segs, v.base, y);
      assert v.blocks[y].seg in v.segs - {segment};
      assert Apart(at, len, v.blocks[y].seg, (v.segs - {segment})[v.blocks[y].seg]);
    }
  }

  /** Memory after the storage layer has moved a segment. */
  function MovedMem(m: Mem, segment: int, oldLen: nat, at: int, len: nat, fill: Mem): Mem {
    Unmapped(m, segment, oldLen) + MovedWords(m, segment, oldLen, at, len, fill)
  }

  lemma MovedWord(m: Mem, segment: int, oldLen: nat, at: int, len: nat, fill: Mem, a: int)
    requires Unused(Unmapped(m, segment, oldLen), at, len)
    ensures a in m && !Inner(segment, oldLen, a) ==> SameWord(m, MovedMem(m, segment, oldLen, at, len, fill), a) && !Inner(at, len, a)
    ensures Inner(at, len, a) && a % 8 == 0 ==> a in MovedMem(m, segment, oldLen, at, len, fill)
    ensures Inner(at, len, a) && a % 8 == 0 && a - at < oldLen && segment + (a - at) in m ==>
              MovedMem(m, segment, oldLen, at, len, fill)[a] == m[segment + (a - at)]
  {
    if a in m && !Inner(segment, oldLen, a) { assert a in Unmapped(m, segment, oldLen); }
  }

  lemma FirstMark(v: View, b: int)
    requires Core(v) && Open(v, b) && v.blocks[b].before == 0
    ensures Holds(v.mem, b + 8, 3)
  {
    assert Key(0);
    assert TagsAt(v.mem, v.blocks, v.stale, b);
  }

  lemma LinksKept(v: View, segment: int, at: int, len: nat, fill: Mem, j: nat)
    requires Core(v) && j < |v.order| && v.order[j] == segment && segment in v.segs && len >= 64 && at % 8 == 0
    requires Unused(Unmapped(v.mem, segment, v.segs[segment]), at, len)
    ensures var m := MovedMem(v.mem, segment, v.segs[segment], at, len, fill)[at := len];
            forall i {:trigger v.order[i]} :: 0 <= i < j ==> v.order[i] != segment && Holds(m, v.order[i] + 8, Chains.After(v.order, i))
  {
    LinksTo(v, j);
    forall i {:trigger v.order[i]} | 0 <= i < j
      ensures Holds(MovedMem(v.mem, segment, v.segs[segment], at, len, fill)[at := len], v.order[i] + 8, Chains.After(v.order, i))
    {
      HeadersApart(v, segment, v.order[i]);
      MovedWord(v.mem, segment, v.segs[segment], at, len, fill, v.order[i] + 8);
    }
  }

  /** What the writes that follow leave in place and what they put there. */
  ghost predicate MarkedAs(m: Mem, n: Mem, segment: int, at: int, len: nat, link: int) {
    && Holds(n, at, len) && Holds(n, at + len - 16, 3 + HEADER)
    && (at != segment ==> Holds(n, at + 24, 3) && (link != 0 ==> Holds(n, link, at)))
    && forall a {:trigger SameWord(m, n, a)} ::
         a in m && a != at && a != at + len - 16 && (at != segment ==> a != at + 24 && (a != link || link == 0)) ==> SameWord(m, n, a)
  }

  ghost function Pointed(m: Mem, segment: int, at: int, link: int): Mem {
    if at == segment then m else if link == 0 then m[at + 24 := 3] else m[link := at][at + 24 := 3]
  }

  ghost function Marked(m: Mem, segment: int, at: int, len: nat, link: int): Mem {
    Pointed(m[at := len], segment, at, link)[at + len - 16 := 3 + HEADER]
  }

  lemma MarksOf(m: Mem, segment: int, at: int, len: nat, link: int)
    requires len >= 64 && !(at <= link < at + len)
    ensures MarkedAs(m, Marked(m, segment, at, len, link), segment, at, len, link)
  {
  }

  ghost function LinkTo(order: seq<int>, j: nat): int
    requires j < |order|
  {
    if j == 0 then 0 else order[j - 1] + 8
  }

  lemma LinkOutside(v: View, segment: int, oldLen: nat, at: int, len: nat, fill: Mem, j: nat)
    requires Core(v) && segment in v.segs && oldLen == v.segs[segment] && j < |v.order| && v.order[j] == segment
    requires Unused(Unmapped(v.mem, segment, oldLen), at, len)
    ensures j > 0 ==> LinkTo(v.order, j) != 0 && !Inner(at, len, LinkTo(v.order, j))
  {
    LinksTo(v, j);
    if j > 0 {
      HeadersApart(v, segment, v.order[j - 1]);
      MovedWord(v.mem, segment, oldLen, at, len, fill, LinkTo(v.order, j));
    }
  }

  lemma RelocateDone(v: View, n: Mem, b: int, segment: int, oldLen: nat, at: int, len: nat, fill: Mem, j: nat)
    requires Core(v) && FillsSegment(v, b, segment, oldLen) && j < |v.order| && v.order[j] == segment
    requires len % 8 == 0 && len >= 64 && len > oldLen && at > 0 && at % 8 == 0
    requires Unused(Unmapped(v.mem, segment, oldLen), at, len)
    requires MarkedAs(MovedMem(v.mem, segment, oldLen, at, len, fill), n, segment, at, len, LinkTo(v.order, j))
    ensures KeptOutside(v.mem, n, segment, oldLen, LinkTo(v.order, j))
    ensures j > 0 ==> Holds(n, v.order[j - 1] + 8, at)
    ensures Prepared(n, at, len, Chains.After(v.order, j))
    ensures Copied(v.mem, n, segment + 32, at + 32, oldLen - 48)
  {
    var m, link := MovedMem(v.mem, segment, oldLen, at, len, fill), LinkTo(v.order, j);
    LinksTo(v, j);
    if j > 0 {
      HeadersApart(v, segment, v.order[j - 1]);
      MovedWord(v.mem, segment, oldLen, at, len, fill, link);
      assert at == segment ==> SameWord(m, n, link);
    }
    FirstMark(v, b);
    MovedWord(v.mem, segment, oldLen, at, len, fill, at + 8);
    MovedWord(v.mem, segment, oldLen, at, len, fill, at + 24);
    assert SameWord(m, n, at + 8) && (at == segment ==> SameWord(m, n, at + 24));
    forall a {:trigger SameWord(v.mem, n, a)} | a in v.mem && !Inner(segment, oldLen, a) && a != link ensures SameWord(v.mem, n, a) {
      MovedWord(v.mem, segment, oldLen, at, len, fill, a);
      assert SameWord(m, n, a);
    }
    forall a {:trigger MappedIn(n, at, len, a)} ensures MappedIn(n, at, len, a) {
      MovedWord(v.mem, segment, oldLen, at, len, fill, a);
      assert Inner(at, len, a) && a % 8 == 0 && a != at && a != at + 24 && a != at + len - 16 ==> SameWord(m, n, a);
    }
    RelocatedContents(v, n, m, b, segment, oldLen, at, len, fill, link);
  }

  lemma RelocatedContents(v: View, n: Mem, m: Mem, b: int, segment: int, oldLen: nat, at: int, len: nat, fill: Mem, link: int)
    requires Core(v) && FillsSegment(v, b, segment, oldLen) && len > oldLen && at % 8 == 0 && len % 8 == 0
    requires m == MovedMem(v.mem, segment, oldLen, at, len, fill) && Unused(Unmapped(v.mem, segment, oldLen), at, len)
    requires MarkedAs(m, n, segment, at, len, link) && (link == 0 || !Inner(at, len, link))
    ensures Copied(v.mem, n, segment + 32, at + 32, oldLen - 48)
  {
    forall k {:trigger WordMoved(v.mem, n, segment + 32, at + 32, k)} | 0 <= k < oldLen - 48 && k % 8 == 0
      ensures WordMoved(v.mem, n, segment + 32, at + 32, k)
    {
      PayloadWord(v, b, segment + 32 + k);
      MovedWord(v.mem, segment, oldLen, at, len, fill, at + 32 + k);
      MarkedWord(m, n, segment, at, len, link, at + 32 + k);
    }
  }

  lemma MarkedWord(m: Mem, n: Mem, segment: int, at: int, len: nat, link: int, a: int)
    requires MarkedAs(m, n, segment, at, len, link) && (link == 0 || !Inner(at, len, link)) && a in m && at + 32 <= a < at + len - 16
    ensures SameWord(m, n, a)
  {
  }

  /** Behind the first block b is the guard, or a block in hand and then the guard; together they are too small. */
  ghost predicate Growable(v: View, b: int, orig: nat, trueSize: nat) {
    && b in v.blocks && v.blocks[b].kind == Live && v.blocks[b].size == orig < trueSize && v.blocks[b].before == 0
    && OnlyInHand(v.blocks, {b + orig}) && b + orig in v.blocks
    && var n := v.blocks[b + orig];
       n.kind == Guard || (n.kind == InHand && orig + n.size < trueSize && b + orig + n.size in v.blocks && v.blocks[b + orig + n.size].kind == Guard)
  }

  ghost predicate SameCache(v: View, w: View) {
    w.heads == v.heads && w.chains == v.chains && w.base == v.base && CachedBlocks(w.blocks) == CachedBlocks(v.blocks)
  }

  /** From v to w the segment of block b, of oldLen bytes, became the segment of block c, of len bytes. */
  ghost predicate MovedTo(v: View, w: View, b: int, c: int, oldLen: nat, len: nat) {
    && Core(w) && w.stale == c && OnlyInHand(w.blocks, {c}) && Bounded(w.segs) && SameCache(v, w)
    && Spared(v.mem, Allocated(v.blocks), w.mem, Allocated(v.blocks) - {b}, b)
    && c !in Allocated(v.blocks) - {b} && Allocated(w.blocks) == (Allocated(v.blocks) - {b})[c := len - 32]
    && Copied(v.mem, w.mem, b + HEADER, c + HEADER, oldLen - 48)
    && w.segs == (v.segs - {b - SEGMENT_HEADER})[c - SEGMENT_HEADER := len] && c - SEGMENT_HEADER !in v.segs - {b - SEGMENT_HEADER}
    && Open(w, c) && w.blocks[c].kind == Live && w.blocks[c].size == len - 32
    && c + (len - 32) in w.blocks && w.blocks[c + (len - 32)].kind == Guard
  }

  lemma MovedBlock(v: View, w: View, b: int, at: int, len: nat)
    requires Core(v) && Core(w) && len >= 64 && OnlyInHand(v.blocks, {}) && Bounded(v.segs) && at + len <= TOP
    requires b - SEGMENT_HEADER in v.segs && FreshRegion(v.segs - {b - SEGMENT_HEADER}, v.base, at, len)
    requires w.blocks == Moved(v.blocks, b - SEGMENT_HEADER, at, len) && w.segs == (v.segs - {b - SEGMENT_HEADER})[at := len]
    ensures OnlyInHand(w.blocks, {at + 16}) && Bounded(w.segs) && at !in v.segs - {b - SEGMENT_HEADER}
    ensures Open(w, at + 16) && w.blocks[at + 16].kind == Live && w.blocks[at + 16].size == len - 32
    ensures at + len - 16 in w.blocks && w.blocks[at + len - 16].kind == Guard
  {
    if at in v.segs - {b - SEGMENT_HEADER} {
      HeadersApart(v, b - SEGMENT_HEADER, at);
      SizePositive(v, at);
    }
  }

  lemma SizePositive(v: View, g: int)
    requires Core(v) && g in v.segs
    ensures v.segs[g] >= 64
  {
    assert Key(0);
    HeaderMapped(v, g);
  }

  /** v to w: the segment of b became that of c; w to x: c was carved. */
  lemma RegrowDone(v: View, u: View, w: View, x: View, b: int, c: int, orig: nat, oldLen: nat, len: nat, used: nat)
    requires Core(v) && Core(u) && b in v.blocks && v.blocks[b].kind == Live && v.blocks[b].size == orig
    requires Advanced(v, u, b) && u.mem == v.mem && MovedTo(u, w, b, c, oldLen, len) && HEADER <= orig <= oldLen - 32
    requires Advanced(w, x, c) && c in x.blocks && x.blocks[c].kind == Live && x.blocks[c].size == used && orig <= used <= len - 32
    requires PayloadKept(w.mem, x.mem, c, used)
    ensures Reallocated(v, x, b, c) && SameCache(v, x)
  {
    var live := Allocated(v.blocks);
    SparedTrans(v.mem, live, u.mem, Allocated(u.blocks), w.mem, Allocated(u.blocks) - {b}, b);
    NewPlace(live, Allocated(u.blocks), Allocated(w.blocks), Allocated(x.blocks), b, c, len - 32, used);
    Next(w, c);
    PayloadWord(w, c, c);
    forall y {:trigger PayloadKept(v.mem, x.mem, y, live[y])} | y in live && y != b ensures PayloadKept(v.mem, x.mem, y, live[y]) {
      assert PayloadKept(v.mem, w.mem, y, live[y]);
      assert y in live - {b} && y != c && Allocated(w.blocks)[y] == live[y];
      assert PayloadKept(w.mem, x.mem, y, Allocated(w.blocks)[y]);
      PayloadTrans(v.mem, w.mem, x.mem, y, live[y]);
    }
    forall k {:trigger WordMoved(v.mem, x.mem, b + HEADER, c + HEADER, k)} | 0 <= k < orig - HEADER && k % 8 == 0
      ensures WordMoved(v.mem, x.mem, b + HEADER, c + HEADER, k)
    {
      assert WordMoved(u.mem, w.mem, b + HEADER, c + HEADER, k);
      assert SameWord(w.mem, x.mem, c + HEADER + k);
    }
  }

  lemma NewPlace(live: Sizes, live1: Sizes, live2: Sizes, live3: Sizes, b: int, c: int, len: nat, used: nat)
    requires live - {b} == live1 - {b} && c !in live1 - {b} && live2 == (live1 - {b})[c := len]
    requires live2 - {c} == live3 - {c} && c in live3 && live3[c] == used
    ensures c !in live - {b} && live3 == (live - {b})[c := used]
    ensures forall y :: y in live - {b} ==> y != c && y in live2 && live2[y] == live[y]
  {
    assert live2 - {c} == live1 - {b};
    assert live3 == (live3 - {c})[c := used];
  }

  // ---------- realloc_segment ----------

  /** Behind the first block b is the guard, or a free block and then the guard; together they are too small. */
  ghost predicate LastBlock(v: View, b: int, orig: nat, trueSize: nat) {
    && b in v.blocks && v.blocks[b].kind == Live && v.blocks[b].size == orig < trueSize && v.blocks[b].before == 0 && b + orig in v.blocks
    && var n := v.blocks[b + orig];
       n.kind == Guard || (n.kind == Free && orig + n.size < trueSize && b + orig + n.size in v.blocks && v.blocks[b + orig + n.size].kind == Guard)
  }

  lemma FirstBlock(v: View, b: int)
    requires Core(v) && b in v.blocks && v.blocks[b].before == 0
    ensures b - SEGMENT_HEADER in v.segs && Holds(v.mem, b - SEGMENT_HEADER, v.segs[b - SEGMENT_HEADER])
  {
    assert Key(0);
    assert BlockOk(v.blocks, v.segs, b);
    assert SegmentSize(v.mem, v.segs, b - SEGMENT_HEADER);
  }

  /** A free block that left its list before makes no difference to what is reallocated. */
  lemma ReallocatedLater(v: View, u: View, w: View, b: int, c: int)
    requires Core(v) && Core(u) && Advanced(v, u, 0) && Reallocated(u, w, b, c) && b in v.blocks && v.blocks[b].kind == Live
    requires v.blocks[b].size == u.blocks[b].size <= (if c in w.blocks then w.blocks[c].size else 0) && u.blocks[b].kind == Live
    ensures Reallocated(v, w, b, c)
  {
    var live := Allocated(v.blocks);
    NoBlockAtZero(v);
    NoBlockAtZero(u);
    assert live - {0} == live && Allocated(u.blocks) - {0} == Allocated(u.blocks);
    forall y {:trigger PayloadKept(v.mem, w.mem, y, live[y])} | y in live && y != b ensures PayloadKept(v.mem, w.mem, y, live[y]) {
      assert PayloadKept(v.mem, u.mem, y, live[y]) && PayloadKept(u.mem, w.mem, y, Allocated(u.blocks)[y]);
      PayloadTrans(v.mem, u.mem, w.mem, y, live[y]);
    }
    forall k {:trigger WordMoved(v.mem, w.mem, b + HEADER, c + HEADER, k)} | 0 <= k < v.blocks[b].size - HEADER && k % 8 == 0
      ensures WordMoved(v.mem, w.mem, b + HEADER, c + HEADER, k)
    {
      assert WordMoved(u.mem, w.mem, b + HEADER, c + HEADER, k);
      PayloadWord(v, b, b + HEADER + k);
      PayloadOf(v.mem, live, u.mem, Allocated(u.blocks), b, 0, b + HEADER + k);
    }
  }

  lemma GrownSegments(v: View, w: View, b: int, c: int, oldLen: nat, len: nat)
    requires b - SEGMENT_HEADER in v.segs && v.segs[b - SEGMENT_HEADER] == oldLen && c - SEGMENT_HEADER !in v.segs - {b - SEGMENT_HEADER}
    requires w.segs == (v.segs - {b - SEGMENT_HEADER})[c - SEGMENT_HEADER := len]
    requires Core(w) && Bounded(w.segs)
    ensures Sum(w.segs) == Sum(v.segs) + len - oldLen && Sum(w.segs) <= TOP
  {
    SumWithout(v.segs, b - SEGMENT_HEADER);
    SumSet(v.segs - {b - SEGMENT_HEADER}, c - SEGMENT_HEADER, len);
    SegmentsPacked(w);
  }

  lemma CountedMove(v: View, w: View, b: int, c: int, s: int, sp: int, k: int, r: int, rp: int)
    requires s == Sum(Allocated(v.blocks)) + Sum(CachedBlocks(v.blocks)) <= sp && k == Sum(CachedBlocks(v.blocks)) < CACHE_SIZE + MAX_SMALL
    requires r == Sum(w.segs) <= rp && CachedBlocks(w.blocks) == CachedBlocks(v.blocks) && Reallocated(v, w, b, c)
    requires b in v.blocks && v.blocks[b].kind == Live && c in w.blocks
    ensures var s' := s + w.blocks[c].size - v.blocks[b].size; Counted(w, r, rp, s', if sp < s' then s' else sp, k)
  {
    SumWithout(Allocated(v.blocks), b);
    SumSet(Allocated(v.blocks) - {b}, c, w.blocks[c].size);
    assert Allocated(v.blocks) - {b} - {c} == Allocated(v.blocks) - {b};
  }

  /** The limit check of the source, in 64-bit arithmetic. */
  predicate Within(realSize: int, more: int, limit: nat) { (realSize + more) % WORD <= limit }

  /** From v to w block b became block c, and the segment of b, of oldLen bytes, that of c, of len bytes. */
  ghost predicate Regrown(v: View, w: View, b: int, c: int, oldLen: nat, len: nat) {
    && Core(w) && w.stale == 0 && OnlyInHand(w.blocks, {}) && Bounded(w.segs)
    && Reallocated(v, w, b, c) && SameCache(v, w)
    && b - SEGMENT_HEADER in v.segs && v.segs[b - SEGMENT_HEADER] == oldLen < len && c - SEGMENT_HEADER !in v.segs - {b - SEGMENT_HEADER}
    && w.segs == (v.segs - {b - SEGMENT_HEADER})[c - SEGMENT_HEADER := len]
  }

  lemma CountedSame(v: View, w: View, r: int, rp: int, s: int, sp: int, k: int)
    requires Core(v) && Advanced(v, w, 0) && Counted(v, r, rp, s, sp, k)
    ensures Counted(w, r, rp, s, sp, k)
  {
    NoBlockAtZero(v);
    NoBlockAtZero(w);
    assert Allocated(v.blocks) - {0} == Allocated(v.blocks) && Allocated(w.blocks) - {0} == Allocated(w.blocks);
  }

  lemma GrownCounted(v: View, w: View, b: int, c: int, oldLen: nat, len: nat, r: int, rp: int, s: int, sp: int, k: int, limit: nat)
    requires Core(v) && Counted(v, r, rp, s, sp, k) && Regrown(v, w, b, c, oldLen, len)
    requires b in v.blocks && v.blocks[b].kind == Live && Within(r, len - oldLen, limit)
    ensures r + len - oldLen <= limit
    ensures var r', s' := r + len - oldLen, s + w.blocks[c].size - v.blocks[b].size;
            Counted(w, r', if rp < r' then r' else rp, s', if sp < s' then s' else sp, k)
  {
    GrownSegments(v, w, b, c, oldLen, len);
    var r' := r + len - oldLen;
    assert r' == Sum(w.segs);
    Mod64(r');
    CountedMove(v, w, b, c, s, sp, k, r', if rp < r' then r' else rp);
  }

  /** Where a block that must grow finds room. */
  datatype Room = Enough | Segment | Elsewhere

  lemma StillThere(v: View, w: View, b: int, c: int)
    requires Allotted(v, w, c) && b in v.blocks && v.blocks[b].kind == Live
    ensures b in w.blocks && w.blocks[b].kind == Live && w.blocks[b].size == v.blocks[b].size && b != c
  {
    assert b in Allocated(v.blocks) && Allocated(w.blocks)[b] == Allocated(v.blocks)[b];
  }

  // ---------- the empty heap ----------

  lemma EmptyHeap(v: View, start: Mem)
    requires v.base > 0 && v.base % 8 == 0 && AreaMapped(start, v.base) && v.mem.Keys == start.Keys
    requires v.blocks == map[] && v.segs == map[] && v.order == [] && v.size == map[] && v.first == 0 && v.stale == 0
    requires v.heads == seq(64, i => 0) && v.chains == seq(64, i => [])
    ensures Core(v) && OnlyInHand(v.blocks, {}) && Bounded(v.segs) && Counted(v, 0, 0, 0, 0, 0)
  {
    assert FreeBlocks(v.blocks) == map[] && Allocated(v.blocks) == map[] && CachedBlocks(v.blocks) == map[];
    forall i {:trigger CacheList(v.mem, v.blocks, v.heads, v.chains, i)} | 0 <= i < 64
      ensures CacheList(v.mem, v.blocks, v.heads, v.chains, i)
    {
      assert v.heads[i] == 0 && v.chains[i] == [];
    }
    forall a {:trigger MappedIn(v.mem, v.base, AREA, a)} ensures MappedIn(v.mem, v.base, AREA, a) {
      assert v.base <= a < v.base + AREA && a % 8 == 0 ==> a in start;
    }
    assert Consistent(v);
  }
}
