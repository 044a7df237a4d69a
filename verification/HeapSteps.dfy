/**
 The steps the allocator is made of: a block leaves or enters the free-block index, is fused with the
 next one, gets its tags, is split, enters or leaves the cache; a segment comes or goes.  Each
 keeps the heap consistent and spares every allocated block but the one it is about.
 */
module HeapSteps {
  import opened Bits
  import opened FreeLists
  import opened Memory
  import opened Blocks
  import opened Chains
  import opened HeapView

  // ---------- a block leaves or enters the index ----------

  /** A free block and a block in hand have the same tags. */
  lemma KindSame(v: View, b: int, k: Kind)
    requires Core(v) && b in v.blocks && v.blocks[b].kind in {Free, InHand} && k in {Free, InHand}
    ensures var bl := SetKind(v.blocks, b, k);
            && Tiled(bl, v.segs, v.base) && Tagged(v.mem, bl, v.stale) && CacheOk(v.mem, bl, v.heads, v.chains)
            && Allocated(bl) == Allocated(v.blocks) && CachedBlocks(bl) == CachedBlocks(v.blocks)
            && FreeBlocks(bl) == if k == Free then FreeBlocks(v.blocks)[b := v.blocks[b].size] else FreeBlocks(v.blocks) - {b}
  {
    assert Key(0);
    var bl := SetKind(v.blocks, b, k);
    SetKindTiled(v.blocks, v.segs, v.base, b, k);
    FreeKinds(v.blocks, b, k);
    forall c {:trigger TagsAt(v.mem, bl, v.stale, c)} | c in bl ensures TagsAt(v.mem, bl, v.stale, c) {
      assert TagsAt(v.mem, v.blocks, v.stale, c);
    }
    CacheSame(v.mem, v.blocks, bl, v.heads, v.chains);
  }

  lemma FreeKinds(bl: Blocks, b: int, k: Kind)
    requires b in bl && bl[b].kind in {Free, InHand} && k in {Free, InHand}
    ensures var x := SetKind(bl, b, k);
            && Allocated(x) == Allocated(bl) && CachedBlocks(x) == CachedBlocks(bl)
            && FreeBlocks(x) == if k == Free then FreeBlocks(bl)[b := bl[b].size] else FreeBlocks(bl) - {b}
  {
    var x := SetKind(bl, b, k);
    assert Allocated(x) == Allocated(bl);
    assert CachedBlocks(x) == CachedBlocks(bl);
  }

  lemma TakeStep(v: View, n: Mem, b: int)
    requires Core(v) && b in v.blocks && v.blocks[b].kind == Free && OnlyLinks(v.mem, n, v.base, v.size)
    ensures var w := v.(mem := n, size := v.size - {b}, blocks := SetKind(v.blocks, b, InHand));
            Core(w) && Spared(v.mem, Allocated(v.blocks), n, Allocated(w.blocks), 0) && CachedBlocks(w.blocks) == CachedBlocks(v.blocks)
  {
    assert Key(0);
    LinksStep(v, n);
    KindSame(v.(mem := n), b, InHand);
  }

  /** Neither neighbour of block b is free. */
  ghost predicate Lonely(bl: Blocks, b: int)
    requires b in bl
  {
    && (b + bl[b].size in bl ==> bl[b + bl[b].size].kind != Free)
    && (bl[b].before != 0 && b - bl[b].before in bl ==> bl[b - bl[b].before].kind != Free)
  }

  lemma ListStep(v: View, n: Mem, b: int)
    requires Core(v) && b in v.blocks && v.blocks[b].kind == InHand && Lonely(v.blocks, b)
    requires OnlyLinks(v.mem, n, v.base, v.size[b := v.blocks[b].size])
    ensures var w := v.(mem := n, size := v.size[b := v.blocks[b].size], blocks := SetKind(v.blocks, b, Free));
            Core(w) && Spared(v.mem, Allocated(v.blocks), n, Allocated(w.blocks), 0) && CachedBlocks(w.blocks) == CachedBlocks(v.blocks)
  {
    assert Key(0);
    KindSame(v, b, Free);
    var bl := SetKind(v.blocks, b, Free);
    forall c | c in bl && bl[c].kind == Free && c + bl[c].size in bl ensures bl[c + bl[c].size].kind != Free {
      assert BlockOk(v.blocks, v.segs, c);
    }
    LinksStep(v.(size := v.size[b := v.blocks[b].size], blocks := bl), n);
  }

  /** A block in hand whose tag is in place may be listed. */
  lemma CanList(v: View, l: Lists, b: int)
    requires Core(v) && b in v.blocks && v.blocks[b].kind == InHand && v.stale != b && v.blocks[b].size < WORD
    requires l.base == v.base && l.size == v.size
    ensures b in v.mem && v.mem[b] == v.blocks[b].size && Fits(v.mem, l, b, v.mem[b])
  {
    assert Key(0);
    var s := v.blocks[b].size;
    Inside(v.blocks, v.segs, v.base, b);
    NextBlock(v.blocks, v.segs, v.base, b);
    assert TagsAt(v.mem, v.blocks, v.stale, b);
    BlockMapped(v, b, b + 8);
    BlockMapped(v, b, b + 16);
    BlockMapped(v, b, b + 24);
    if !SmallSize(s) {
      BlockMapped(v, b, b + 32);
      BlockMapped(v, b, b + 40);
      BlockMapped(v, b, b + 48);
    }
    forall y {:trigger ClearOf(l, b, s, y)} | y in l.size ensures ClearOf(l, b, s, y) {
      assert BlocksApart(v.blocks, b, y);
    }
  }

  // ---------- two blocks become one ----------

  ghost predicate Open(v: View, b: int) {
    b in v.blocks && v.blocks[b].kind in {Live, InHand}
  }

  /** Block b swallows the next one; x is the one of them that may be allocated. */
  lemma FuseStep(v: View, b: int, x: int)
    requires Core(v) && Open(v, b) && Open(v, b + v.blocks[b].size)
    requires v.stale in {0, b, b + v.blocks[b].size}
    requires v.blocks[b].kind == Live ==> b == x
    requires v.blocks[b + v.blocks[b].size].kind == Live ==> b + v.blocks[b].size == x
    ensures b + v.blocks[b].size + v.blocks[b + v.blocks[b].size].size in v.blocks
    ensures var w := v.(blocks := Merge(v.blocks, b), stale := b);
            && Core(w) && Spared(v.mem, Allocated(v.blocks), v.mem, Allocated(w.blocks), x)
            && CachedBlocks(w.blocks) == CachedBlocks(v.blocks)
  {
    assert Key(0);
    MergeTiled(v.blocks, v.segs, v.base, b);
    var c := b + v.blocks[b].size;
    var bl := Merge(v.blocks, b);
    assert BlockOk(v.blocks, v.segs, b) && BlockOk(v.blocks, v.segs, c);
    FuseKinds(v, b, x);
    CacheSame(v.mem, v.blocks, bl, v.heads, v.chains);
    FuseTags(v, b);
  }

  lemma FuseKinds(v: View, b: int, x: int)
    requires Tiled(v.blocks, v.segs, v.base) && NoFreePair(v.blocks) && Open(v, b) && Open(v, b + v.blocks[b].size)
    requires v.blocks[b].kind == Live ==> b == x
    requires v.blocks[b + v.blocks[b].size].kind == Live ==> b + v.blocks[b].size == x
    requires b + v.blocks[b].size + v.blocks[b + v.blocks[b].size].size in v.blocks
    ensures var bl := Merge(v.blocks, b);
            && FreeBlocks(bl) == FreeBlocks(v.blocks) && CachedBlocks(bl) == CachedBlocks(v.blocks)
            && Allocated(bl) - {x} == Allocated(v.blocks) - {x} && NoFreePair(bl)
  {
    var c := b + v.blocks[b].size;
    var bl := Merge(v.blocks, b);
    assert BlockOk(v.blocks, v.segs, b) && BlockOk(v.blocks, v.segs, c);
    assert forall d {:trigger Alike(v.blocks, bl, Free, d)} :: Alike(v.blocks, bl, Free, d);
    SameOfKind(v.blocks, bl, Free, 0);
    assert forall d {:trigger Alike(v.blocks, bl, Cached, d)} :: Alike(v.blocks, bl, Cached, d);
    SameOfKind(v.blocks, bl, Cached, 0);
    assert forall d {:trigger Alike(v.blocks, bl, Live, d)} :: d != x ==> Alike(v.blocks, bl, Live, d);
    SameOfKind(v.blocks, bl, Live, x);
  }

  /** Addresses are positive, and a block and the one before it know each other's place. */
  lemma Predecessor(v: View, d: int)
    requires Tiled(v.blocks, v.segs, v.base) && d in v.blocks
    ensures d > 0
    ensures var p := d - v.blocks[d].before;
            v.blocks[d].before != 0 ==> 0 < p < d && p in v.blocks && p + v.blocks[p].size == d && v.blocks[p].kind != Guard
  {
    Inside(v.blocks, v.segs, v.base, d);
    assert BlockOk(v.blocks, v.segs, d);
    if v.blocks[d].before != 0 { Inside(v.blocks, v.segs, v.base, d - v.blocks[d].before); }
  }

  lemma FuseTags(v: View, b: int)
    requires Core(v) && Open(v, b) && Open(v, b + v.blocks[b].size)
    requires v.stale in {0, b, b + v.blocks[b].size}
    requires b + v.blocks[b].size + v.blocks[b + v.blocks[b].size].size in v.blocks
    ensures Tagged(v.mem, Merge(v.blocks, b), b)
  {
    assert Key(0);
    var c := b + v.blocks[b].size;
    var bl := Merge(v.blocks, b);
    assert BlockOk(v.blocks, v.segs, b) && BlockOk(v.blocks, v.segs, c);
    forall d {:trigger TagsAt(v.mem, bl, b, d)} | d in bl ensures TagsAt(v.mem, bl, b, d) {
      assert TagsAt(v.mem, v.blocks, v.stale, d);
      Predecessor(v, d);
    }
  }

  // ---------- a block gets its tags ----------

  /** From m to n only words of block b and the second tag of the next block were written. */
  ghost predicate WritesIn(m: Mem, n: Mem, b: int, s: nat) {
    && m.Keys == n.Keys
    && forall a {:trigger SameWord(m, n, a)} :: a in m && !(b <= a < b + s) && a != b + s + 8 ==> SameWord(m, n, a)
  }

  /** Such writes leave segments, cached blocks and the contents of other blocks alone. */
  lemma WriteIn(v: View, n: Mem, b: int)
    requires Core(v) && Open(v, b) && WritesIn(v.mem, n, b, v.blocks[b].size)
    ensures Mapped(n, v.base, v.segs) && SegmentList(n, v.segs, v.order, v.first) && CacheOk(n, v.blocks, v.heads, v.chains)
    ensures Spared(v.mem, Allocated(v.blocks), n, Allocated(v.blocks), b)
  {
    assert Key(0);
    var s := v.blocks[b].size;
    NextBlock(v.blocks, v.segs, v.base, b);
    Inside(v.blocks, v.segs, v.base, b);
    Inside(v.blocks, v.segs, v.base, b + s);
    MappedFrame(v.mem, n, v.base, v.segs);
    forall g {:trigger TagsKept(v.mem, n, g)} | g in v.segs ensures TagsKept(v.mem, n, g) {
      HeaderMapped(v, g);
      assert SameWord(v.mem, n, g) && SameWord(v.mem, n, g + 8);
    }
    SegmentsFrame(v.mem, n, v.segs, v.order, v.first);
    forall c {:trigger LinkKept(v.mem, n, c)} | c in v.blocks && v.blocks[c].kind == Cached ensures LinkKept(v.mem, n, c) {
      NextBlock(v.blocks, v.segs, v.base, c);
      Inside(v.blocks, v.segs, v.base, c);
      BlockMapped(v, c, c + 16);
      assert BlocksApart(v.blocks, c, b);
      assert c != b + s ==> BlocksApart(v.blocks, c, b + s);
      assert SameWord(v.mem, n, c + 16);
    }
    CacheFrame(v.mem, n, v.blocks, v.heads, v.chains);
    WriteInSpares(v, n, b);
  }

  lemma WriteInSpares(v: View, n: Mem, b: int)
    requires Core(v) && Open(v, b) && b + v.blocks[b].size in v.blocks && WritesIn(v.mem, n, b, v.blocks[b].size)
    ensures Spared(v.mem, Allocated(v.blocks), n, Allocated(v.blocks), b)
  {
    assert Key(0);
    var s := v.blocks[b].size;
    var live := Allocated(v.blocks);
    Inside(v.blocks, v.segs, v.base, b + s);
    forall x {:trigger PayloadKept(v.mem, n, x, live[x])} | x in live && x != b ensures PayloadKept(v.mem, n, x, live[x]) {
      assert BlocksApart(v.blocks, x, b);
      assert x != b + s ==> BlocksApart(v.blocks, x, b + s);
    }
  }

  lemma TagWrite(v: View, b: int, bits: nat)
    requires Core(v) && Open(v, b)
    ensures WritesIn(v.mem, BlockWrite(v.mem, b, v.blocks[b].size, bits), b, v.blocks[b].size)
  {
    assert Key(0);
    var s := v.blocks[b].size;
    NextBlock(v.blocks, v.segs, v.base, b);
    Inside(v.blocks, v.segs, v.base, b);
    Inside(v.blocks, v.segs, v.base, b + s);
    BlockMapped(v, b, b);
    BlockMapped(v, b + s, b + s + 8);
  }

  /** The tags of block b say what it is. */
  lemma FinishStep(v: View, b: int, k: Kind)
    requires Core(v) && Open(v, b) && v.stale in {0, b} && k in {Live, InHand}
    requires b + v.blocks[b].size in v.blocks ==> v.blocks[b + v.blocks[b].size].kind != Free
    ensures var n := BlockWrite(v.mem, b, v.blocks[b].size, TypeBits(k));
            var w := v.(mem := n, blocks := SetKind(v.blocks, b, k), stale := 0);
            && n.Keys == v.mem.Keys && Core(w)
            && Spared(v.mem, Allocated(v.blocks), n, Allocated(w.blocks), b)
            && CachedBlocks(w.blocks) == CachedBlocks(v.blocks)
  {
    assert Key(0);
    TagWrite(v, b, TypeBits(k));
    WriteIn(v, BlockWrite(v.mem, b, v.blocks[b].size, TypeBits(k)), b);
    SetKindTiled(v.blocks, v.segs, v.base, b, k);
    KindOpen(v.blocks, b, k);
    CacheSame(BlockWrite(v.mem, b, v.blocks[b].size, TypeBits(k)), v.blocks, SetKind(v.blocks, b, k), v.heads, v.chains);
    FinishTags(v, b, k);
  }

  lemma KindOpen(was: Blocks, b: int, k: Kind)
    requires b in was && was[b].kind in {Live, InHand} && k in {Live, InHand} && NoFreePair(was)
    ensures var bl := SetKind(was, b, k);
            && FreeBlocks(bl) == FreeBlocks(was) && CachedBlocks(bl) == CachedBlocks(was)
            && Allocated(bl) - {b} == Allocated(was) - {b} && NoFreePair(bl)
  {
    var bl := SetKind(was, b, k);
    assert forall d {:trigger Alike(was, bl, Free, d)} :: Alike(was, bl, Free, d);
    SameOfKind(was, bl, Free, 0);
    assert forall d {:trigger Alike(was, bl, Cached, d)} :: Alike(was, bl, Cached, d);
    SameOfKind(was, bl, Cached, 0);
    assert forall d {:trigger Alike(was, bl, Live, d)} :: d != b ==> Alike(was, bl, Live, d);
    SameOfKind(was, bl, Live, b);
  }

  lemma FinishTags(v: View, b: int, k: Kind)
    requires Core(v) && Open(v, b) && v.stale in {0, b} && k in {Live, InHand}
    ensures Tagged(BlockWrite(v.mem, b, v.blocks[b].size, TypeBits(k)), SetKind(v.blocks, b, k), 0)
  {
    assert Key(0);
    var s := v.blocks[b].size;
    var n, bl := BlockWrite(v.mem, b, s, TypeBits(k)), SetKind(v.blocks, b, k);
    NextBlock(v.blocks, v.segs, v.base, b);
    Inside(v.blocks, v.segs, v.base, b + s);
    forall d {:trigger TagsAt(n, bl, 0, d)} | d in bl ensures TagsAt(n, bl, 0, d) {
      assert TagsAt(v.mem, v.blocks, v.stale, d);
      Predecessor(v, d);
      Inside(v.blocks, v.segs, v.base, d);
      assert d != b ==> BlocksApart(v.blocks, d, b);
      assert d != b + s ==> BlocksApart(v.blocks, d, b + s);
    }
  }

  // ---------- a block is split ----------

  function SplitWrite(m: Mem, b: int, n: nat, rest: nat): Mem {
    BlockWrite(BlockWrite(m, b, n, TypeBits(Live)), b + n, rest, TypeBits(InHand))
  }

  /** Block b keeps its first n bytes and is allocated; the remainder is a block in hand. */
  lemma SplitStep(v: View, b: int, n: nat)
    requires Core(v) && Open(v, b) && v.stale in {0, b}
    requires n % 8 == 0 && MIN_BLOCK <= n && n + MIN_BLOCK <= v.blocks[b].size
    ensures b + v.blocks[b].size in v.blocks
    ensures var m := SplitWrite(v.mem, b, n, v.blocks[b].size - n);
            var w := v.(mem := m, blocks := Split(v.blocks, b, n, Live, InHand), stale := 0);
            && m.Keys == v.mem.Keys && Core(w)
            && Spared(v.mem, Allocated(v.blocks), m, Allocated(w.blocks), b)
            && CachedBlocks(w.blocks) == CachedBlocks(v.blocks)
  {
    assert Key(0);
    SplitTiled(v.blocks, v.segs, v.base, b, n, Live, InHand);
    SplitWrites(v, b, n);
    WriteIn(v, SplitWrite(v.mem, b, n, v.blocks[b].size - n), b);
    SplitKinds(v.blocks, b, n);
    CacheSame(SplitWrite(v.mem, b, n, v.blocks[b].size - n), v.blocks, Split(v.blocks, b, n, Live, InHand), v.heads, v.chains);
    SplitTags(v, b, n);
  }

  lemma SplitKinds(bl: Blocks, b: int, n: nat)
    requires b in bl && bl[b].kind in {Live, InHand} && n < bl[b].size && b + bl[b].size in bl && b + n !in bl && NoFreePair(bl)
    requires n > 0
    ensures var x := Split(bl, b, n, Live, InHand);
            && FreeBlocks(x) == FreeBlocks(bl) && CachedBlocks(x) == CachedBlocks(bl)
            && Allocated(x) - {b} == Allocated(bl) - {b} && NoFreePair(x)
  {
    var x := Split(bl, b, n, Live, InHand);
    assert forall d {:trigger Alike(bl, x, Free, d)} :: Alike(bl, x, Free, d);
    SameOfKind(bl, x, Free, 0);
    assert forall d {:trigger Alike(bl, x, Cached, d)} :: Alike(bl, x, Cached, d);
    SameOfKind(bl, x, Cached, 0);
    assert forall d {:trigger Alike(bl, x, Live, d)} :: d != b ==> Alike(bl, x, Live, d);
    SameOfKind(bl, x, Live, b);
  }

  lemma SplitWrites(v: View, b: int, n: nat)
    requires Core(v) && Open(v, b) && n % 8 == 0 && MIN_BLOCK <= n && n + MIN_BLOCK <= v.blocks[b].size
    ensures WritesIn(v.mem, SplitWrite(v.mem, b, n, v.blocks[b].size - n), b, v.blocks[b].size)
  {
    assert Key(0);
    var s := v.blocks[b].size;
    NextBlock(v.blocks, v.segs, v.base, b);
    Inside(v.blocks, v.segs, v.base, b);
    Inside(v.blocks, v.segs, v.base, b + s);
    BlockMapped(v, b, b);
    BlockMapped(v, b, b + n);
    BlockMapped(v, b, b + n + 8);
    BlockMapped(v, b + s, b + s + 8);
  }

  /** The tags of another block are outside block b; its second tag is the one behind b only if it follows b. */
  lemma TagsBeside(v: View, b: int, d: int)
    requires Tiled(v.blocks, v.segs, v.base) && b in v.blocks && d in v.blocks && d != b && b + v.blocks[b].size in v.blocks
    ensures d + 16 <= b || b + v.blocks[b].size <= d
    ensures d != b + v.blocks[b].size ==> d + 16 <= b + v.blocks[b].size || b + v.blocks[b].size + 16 <= d
  {
    var e := b + v.blocks[b].size;
    Inside(v.blocks, v.segs, v.base, d);
    Inside(v.blocks, v.segs, v.base, e);
    assert BlocksApart(v.blocks, d, b);
    assert d != e ==> BlocksApart(v.blocks, d, e);
  }

  lemma SplitWord(m: Mem, b: int, n: nat, rest: nat, a: int)
    requires a in m && a != b && a != b + n && a != b + n + 8 && a != b + n + rest + 8
    ensures SameWord(m, SplitWrite(m, b, n, rest), a)
  {
  }

  /** The block behind b has a new second tag. */
  lemma SplitNextTags(v: View, b: int, n: nat)
    requires Core(v) && Open(v, b) && v.stale in {0, b} && b + v.blocks[b].size in v.blocks && b + n !in v.blocks
    requires 0 < n < v.blocks[b].size && n + 16 <= v.blocks[b].size
    ensures var bl := Split(v.blocks, b, n, Live, InHand);
            TagsAt(SplitWrite(v.mem, b, n, v.blocks[b].size - n), bl, 0, b + v.blocks[b].size)
  {
    assert Key(0);
    var e := b + v.blocks[b].size;
    assert TagsAt(v.mem, v.blocks, v.stale, e);
    Predecessor(v, e);
  }

  /** Every other block has the tags it had. */
  lemma SplitFarTags(v: View, b: int, n: nat, d: int)
    requires Core(v) && Open(v, b) && v.stale in {0, b} && b + v.blocks[b].size in v.blocks && b + n !in v.blocks
    requires 0 < n < v.blocks[b].size && n + 16 <= v.blocks[b].size
    requires d in v.blocks && d != b && d != b + v.blocks[b].size
    ensures d in Split(v.blocks, b, n, Live, InHand)
    ensures TagsAt(SplitWrite(v.mem, b, n, v.blocks[b].size - n), Split(v.blocks, b, n, Live, InHand), 0, d)
  {
    assert Key(0);
    assert TagsAt(v.mem, v.blocks, v.stale, d);
    Predecessor(v, d);
    TagsBeside(v, b, d);
    FarWords(v.mem, v.blocks, SplitWrite(v.mem, b, n, v.blocks[b].size - n), b, n, v.blocks[b].size, v.stale, d);
    TagsSame(v.mem, SplitWrite(v.mem, b, n, v.blocks[b].size - n), v.blocks, Split(v.blocks, b, n, Live, InHand), v.stale, d);
  }

  lemma FarWords(m: Mem, bl: Blocks, x: Mem, b: int, n: nat, s: nat, stale: int, d: int)
    requires d in bl && TagsAt(m, bl, stale, d) && d != stale && (bl[d].before == 0 || d - bl[d].before != stale)
    requires n + 16 <= s && x == SplitWrite(m, b, n, s - n)
    requires (d + 16 <= b || b + s + 16 <= d)
    ensures SameWord(m, x, d) && SameWord(m, x, d + 8)
  {
    SplitWord(m, b, n, s - n, d);
    SplitWord(m, b, n, s - n, d + 8);
  }

  lemma TagsSame(m: Mem, n: Mem, bl: Blocks, x: Blocks, stale: int, d: int)
    requires d in bl && d in x && x[d] == bl[d] && TagsAt(m, bl, stale, d) && BeforeTag(x, d) == BeforeTag(bl, d)
    requires d != stale && (bl[d].before == 0 || d - bl[d].before != stale)
    requires SameWord(m, n, d) && SameWord(m, n, d + 8)
    ensures TagsAt(n, x, 0, d)
  {
  }

  lemma SplitTags(v: View, b: int, n: nat)
    requires Core(v) && Open(v, b) && v.stale in {0, b} && b + v.blocks[b].size in v.blocks && b + n !in v.blocks
    requires n % 8 == 0 && MIN_BLOCK <= n && n + MIN_BLOCK <= v.blocks[b].size
    ensures Tagged(SplitWrite(v.mem, b, n, v.blocks[b].size - n), Split(v.blocks, b, n, Live, InHand), 0)
  {
    assert Key(0);
    var m, bl := SplitWrite(v.mem, b, n, v.blocks[b].size - n), Split(v.blocks, b, n, Live, InHand);
    assert TagsAt(v.mem, v.blocks, v.stale, b);
    Predecessor(v, b);
    forall d {:trigger TagsAt(m, bl, 0, d)} | d in bl ensures TagsAt(m, bl, 0, d) {
      if d == b + v.blocks[b].size {
        SplitNextTags(v, b, n);
      } else if d != b + n && d != b {
        SplitFarTags(v, b, n, d);
      }
    }
  }
}
