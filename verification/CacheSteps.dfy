/** Steps of the cache of small blocks, and of the program's own writes. */
module CacheSteps {
  import opened Bits
  import opened FreeLists
  import opened Memory
  import opened Blocks
  import opened Chains
  import opened HeapView
  import opened HeapSteps

  /** Allocated and cached blocks have the same tags. */
  lemma UsedKind(v: View, n: Mem, b: int, k: Kind)
    requires Core(v) && v.stale == 0 && b in v.blocks && v.blocks[b].kind in {Live, Cached} && k in {Live, Cached}
    requires WritesIn(v.mem, n, b, v.blocks[b].size) && TagsKept(v.mem, n, b)
    requires SameWord(v.mem, n, b + v.blocks[b].size + 8)
    ensures var bl := SetKind(v.blocks, b, k);
            && Tiled(bl, v.segs, v.base) && NoFreePair(bl) && FreeBlocks(bl) == FreeBlocks(v.blocks) && Tagged(n, bl, 0)
            && Allocated(bl) - {b} == Allocated(v.blocks) - {b}
            && CachedBlocks(bl) == if k == Cached then CachedBlocks(v.blocks)[b := v.blocks[b].size] else CachedBlocks(v.blocks) - {b}
  {
    assert Key(0);
    var bl := SetKind(v.blocks, b, k);
    SetKindTiled(v.blocks, v.segs, v.base, b, k);
    UsedKinds(v.blocks, b, k);
    forall d {:trigger TagsAt(n, bl, 0, d)} | d in bl ensures TagsAt(n, bl, 0, d) {
      OtherTags(v, n, b, d);
      assert TagsAt(v.mem, v.blocks, 0, d);
      Predecessor(v, d);
    }
  }

  /** Writes inside block b leave the tags of every block alone. */
  lemma OtherTags(v: View, n: Mem, b: int, d: int)
    requires Core(v) && v.stale == 0 && b in v.blocks && v.blocks[b].kind in {Live, Cached} && d in v.blocks
    requires WritesIn(v.mem, n, b, v.blocks[b].size) && TagsKept(v.mem, n, b)
    requires SameWord(v.mem, n, b + v.blocks[b].size + 8)
    ensures SameWord(v.mem, n, d) && SameWord(v.mem, n, d + 8)
  {
    assert Key(0);
    BlockMapped(v, d, d) by { Inside(v.blocks, v.segs, v.base, d); }
    assert d != b ==> BlocksApart(v.blocks, d, b);
    Inside(v.blocks, v.segs, v.base, d);
    BlockMapped(v, d, d + 8);
  }

  lemma UsedKinds(bl: Blocks, b: int, k: Kind)
    requires b in bl && bl[b].kind in {Live, Cached} && k in {Live, Cached} && NoFreePair(bl)
    ensures var x := SetKind(bl, b, k);
            && NoFreePair(x) && FreeBlocks(x) == FreeBlocks(bl) && Allocated(x) - {b} == Allocated(bl) - {b}
            && CachedBlocks(x) == if k == Cached then CachedBlocks(bl)[b := bl[b].size] else CachedBlocks(bl) - {b}
  {
    var x := SetKind(bl, b, k);
    assert FreeBlocks(x) == FreeBlocks(bl);
    assert Allocated(x) - {b} == Allocated(bl) - {b};
  }

  /** An allocated small block goes to the front of the cache list of its size. */
  lemma PushStep(v: View, b: int)
    requires Core(v) && v.stale == 0 && b in v.blocks && v.blocks[b].kind == Live && SmallSize(v.blocks[b].size)
    ensures 0 <= BucketIndex(v.blocks[b].size) < 64 && |v.heads| == |v.chains| == 64
    ensures var i := BucketIndex(v.blocks[b].size);
            var w := v.(mem := v.mem[b + 16 := v.heads[i]], heads := v.heads[i := b], chains := v.chains[i := [b] + v.chains[i]],
                        blocks := SetKind(v.blocks, b, Cached));
            && w.mem.Keys == v.mem.Keys && Core(w) && Spared(v.mem, Allocated(v.blocks), w.mem, Allocated(w.blocks), b)
            && CachedBlocks(w.blocks) == CachedBlocks(v.blocks)[b := v.blocks[b].size]
  {
    assert Key(0);
    var s := v.blocks[b].size;
    var i := BucketIndex(s);
    Inside(v.blocks, v.segs, v.base, b);
    NextBlock(v.blocks, v.segs, v.base, b);
    BucketBijection(s, i);
    var n := v.mem[b + 16 := v.heads[i]];
    BlockMapped(v, b, b);
    BlockMapped(v, b, b + 8);
    BlockMapped(v, b, b + 16);
    Inside(v.blocks, v.segs, v.base, b + s);
    BlockMapped(v, b + s, b + s + 8);
    WriteIn(v, n, b);
    UsedKind(v, n, b, Cached);
    PushCache(v, n, b, i);
  }

  lemma PushCache(v: View, n: Mem, b: int, i: nat)
    requires Core(v) && b in v.blocks && v.blocks[b].kind == Live && SmallSize(v.blocks[b].size) && i < 64
    requires BucketIndex(v.blocks[b].size) == i && v.blocks[b].size == BucketSize(i) && b > 0
    requires CacheOk(n, v.blocks, v.heads, v.chains) && Holds(n, b + 16, v.heads[i])
    ensures CacheOk(n, SetKind(v.blocks, b, Cached), v.heads[i := b], v.chains[i := [b] + v.chains[i]])
  {
    assert Key(0);
    var bl, heads, chains := SetKind(v.blocks, b, Cached), v.heads[i := b], v.chains[i := [b] + v.chains[i]];
    forall j {:trigger CacheList(n, bl, heads, chains, j)} | 0 <= j < 64 ensures CacheList(n, bl, heads, chains, j) {
      assert CacheList(n, v.blocks, v.heads, v.chains, j);
      assert b in v.chains[j] ==> InCache(v.blocks, b, j);
      forall x | x in chains[j] ensures InCache(bl, x, j) {
        assert x != b ==> InCache(v.blocks, x, j);
      }
      if j == i {
        Push(n, 16, v.heads[i], v.chains[i], b);
      }
    }
    forall c {:trigger CachedOk(bl, chains, c)} | c in bl && bl[c].kind == Cached ensures CachedOk(bl, chains, c) {
      assert c != b ==> CachedOk(v.blocks, v.chains, c);
    }
  }

  /** The block at the front of a cache list is handed out. */
  lemma PopStep(v: View, i: nat)
    requires Core(v) && v.stale == 0 && i < 64 && |v.heads| == 64 && v.heads[i] != 0
    ensures |v.chains| == 64 && v.chains[i] != []
    ensures var b := v.heads[i];
            && b in v.blocks && v.blocks[b].kind == Cached && v.blocks[b].size == BucketSize(i)
            && b in v.mem && v.mem[b] == BucketSize(i) + 1 && b + 16 in v.mem
            && var w := v.(heads := v.heads[i := v.mem[b + 16]], chains := v.chains[i := v.chains[i][1..]],
                           blocks := SetKind(v.blocks, b, Live));
            && Core(w) && Spared(v.mem, Allocated(v.blocks), v.mem, Allocated(w.blocks), b)
            && CachedBlocks(w.blocks) == CachedBlocks(v.blocks) - {b}
  {
    assert Key(0);
    assert CacheList(v.mem, v.blocks, v.heads, v.chains, i);
    Pop(v.mem, 16, v.heads[i], v.chains[i]);
    var b := v.heads[i];
    assert b in v.chains[i];
    assert InCache(v.blocks, b, i);
    Inside(v.blocks, v.segs, v.base, b);
    NextBlock(v.blocks, v.segs, v.base, b);
    BlockMapped(v, b, b);
    BlockMapped(v, b, b + 8);
    assert TagsAt(v.mem, v.blocks, v.stale, b);
    Inside(v.blocks, v.segs, v.base, b + v.blocks[b].size);
    BlockMapped(v, b + v.blocks[b].size, b + v.blocks[b].size + 8);
    UsedKind(v, v.mem, b, Live);
    PopCache(v, b, i);
  }

  lemma PopCache(v: View, b: int, i: nat)
    requires Core(v) && i < 64 && |v.heads| == |v.chains| == 64 && v.chains[i] != [] && b == v.chains[i][0] && b + 16 in v.mem
    requires InCache(v.blocks, b, i) && b !in v.chains[i][1..] && Chain(v.mem, 16, v.mem[b + 16], v.chains[i][1..])
    ensures CacheOk(v.mem, SetKind(v.blocks, b, Live), v.heads[i := v.mem[b + 16]], v.chains[i := v.chains[i][1..]])
  {
    assert Key(0);
    var bl, heads, chains := SetKind(v.blocks, b, Live), v.heads[i := v.mem[b + 16]], v.chains[i := v.chains[i][1..]];
    forall j {:trigger CacheList(v.mem, bl, heads, chains, j)} | 0 <= j < 64 ensures CacheList(v.mem, bl, heads, chains, j) {
      assert CacheList(v.mem, v.blocks, v.heads, v.chains, j);
      forall x | x in chains[j] ensures InCache(bl, x, j) {
        assert InCache(v.blocks, x, j);
      }
    }
    forall c {:trigger CachedOk(bl, chains, c)} | c in bl && bl[c].kind == Cached ensures CachedOk(bl, chains, c) {
      assert CachedOk(v.blocks, v.chains, c);
    }
  }

  /** The program writes a word of an allocated block. */
  lemma PokeStep(v: View, b: int, a: int, x: int)
    requires Core(v) && v.stale == 0 && b in v.blocks && v.blocks[b].kind == Live
    requires b + HEADER <= a && a + 8 <= b + v.blocks[b].size && a % 8 == 0
    ensures a in v.mem && Core(v.(mem := v.mem[a := x]))
    ensures Spared(v.mem, Allocated(v.blocks), v.mem[a := x], Allocated(v.blocks), b)
  {
    assert Key(0);
    var s := v.blocks[b].size;
    var n := v.mem[a := x];
    BlockMapped(v, b, a);
    Inside(v.blocks, v.segs, v.base, b);
    NextBlock(v.blocks, v.segs, v.base, b);
    Inside(v.blocks, v.segs, v.base, b + s);
    WriteIn(v, n, b);
    forall d {:trigger TagsKept(v.mem, n, d)} | d in v.blocks ensures TagsKept(v.mem, n, d) {
      Inside(v.blocks, v.segs, v.base, d);
      BlockMapped(v, d, d);
      BlockMapped(v, d, d + 8);
      assert d != b ==> BlocksApart(v.blocks, d, b);
    }
    TaggedFrame(v.mem, n, v.blocks, 0);
  }
}
