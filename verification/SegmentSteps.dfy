/** Steps that get segments from the storage layer, give them back, or have them moved. */
module SegmentSteps {
  import Rings
  import opened Bits
  import opened FreeLists
  import opened Memory
  import opened Blocks
  import opened Chains
  import opened HeapView
  import opened HeapSteps

  /** The words of the region of n bytes at g. */
  ghost predicate Inner(g: int, n: nat, a: int) { g <= a < g + n }

  /** Outside the region, what was mapped in m is unchanged in n, except perhaps the word at `link`. */
  ghost predicate KeptOutside(m: Mem, n: Mem, g: int, len: nat, link: int) {
    forall a {:trigger SameWord(m, n, a)} :: a in m && !Inner(g, len, a) && a != link ==> SameWord(m, n, a)
  }

  ghost predicate Grown(m: Mem, n: Mem) { forall a {:trigger SameWord(m, n, a)} :: a in m ==> SameWord(m, n, a) }

  /** What the allocator writes into a new segment before it carves a block out of it. */
  ghost predicate Prepared(m: Mem, g: int, n: nat, next: int) {
    && Region(m, g, n)
    && Holds(m, g, n) && Holds(m, g + 8, next)
    && Holds(m, g + 24, 3) && Holds(m, g + n - 16, Tag(HEADER, Guard))
  }

  lemma AddSegmentKinds(bl: Blocks, g: int, n: nat, k: Kind)
    requires n >= 64 && k in {Live, InHand} && NoFreePair(bl) && g + 16 !in bl && g + n - 16 !in bl
    ensures var x := AddSegment(bl, g, n, k);
            && NoFreePair(x) && FreeBlocks(x) == FreeBlocks(bl) && CachedBlocks(x) == CachedBlocks(bl)
            && Allocated(x) == if k == Live then Allocated(bl)[g + 16 := n - 32] else Allocated(bl)
  {
    var x := AddSegment(bl, g, n, k);
    assert forall d {:trigger Alike(bl, x, Free, d)} :: Alike(bl, x, Free, d);
    SameOfKind(bl, x, Free, 0);
    assert forall d {:trigger Alike(bl, x, Cached, d)} :: Alike(bl, x, Cached, d);
    SameOfKind(bl, x, Cached, 0);
    assert forall d {:trigger Alike(bl, x, Live, d)} :: d != g + 16 ==> Alike(bl, x, Live, d);
    SameOfKind(bl, x, Live, g + 16);
    assert Allocated(bl) - {g + 16} == Allocated(bl);
    assert k == Live ==> Allocated(x) == (Allocated(x) - {g + 16})[g + 16 := n - 32];
  }

  /** A fresh segment, first in the list; its one block is in hand and its size is not written yet. */
  lemma AddStep(v: View, n: Mem, g: int, len: nat)
    requires Core(v) && v.stale == 0 && FreshRegion(v.segs, v.base, g, len) && len % 8 == 0 && len >= 64
    requires Grown(v.mem, n) && Prepared(n, g, len, v.first)
    ensures g !in v.segs
    ensures var w := v.(mem := n, first := g, segs := v.segs[g := len], order := [g] + v.order,
                        blocks := AddSegment(v.blocks, g, len, InHand), stale := g + 16);
            && Core(w) && Spared(v.mem, Allocated(v.blocks), n, Allocated(w.blocks), 0)
            && CachedBlocks(w.blocks) == CachedBlocks(v.blocks)
  {
    assert Key(0);
    AddSegmentTiled(v.blocks, v.segs, v.base, g, len, InHand);
    FreshAddresses(v, g, len);
    AddSegmentKinds(v.blocks, g, len, InHand);
    AllWords(v, n);
    NewSegmentMapped(v, n, g, len);
    NewFirst(v, n, g, len);
    CacheFrame(v.mem, n, v.blocks, v.heads, v.chains);
    CacheSame(n, v.blocks, AddSegment(v.blocks, g, len, InHand), v.heads, v.chains);
    AddTags(v, n, g, len, InHand);
  }

  lemma FreshAddresses(v: View, g: int, len: nat)
    requires Tiled(v.blocks, v.segs, v.base) && FreshRegion(v.segs, v.base, g, len) && len >= 64
    ensures forall b :: b in v.blocks ==> Apart(b, v.blocks[b].size, g, len) && v.blocks[b].size > 0 && b > 0
    ensures g + 16 !in v.blocks && g + len - 16 !in v.blocks && g > 0
  {
    forall b | b in v.blocks ensures Apart(b, v.blocks[b].size, g, len) && v.blocks[b].size > 0 && b > 0 {
      Inside(v.blocks, v.segs, v.base, b);
      assert Apart(g, len, v.blocks[b].seg, v.segs[v.blocks[b].seg]);
    }
  }

  /** With all mapped words kept, tags, headers and cache links are kept. */
  lemma AllWords(v: View, n: Mem)
    requires Core(v) && Grown(v.mem, n)
    ensures forall b {:trigger TagsKept(v.mem, n, b)} :: b in v.blocks || b in v.segs ==> TagsKept(v.mem, n, b)
    ensures forall b {:trigger LinkKept(v.mem, n, b)} :: b in v.blocks && v.blocks[b].kind == Cached ==> LinkKept(v.mem, n, b)
    ensures Spared(v.mem, Allocated(v.blocks), n, Allocated(v.blocks), 0)
  {
    assert Key(0);
    forall b {:trigger TagsKept(v.mem, n, b)} | b in v.blocks || b in v.segs ensures TagsKept(v.mem, n, b) {
      if b in v.blocks {
        Inside(v.blocks, v.segs, v.base, b);
        BlockMapped(v, b, b);
        BlockMapped(v, b, b + 8);
      } else {
        HeaderMapped(v, b);
      }
      assert SameWord(v.mem, n, b) && SameWord(v.mem, n, b + 8);
    }
    forall b {:trigger LinkKept(v.mem, n, b)} | b in v.blocks && v.blocks[b].kind == Cached ensures LinkKept(v.mem, n, b) {
      Inside(v.blocks, v.segs, v.base, b);
      NextBlock(v.blocks, v.segs, v.base, b);
      BlockMapped(v, b, b + 16);
      assert SameWord(v.mem, n, b + 16);
    }
  }

  lemma NewSegmentMapped(v: View, n: Mem, g: int, len: nat)
    requires Mapped(v.mem, v.base, v.segs) && Grown(v.mem, n) && Region(n, g, len)
    ensures Mapped(n, v.base, v.segs[g := len])
  {
    forall a | a in v.mem ensures a in n { assert SameWord(v.mem, n, a); }
    MappedFrame(v.mem, n, v.base, v.segs);
    forall h {:trigger SegmentMapped(n, v.segs[g := len], h)} | h in v.segs[g := len] ensures SegmentMapped(n, v.segs[g := len], h) {
      if h != g { assert SegmentMapped(n, v.segs, h); }
    }
  }

  lemma NewFirst(v: View, n: Mem, g: int, len: nat)
    requires SegmentList(v.mem, v.segs, v.order, v.first) && g !in v.segs && g > 0
    requires forall h {:trigger TagsKept(v.mem, n, h)} :: h in v.segs ==> TagsKept(v.mem, n, h)
    requires Holds(n, g, len) && Holds(n, g + 8, v.first)
    ensures SegmentList(n, v.segs[g := len], [g] + v.order, g)
  {
    SegmentsFrame(v.mem, n, v.segs, v.order, v.first);
    Push(n, 8, v.first, v.order, g);
    forall h {:trigger SegmentSize(n, v.segs[g := len], h)} | h in v.segs[g := len] ensures SegmentSize(n, v.segs[g := len], h) {
      if h != g { assert SegmentSize(n, v.segs, h); }
    }
  }

  lemma AddTags(v: View, n: Mem, g: int, len: nat, k: Kind)
    requires Tagged(v.mem, v.blocks, v.stale) && v.stale == 0 && Prepared(n, g, len, if g + 8 in n then n[g + 8] else 0)
    requires Tiled(v.blocks, v.segs, v.base) && len >= 64
    requires g + 16 !in v.blocks && g + len - 16 !in v.blocks && g > 0
    requires forall b {:trigger TagsKept(v.mem, n, b)} :: b in v.blocks ==> TagsKept(v.mem, n, b)
    ensures Tagged(n, AddSegment(v.blocks, g, len, k), g + 16)
  {
    var bl := AddSegment(v.blocks, g, len, k);
    forall b {:trigger TagsAt(n, bl, g + 16, b)} | b in bl ensures TagsAt(n, bl, g + 16, b) {
      if b in v.blocks {
        assert TagsAt(v.mem, v.blocks, 0, b) && TagsKept(v.mem, n, b);
        Predecessor(v, b);
      }
    }
  }

  // ---------- a segment is given back ----------

  /** The segment of the block in hand b, which fills it, leaves the list. */
  lemma DropStep(v: View, n: Mem, b: int, j: nat)
    requires Core(v) && Open(v, b) && v.stale in {0, b} && v.blocks[b].before == 0
    requires b + v.blocks[b].size in v.blocks && v.blocks[b + v.blocks[b].size].kind == Guard
    requires j < |v.order| && v.order[j] == b - 16 && b - 16 in v.segs
    requires KeptOutside(v.mem, n, b - 16, v.segs[b - 16], if j == 0 then 0 else v.order[j - 1] + 8)
    requires j > 0 ==> Holds(n, v.order[j - 1] + 8, After(v.order, j))
    ensures var g := b - 16;
            var w := v.(mem := n, first := if j == 0 then After(v.order, 0) else v.first, order := v.order[..j] + v.order[j + 1..],
                        segs := v.segs - {g}, blocks := DropSegment(v.blocks, g), stale := 0);
            && Core(w) && Spared(v.mem, Allocated(v.blocks), n, Allocated(w.blocks), b)
            && CachedBlocks(w.blocks) == CachedBlocks(v.blocks)
  {
    assert Key(0);
    var g, link := b - 16, if j == 0 then 0 else v.order[j - 1] + 8;
    SoleBlock(v.blocks, v.segs, v.base, b);
    DropSegmentTiled(v.blocks, v.segs, v.base, g);
    DropKinds(v, b);
    LinkIsHeader(v, j);
    OtherWords(v, n, g, link);
    DropTags(v, n, b);
    DropCache(v, n, b);
    DropMapped(v, n, g, link);
    DropFromList(v, n, j);
    DropSpares(v, n, b, link);
  }

  lemma DropKinds(v: View, b: int)
    requires Tiled(v.blocks, v.segs, v.base) && NoFreePair(v.blocks) && Open(v, b) && v.blocks[b].before == 0
    requires b + v.blocks[b].size in v.blocks && v.blocks[b + v.blocks[b].size].kind == Guard
    ensures var bl := DropSegment(v.blocks, v.blocks[b].seg);
            && bl == v.blocks - {b, b + v.blocks[b].size}
            && NoFreePair(bl) && FreeBlocks(bl) == FreeBlocks(v.blocks) && CachedBlocks(bl) == CachedBlocks(v.blocks)
            && Allocated(bl) - {b} == Allocated(v.blocks) - {b}
  {
    SoleBlock(v.blocks, v.segs, v.base, b);
    var bl := DropSegment(v.blocks, v.blocks[b].seg);
    assert BlockOk(v.blocks, v.segs, b);
    forall x ensures x in bl <==> x in v.blocks && x != b && x != b + v.blocks[b].size {
    }
    assert bl == v.blocks - {b, b + v.blocks[b].size};
    DropOthers(v.blocks, b);
  }

  /** Taking away the block in hand b and the guard behind it. */
  lemma DropOthers(bl: Blocks, b: int)
    requires b in bl && bl[b].kind in {Live, InHand} && b + bl[b].size in bl && bl[b + bl[b].size].kind == Guard
    ensures var x := bl - {b, b + bl[b].size};
            && FreeBlocks(x) == FreeBlocks(bl) && CachedBlocks(x) == CachedBlocks(bl) && Allocated(x) - {b} == Allocated(bl) - {b}
  {
    var x := bl - {b, b + bl[b].size};
    assert forall d {:trigger Alike(bl, x, Free, d)} :: Alike(bl, x, Free, d);
    SameOfKind(bl, x, Free, 0);
    assert forall d {:trigger Alike(bl, x, Cached, d)} :: Alike(bl, x, Cached, d);
    SameOfKind(bl, x, Cached, 0);
    assert forall d {:trigger Alike(bl, x, Live, d)} :: d != b ==> Alike(bl, x, Live, d);
    SameOfKind(bl, x, Live, b);
  }

  /** The link word of a segment is the second word of a header. */
  lemma LinkIsHeader(v: View, j: nat)
    requires Core(v) && j < |v.order|
    ensures j > 0 ==> v.order[j - 1] in v.segs && v.order[j - 1] != v.order[j]
    ensures v.order[j] in v.segs
  {
    assert Key(0);
    assert v.order[j] in v.order && (j > 0 ==> v.order[j - 1] in v.order);
  }

  /** Tags, cache links and contents outside a segment are kept by writes to it and to a link word. */
  lemma OtherWords(v: View, n: Mem, g: int, link: int)
    requires Core(v) && g in v.segs && KeptOutside(v.mem, n, g, v.segs[g], link)
    requires link == 0 || (link - 8 in v.segs && link - 8 != g)
    ensures forall b {:trigger TagsKept(v.mem, n, b)} :: b in v.blocks && v.blocks[b].seg != g ==> TagsKept(v.mem, n, b)
    ensures forall b {:trigger LinkKept(v.mem, n, b)} :: b in v.blocks && v.blocks[b].seg != g && v.blocks[b].kind == Cached ==> LinkKept(v.mem, n, b)
    ensures forall b, a {:trigger OfBlock(v.blocks, b, a), SameWord(v.mem, n, a)} ::
              b in v.blocks && v.blocks[b].seg != g && OfBlock(v.blocks, b, a) && a in v.mem ==> SameWord(v.mem, n, a)
  {
    assert Key(0);
    forall b, a {:trigger OfBlock(v.blocks, b, a), SameWord(v.mem, n, a)} |
      b in v.blocks && v.blocks[b].seg != g && OfBlock(v.blocks, b, a) && a in v.mem
      ensures SameWord(v.mem, n, a)
    {
      Inside(v.blocks, v.segs, v.base, b);
      assert SegmentsApart(v.segs, v.blocks[b].seg, g);
    }
    forall b {:trigger TagsKept(v.mem, n, b)} {:trigger LinkKept(v.mem, n, b)} | b in v.blocks && v.blocks[b].seg != g
      ensures TagsKept(v.mem, n, b) && (v.blocks[b].kind == Cached ==> LinkKept(v.mem, n, b))
    {
      Inside(v.blocks, v.segs, v.base, b);
      BlockMapped(v, b, b);
      BlockMapped(v, b, b + 8);
      assert OfBlock(v.blocks, b, b) && OfBlock(v.blocks, b, b + 8);
      if v.blocks[b].kind == Cached {
        NextBlock(v.blocks, v.segs, v.base, b);
        BlockMapped(v, b, b + 16);
        assert OfBlock(v.blocks, b, b + 16);
      }
    }
  }

  ghost predicate OfBlock(bl: Blocks, b: int, a: int)
    requires b in bl
  {
    b <= a < b + bl[b].size
  }

  lemma DropTags(v: View, n: Mem, b: int)
    requires Core(v) && b in v.blocks && v.stale in {0, b} && b + v.blocks[b].size in v.blocks
    requires DropSegment(v.blocks, v.blocks[b].seg) == v.blocks - {b, b + v.blocks[b].size}
    requires forall d {:trigger TagsKept(v.mem, n, d)} :: d in v.blocks && v.blocks[d].seg != v.blocks[b].seg ==> TagsKept(v.mem, n, d)
    ensures Tagged(n, DropSegment(v.blocks, v.blocks[b].seg), 0)
  {
    assert Key(0);
    var bl := DropSegment(v.blocks, v.blocks[b].seg);
    forall d {:trigger TagsAt(n, bl, 0, d)} | d in bl ensures TagsAt(n, bl, 0, d) {
      assert TagsAt(v.mem, v.blocks, v.stale, d) && TagsKept(v.mem, n, d);
      Predecessor(v, d);
      assert BlockOk(v.blocks, v.segs, d);
    }
  }

  lemma DropCache(v: View, n: Mem, b: int)
    requires Core(v) && b in v.blocks && b + v.blocks[b].size in v.blocks
    requires DropSegment(v.blocks, v.blocks[b].seg) == v.blocks - {b, b + v.blocks[b].size}
    requires CachedBlocks(DropSegment(v.blocks, v.blocks[b].seg)) == CachedBlocks(v.blocks)
    requires forall d {:trigger LinkKept(v.mem, n, d)} ::
               d in v.blocks && v.blocks[d].seg != v.blocks[b].seg && v.blocks[d].kind == Cached ==> LinkKept(v.mem, n, d)
    ensures CacheOk(n, DropSegment(v.blocks, v.blocks[b].seg), v.heads, v.chains)
  {
    assert Key(0);
    var bl := DropSegment(v.blocks, v.blocks[b].seg);
    CacheSame(v.mem, v.blocks, bl, v.heads, v.chains);
    CacheFrame(v.mem, n, bl, v.heads, v.chains);
  }

  lemma DropMapped(v: View, n: Mem, g: int, link: int)
    requires Core(v) && g in v.segs && KeptOutside(v.mem, n, g, v.segs[g], link) && (link == 0 || link in n)
    ensures Mapped(n, v.base, v.segs - {g})
  {
    assert Key(0);
    assert SegmentOk(v.blocks, v.segs, v.base, g);
    forall a {:trigger MappedIn(n, v.base, AREA, a)} ensures MappedIn(n, v.base, AREA, a) {
      assert MappedIn(v.mem, v.base, AREA, a);
      assert a in v.mem && !Inner(g, v.segs[g], a) && a != link ==> SameWord(v.mem, n, a);
    }
    forall h {:trigger SegmentMapped(n, v.segs - {g}, h)} | h in v.segs - {g} ensures SegmentMapped(n, v.segs - {g}, h) {
      assert SegmentMapped(v.mem, v.segs, h) && SegmentsApart(v.segs, g, h) && SegmentOk(v.blocks, v.segs, v.base, h);
      forall a {:trigger MappedIn(n, h, v.segs[h], a)} ensures MappedIn(n, h, v.segs[h], a) {
        assert MappedIn(v.mem, h, v.segs[h], a);
        assert a in v.mem && !Inner(g, v.segs[g], a) && a != link ==> SameWord(v.mem, n, a);
      }
    }
  }

  ghost predicate NextKept(m: Mem, n: Mem, h: int) { SameWord(m, n, h + 8) }

  /** The headers of the other segments, except for the link that is rewritten. */
  lemma HeadersKept(v: View, n: Mem, g: int, link: int)
    requires Core(v) && g in v.segs && KeptOutside(v.mem, n, g, v.segs[g], link) && link % 8 == 0
    ensures forall h {:trigger SegmentSize(n, v.segs, h)} :: h in v.segs && h != g && h != link ==> SegmentSize(n, v.segs, h)
    ensures forall h {:trigger NextKept(v.mem, n, h)} :: h in v.segs && h != g && h + 8 != link ==> NextKept(v.mem, n, h)
  {
    assert Key(0);
    forall h {:trigger SegmentSize(n, v.segs, h)} {:trigger NextKept(v.mem, n, h)} | h in v.segs && h != g
      ensures (h != link ==> SegmentSize(n, v.segs, h)) && (h + 8 != link ==> NextKept(v.mem, n, h))
    {
      HeaderMapped(v, h);
      assert SegmentsApart(v.segs, g, h) && SegmentSize(v.mem, v.segs, h);
      assert h != link ==> SameWord(v.mem, n, h);
    }
  }

  lemma OtherLinks(v: View, n: Mem, j: nat)
    requires Core(v) && j < |v.order| && v.order[j] in v.segs
    requires KeptOutside(v.mem, n, v.order[j], v.segs[v.order[j]], if j == 0 then 0 else v.order[j - 1] + 8)
    ensures forall k :: 0 <= k < |v.order| && k != j && k + 1 != j ==> SameWord(v.mem, n, v.order[k] + 8)
    ensures j > 0 ==> v.order[j - 1] in v.segs && v.order[j - 1] % 8 == 0
    ensures forall h {:trigger SegmentSize(n, v.segs, h)} :: h in v.segs && h != v.order[j] ==> SegmentSize(n, v.segs, h)
  {
    assert Key(0);
    var g, link := v.order[j], if j == 0 then 0 else v.order[j - 1] + 8;
    if j > 0 {
      assert v.order[j - 1] in v.order;
      HeaderMapped(v, v.order[j - 1]);
    }
    HeadersKept(v, n, g, link);
    forall k | 0 <= k < |v.order| && k != j && k + 1 != j ensures SameWord(v.mem, n, v.order[k] + 8) {
      assert v.order[k] in v.order && v.order[k] != g;
      HeaderMapped(v, v.order[k]);
      assert NextKept(v.mem, n, v.order[k]);
    }
    forall h {:trigger SegmentSize(n, v.segs, h)} | h in v.segs && h != g ensures SegmentSize(n, v.segs, h) {
      HeaderMapped(v, h);
      if j > 0 && h != v.order[j - 1] { assert SegmentsApart(v.segs, h, v.order[j - 1]); }
    }
  }

  lemma DropFromList(v: View, n: Mem, j: nat)
    requires Core(v) && j < |v.order| && v.order[j] in v.segs
    requires KeptOutside(v.mem, n, v.order[j], v.segs[v.order[j]], if j == 0 then 0 else v.order[j - 1] + 8)
    requires j > 0 ==> Holds(n, v.order[j - 1] + 8, After(v.order, j))
    ensures SegmentList(n, v.segs - {v.order[j]}, v.order[..j] + v.order[j + 1..], if j == 0 then After(v.order, 0) else v.first)
  {
    assert Key(0);
    OtherLinks(v, n, j);
    Cut(v.mem, n, 8, v.first, v.order, j);
    var g, order := v.order[j], v.order[..j] + v.order[j + 1..];
    var segs := v.segs - {g};
    Without(v.order, j);
    forall h ensures h in order <==> h in segs {
      assert h in v.order <==> h in v.segs;
    }
    forall h {:trigger SegmentSize(n, segs, h)} | h in segs ensures SegmentSize(n, segs, h) {
      assert SegmentSize(n, v.segs, h);
    }
  }

  lemma Without(c: seq<int>, j: nat)
    requires Rings.Distinct(c) && j < |c|
    ensures forall x :: x in c[..j] + c[j + 1..] <==> x in c && x != c[j]
  {
    assert c == c[..j] + [c[j]] + c[j + 1..];
  }

  lemma DropSpares(v: View, n: Mem, b: int, link: int)
    requires Core(v) && Open(v, b) && v.blocks[b].before == 0 && v.blocks[b].seg in v.segs
    requires b + v.blocks[b].size in v.blocks && v.blocks[b + v.blocks[b].size].kind == Guard
    requires DropSegment(v.blocks, v.blocks[b].seg) == v.blocks - {b, b + v.blocks[b].size}
    requires forall x, a {:trigger OfBlock(v.blocks, x, a), SameWord(v.mem, n, a)} ::
               x in v.blocks && v.blocks[x].seg != v.blocks[b].seg && OfBlock(v.blocks, x, a) && a in v.mem ==> SameWord(v.mem, n, a)
    ensures Spared(v.mem, Allocated(v.blocks), n, Allocated(DropSegment(v.blocks, v.blocks[b].seg)), b)
  {
    assert Key(0);
    var live, live' := Allocated(v.blocks), Allocated(DropSegment(v.blocks, v.blocks[b].seg));
    assert live - {b} == live' - {b};
    forall x {:trigger PayloadKept(v.mem, n, x, live[x])} | x in live && x != b ensures PayloadKept(v.mem, n, x, live[x]) {
      assert x in DropSegment(v.blocks, v.blocks[b].seg);
      forall a {:trigger SameWord(v.mem, n, a)} | a in v.mem && x + HEADER <= a < x + live[x] ensures SameWord(v.mem, n, a) {
        assert OfBlock(v.blocks, x, a);
      }
    }
  }

  // ---------- a segment grows, and may move ----------

  /** What remains when the segment of b is gone, and what the segment at h of n bytes puts in its place. */
  ghost function Moved(bl: Blocks, g: int, h: int, n: nat): Blocks
    requires n >= 64
  {
    AddSegment(DropSegment(bl, g), h, n, Live)
  }

  /**
   The segment at g, filled by the allocated block b, is now the segment at h of n bytes, in the same
   position of the list; the size of its block is not written yet.
   */
  lemma MoveStep(v: View, n: Mem, b: int, j: nat, h: int, len: nat)
    requires Core(v) && Open(v, b) && v.stale in {0, b} && v.blocks[b].before == 0
    requires b + v.blocks[b].size in v.blocks && v.blocks[b + v.blocks[b].size].kind == Guard
    requires j < |v.order| && v.order[j] == b - 16 && b - 16 in v.segs
    requires KeptOutside(v.mem, n, b - 16, v.segs[b - 16], if j == 0 then 0 else v.order[j - 1] + 8)
    requires j > 0 ==> Holds(n, v.order[j - 1] + 8, h)
    requires FreshRegion(v.segs - {b - 16}, v.base, h, len) && len % 8 == 0 && len >= 64
    requires Prepared(n, h, len, After(v.order, j))
    ensures var g := b - 16;
            var w := v.(mem := n, first := if j == 0 then h else v.first, order := v.order[j := h],
                        segs := (v.segs - {g})[h := len], blocks := Moved(v.blocks, g, h, len), stale := h + 16);
            && Core(w) && Spared(v.mem, Allocated(v.blocks), n, Allocated(v.blocks) - {b}, b)
            && Allocated(w.blocks) == (Allocated(v.blocks) - {b})[h + 16 := len - 32]
            && CachedBlocks(w.blocks) == CachedBlocks(v.blocks)
            && h + 16 !in Allocated(v.blocks) - {b}
  {
    assert Key(0);
    var g, link := b - 16, if j == 0 then 0 else v.order[j - 1] + 8;
    SoleBlock(v.blocks, v.segs, v.base, b);
    DropSegmentTiled(v.blocks, v.segs, v.base, g);
    DropKinds(v, b);
    LinkIsHeader(v, j);
    OtherWords(v, n, g, link);
    DropTags(v, n, b);
    DropCache(v, n, b);
    DropMapped(v, n, g, link);
    DropSpares(v, n, b, link);
    assert h in v.segs - {g} ==> Apart(h, len, h, v.segs[h]) && SegmentOk(v.blocks, v.segs, v.base, h);
    MovedList(v, n, j, h, len);
    var u := v.(mem := n, segs := v.segs - {g}, blocks := DropSegment(v.blocks, g), stale := 0);
    assert Allocated(u.blocks) == Allocated(v.blocks) - {b};
    MovedBlocks(u, h, len);
  }

  lemma MovedBlocks(u: View, h: int, len: nat)
    requires Tiled(u.blocks, u.segs, u.base) && NoFreePair(u.blocks) && u.stale == 0
    requires Tagged(u.mem, u.blocks, 0) && CacheOk(u.mem, u.blocks, u.heads, u.chains) && Mapped(u.mem, u.base, u.segs)
    requires FreshRegion(u.segs, u.base, h, len) && len % 8 == 0 && len >= 64
    requires Prepared(u.mem, h, len, if h + 8 in u.mem then u.mem[h + 8] else 0)
    ensures var bl := AddSegment(u.blocks, h, len, Live);
            && Tiled(bl, u.segs[h := len], u.base) && NoFreePair(bl)
            && FreeBlocks(bl) == FreeBlocks(u.blocks) && CachedBlocks(bl) == CachedBlocks(u.blocks)
            && Allocated(bl) == Allocated(u.blocks)[h + 16 := len - 32] && h + 16 !in u.blocks
            && Tagged(u.mem, bl, h + 16) && CacheOk(u.mem, bl, u.heads, u.chains) && Mapped(u.mem, u.base, u.segs[h := len])
  {
    AddSegmentTiled(u.blocks, u.segs, u.base, h, len, Live);
    FreshAddresses(u, h, len);
    AddSegmentKinds(u.blocks, h, len, Live);
    CacheSame(u.mem, u.blocks, AddSegment(u.blocks, h, len, Live), u.heads, u.chains);
    NewSegmentMapped(u, u.mem, h, len);
    forall b {:trigger TagsKept(u.mem, u.mem, b)} | b in u.blocks ensures TagsKept(u.mem, u.mem, b) {
      assert TagsAt(u.mem, u.blocks, 0, b);
      Predecessor(u, b);
    }
    AddTags(u, u.mem, h, len, Live);
  }

  lemma MovedList(v: View, n: Mem, j: nat, h: int, len: nat)
    requires Core(v) && j < |v.order| && v.order[j] in v.segs
    requires KeptOutside(v.mem, n, v.order[j], v.segs[v.order[j]], if j == 0 then 0 else v.order[j - 1] + 8)
    requires j > 0 ==> Holds(n, v.order[j - 1] + 8, h)
    requires h > 0 && Holds(n, h, len) && Holds(n, h + 8, After(v.order, j)) && h !in v.segs - {v.order[j]}
    ensures SegmentList(n, (v.segs - {v.order[j]})[h := len], v.order[j := h], if j == 0 then h else v.first)
  {
    assert Key(0);
    OtherLinks(v, n, j);
    var g, order := v.order[j], v.order[j := h];
    var segs := (v.segs - {g})[h := len];
    forall k | 0 <= k < |v.order| && k != j ensures v.order[k] != h {
      assert v.order[k] in v.order && v.order[k] != g;
    }
    Swap(v.mem, n, 8, v.first, v.order, j, h);
    Replaced(v.order, j, h);
    forall x ensures x in order <==> x in segs {
      assert x in v.order <==> x in v.segs;
    }
    forall x {:trigger SegmentSize(n, segs, x)} | x in segs ensures SegmentSize(n, segs, x) {
      if x != h { assert SegmentSize(n, v.segs, x); }
    }
  }

  lemma Replaced(c: seq<int>, j: nat, h: int)
    requires Rings.Distinct(c) && j < |c| && forall k :: 0 <= k < |c| && k != j ==> c[k] != h
    ensures forall x :: x in c[j := h] <==> x == h || (x in c && x != c[j])
  {
    Without(c, j);
    assert c[j := h] == c[..j] + [h] + c[j + 1..];
  }
}
