/**
 Segments and the blocks that tile them.

 A segment of n bytes at g starts with a 16-byte segment header and ends with a 16-byte guard
 block; the blocks between them follow one another without a gap.  Every block knows its own size
 and, through its second tag, the size of the block before it.
 */
module Blocks {
  import opened Rings
  import opened FreeLists
  import opened Memory

  /** A block in hand is tagged as free but is in no list: an operation is at work on it. */
  datatype Kind = Live | Cached | Free | InHand | Guard

  /** `before` is the size of the preceding block, 0 for the first block of a segment. */
  datatype Block = Block(size: nat, kind: Kind, seg: int, before: nat)

  type Blocks = map<int, Block>
  type Segments = map<int, nat>

  const SEGMENT_HEADER: nat := 16

  /** The type bits of a tag: 0 free, 1 used, 3 guard.  A cached block stays tagged as used. */
  function TypeBits(k: Kind): nat {
    match k
    case Free => 0
    case Live => 1
    case Cached => 1
    case InHand => 0
    case Guard => 3
  }

  ghost predicate UpToNext(bl: Blocks, segs: Segments, b: int)
    requires b in bl
  {
    var x := bl[b];
    && x.seg in segs
    && x.seg + SEGMENT_HEADER <= b && b % 8 == 0 && x.size % 8 == 0
    && (if x.kind == Guard then x.size == HEADER && b + HEADER == x.seg + segs[x.seg]
        else
          && x.size >= MIN_BLOCK
          && b + x.size + HEADER <= x.seg + segs[x.seg]
          && b + x.size in bl && bl[b + x.size].seg == x.seg && bl[b + x.size].before == x.size)
  }

  ghost predicate DownToPrevious(bl: Blocks, b: int)
    requires b in bl
  {
    var x := bl[b];
    if x.before == 0 then b == x.seg + SEGMENT_HEADER
    else b - x.before in bl && bl[b - x.before].size == x.before && bl[b - x.before].seg == x.seg && bl[b - x.before].kind != Guard
  }

  ghost predicate BlockOk(bl: Blocks, segs: Segments, b: int) {
    b in bl && UpToNext(bl, segs, b) && DownToPrevious(bl, b)
  }

  ghost predicate SegmentOk(bl: Blocks, segs: Segments, area: int, g: int)
    requires g in segs
  {
    && g > 0 && g % 8 == 0 && segs[g] % 8 == 0 && segs[g] >= SEGMENT_HEADER + MIN_BLOCK + HEADER
    && Apart(g, segs[g], area, AREA)
    && g + SEGMENT_HEADER in bl && bl[g + SEGMENT_HEADER].seg == g && bl[g + SEGMENT_HEADER].before == 0
    && g + segs[g] - HEADER in bl && bl[g + segs[g] - HEADER].seg == g && bl[g + segs[g] - HEADER].kind == Guard
  }

  ghost predicate SegmentsApart(segs: Segments, g: int, h: int)
    requires g in segs && h in segs
  {
    Apart(g, segs[g], h, segs[h])
  }

  ghost predicate BlocksApart(bl: Blocks, b: int, c: int)
    requires b in bl && c in bl
  {
    Apart(b, bl[b].size, c, bl[c].size)
  }

  ghost predicate Tiled(bl: Blocks, segs: Segments, area: int) {
    && (forall b {:trigger BlockOk(bl, segs, b)} :: b in bl ==> BlockOk(bl, segs, b))
    && (forall g {:trigger SegmentOk(bl, segs, area, g)} :: g in segs ==> SegmentOk(bl, segs, area, g))
    && (forall g, h {:trigger SegmentsApart(segs, g, h)} :: g in segs && h in segs && g != h ==> SegmentsApart(segs, g, h))
    && (forall b, c {:trigger BlocksApart(bl, b, c)} :: b in bl && c in bl && b != c ==> BlocksApart(bl, b, c))
  }

  ghost predicate NoFreePair(bl: Blocks) {
    forall b {:trigger bl[b].kind} :: b in bl && bl[b].kind == Free && b + bl[b].size in bl ==> bl[b + bl[b].size].kind != Free
  }

  /** The free blocks, the blocks handed out and the blocks kept in the cache, with their sizes. */
  ghost function FreeBlocks(bl: Blocks): Sizes { OfKind(bl, Free) }

  ghost function Allocated(bl: Blocks): Sizes { OfKind(bl, Live) }

  ghost function CachedBlocks(bl: Blocks): Sizes { OfKind(bl, Cached) }

  ghost function OfKind(bl: Blocks, k: Kind): Sizes { map b | b in bl && bl[b].kind == k :: bl[b].size }

  /** Block b is of this kind in both tilings, with the same size, or in neither. */
  ghost predicate Alike(bl: Blocks, x: Blocks, k: Kind, b: int) {
    if b in bl && bl[b].kind == k then b in x && x[b].kind == k && x[b].size == bl[b].size
    else !(b in x && x[b].kind == k)
  }

  /** If all blocks but e are alike, the blocks of this kind are the same up to e. */
  lemma SameOfKind(bl: Blocks, x: Blocks, k: Kind, e: int)
    requires forall b {:trigger Alike(bl, x, k, b)} :: b != e ==> Alike(bl, x, k, b)
    ensures OfKind(bl, k) - {e} == OfKind(x, k) - {e}
    ensures Alike(bl, x, k, e) ==> OfKind(bl, k) == OfKind(x, k)
  {
    var m, n := OfKind(bl, k), OfKind(x, k);
    forall b | b != e ensures b in m <==> b in n {
      assert Alike(bl, x, k, b);
    }
    forall b | b != e && b in m ensures m[b] == n[b] {
      assert Alike(bl, x, k, b);
    }
    assert m - {e} == n - {e};
    if Alike(bl, x, k, e) {
      assert m == n;
    }
  }

  // ---------- tiling, read as a partition ----------

  ghost predicate Covers(bl: Blocks, b: int, a: int)
    requires b in bl
  {
    b <= a < b + bl[b].size
  }

  /** The block that covers an address, searched from the block b upwards. */
  lemma {:induction false} CoveredFrom(bl: Blocks, segs: Segments, area: int, b: int, a: int) returns (c: int)
    requires Tiled(bl, segs, area) && b in bl && b <= a < bl[b].seg + (if bl[b].seg in segs then segs[bl[b].seg] else 0)
    ensures c in bl && bl[c].seg == bl[b].seg && Covers(bl, c, a)
    decreases a - b
  {
    assert BlockOk(bl, segs, b);
    if Covers(bl, b, a) {
      c := b;
    } else {
      c := CoveredFrom(bl, segs, area, b + bl[b].size, a);
    }
  }

  /** Every address between the header and the end of a segment is in exactly one block. */
  lemma Partition(bl: Blocks, segs: Segments, area: int, g: int, a: int)
    requires Tiled(bl, segs, area) && g in segs && g + SEGMENT_HEADER <= a < g + segs[g]
    ensures exists b :: b in bl && bl[b].seg == g && Covers(bl, b, a)
    ensures forall b, c :: b in bl && c in bl && Covers(bl, b, a) && Covers(bl, c, a) ==> b == c
  {
    assert SegmentOk(bl, segs, area, g);
    var b := CoveredFrom(bl, segs, area, g + SEGMENT_HEADER, a);
    forall c | c in bl && Covers(bl, c, a) ensures c == b {
      assert c != b ==> BlocksApart(bl, b, c);
    }
  }

  /** A block lies inside its segment, away from the bucket arrays and from other segments' headers. */
  lemma Inside(bl: Blocks, segs: Segments, area: int, b: int)
    requires Tiled(bl, segs, area) && b in bl
    ensures bl[b].seg in segs && bl[b].seg + SEGMENT_HEADER <= b && b + bl[b].size <= bl[b].seg + segs[bl[b].seg]
    ensures b > 0 && b % 8 == 0 && bl[b].size % 8 == 0 && bl[b].size >= HEADER
    ensures Apart(b, bl[b].size, area, AREA)
    ensures forall g :: g in segs ==> Apart(b, bl[b].size, g, SEGMENT_HEADER)
  {
    assert BlockOk(bl, segs, b);
    assert SegmentOk(bl, segs, area, bl[b].seg);
    forall g | g in segs ensures Apart(b, bl[b].size, g, SEGMENT_HEADER) {
      assert SegmentOk(bl, segs, area, g);
      if g != bl[b].seg {
        assert SegmentsApart(segs, g, bl[b].seg);
      }
    }
  }

  lemma NextBlock(bl: Blocks, segs: Segments, area: int, b: int)
    requires Tiled(bl, segs, area) && b in bl && bl[b].kind != Guard
    ensures b + bl[b].size in bl && bl[b + bl[b].size].before == bl[b].size && bl[b + bl[b].size].seg == bl[b].seg
    ensures bl[b].size >= MIN_BLOCK
  {
    assert BlockOk(bl, segs, b);
  }

  // ---------- changes ----------

  ghost function SetKind(bl: Blocks, b: int, k: Kind): Blocks
    requires b in bl
  {
    bl[b := bl[b].(kind := k)]
  }

  lemma SetKindTiled(bl: Blocks, segs: Segments, area: int, b: int, k: Kind)
    requires Tiled(bl, segs, area) && b in bl && bl[b].kind != Guard && k != Guard
    ensures Tiled(SetKind(bl, b, k), segs, area)
  {
    var n := SetKind(bl, b, k);
    forall c, d {:trigger BlocksApart(n, c, d)} | c in n && d in n && c != d ensures BlocksApart(n, c, d) {
      assert BlocksApart(bl, c, d);
    }
    forall c {:trigger BlockOk(n, segs, c)} | c in n ensures BlockOk(n, segs, c) {
      assert BlockOk(bl, segs, c);
    }
    forall g {:trigger SegmentOk(n, segs, area, g)} | g in segs ensures SegmentOk(n, segs, area, g) {
      assert SegmentOk(bl, segs, area, g);
    }
  }

  /** Block b keeps its first n bytes; the remainder becomes a block of its own. */
  ghost function Split(bl: Blocks, b: int, n: nat, k: Kind, rest: Kind): Blocks
    requires b in bl && n <= bl[b].size && b + bl[b].size in bl
  {
    var s := bl[b].size;
    bl[b := bl[b].(size := n, kind := k)]
      [b + s := bl[b + s].(before := s - n)]
      [b + n := Block(s - n, rest, bl[b].seg, n)]
  }

  lemma SplitTiled(bl: Blocks, segs: Segments, area: int, b: int, n: nat, k: Kind, rest: Kind)
    requires Tiled(bl, segs, area) && b in bl && bl[b].kind != Guard && k != Guard && rest != Guard
    requires n % 8 == 0 && MIN_BLOCK <= n && n + MIN_BLOCK <= bl[b].size
    ensures b + bl[b].size in bl && b + n !in bl
    ensures Tiled(Split(bl, b, n, k, rest), segs, area)
  {
    assert BlockOk(bl, segs, b);
    var s := bl[b].size;
    var x := Split(bl, b, n, k, rest);
    assert b + n in bl ==> BlocksApart(bl, b, b + n) && BlockOk(bl, segs, b + n);
    SplitApart(bl, segs, area, b, n, k, rest);
    forall c {:trigger BlockOk(x, segs, c)} | c in x ensures BlockOk(x, segs, c) {
      if c != b + n {
        assert BlockOk(bl, segs, c);
        if c != b && c + bl[c].size == b + s {
          assert BlocksApart(bl, c, b);
        }
      }
    }
    forall g {:trigger SegmentOk(x, segs, area, g)} | g in segs ensures SegmentOk(x, segs, area, g) {
      assert SegmentOk(bl, segs, area, g);
    }
  }

  lemma SplitApart(bl: Blocks, segs: Segments, area: int, b: int, n: nat, k: Kind, rest: Kind)
    requires Tiled(bl, segs, area) && b in bl && b + bl[b].size in bl && n <= bl[b].size && b + n !in bl
    ensures var x := Split(bl, b, n, k, rest);
            forall c, d {:trigger BlocksApart(x, c, d)} :: c in x && d in x && c != d ==> BlocksApart(x, c, d)
  {
    var s := bl[b].size;
    var x := Split(bl, b, n, k, rest);
    forall c, d {:trigger BlocksApart(x, c, d)} | c in x && d in x && c != d ensures BlocksApart(x, c, d) {
      var c', d' := if c == b + n then b else c, if d == b + n then b else d;
      if c' != d' { assert BlocksApart(bl, c', d'); }
    }
  }

  /** Block b swallows the block that follows it. */
  ghost function Merge(bl: Blocks, b: int): Blocks
    requires b in bl && b + bl[b].size in bl
    requires b + bl[b].size + bl[b + bl[b].size].size in bl
  {
    var c := b + bl[b].size;
    var s := bl[b].size + bl[c].size;
    bl[b := bl[b].(size := s)][b + s := bl[b + s].(before := s)] - {c}
  }

  lemma MergeTiled(bl: Blocks, segs: Segments, area: int, b: int)
    requires Tiled(bl, segs, area) && b in bl && bl[b].kind != Guard
    requires b + bl[b].size in bl && bl[b + bl[b].size].kind != Guard
    ensures b + bl[b].size + bl[b + bl[b].size].size in bl
    ensures Tiled(Merge(bl, b), segs, area)
  {
    var c := b + bl[b].size;
    assert BlockOk(bl, segs, b) && BlockOk(bl, segs, c);
    var s := bl[b].size + bl[c].size;
    assert BlockOk(bl, segs, b + s);
    var x := Merge(bl, b);
    MergeApart(bl, segs, area, b);
    forall d {:trigger BlockOk(x, segs, d)} | d in x ensures BlockOk(x, segs, d) {
      assert BlockOk(bl, segs, d);
      if d != b && d + bl[d].size == c { assert BlocksApart(bl, d, b); }
      if d != c && d + bl[d].size == b + s { assert BlocksApart(bl, d, c); }
    }
    forall g {:trigger SegmentOk(x, segs, area, g)} | g in segs ensures SegmentOk(x, segs, area, g) {
      assert SegmentOk(bl, segs, area, g);
      assert g + SEGMENT_HEADER != c;
    }
  }

  lemma MergeApart(bl: Blocks, segs: Segments, area: int, b: int)
    requires Tiled(bl, segs, area) && b in bl && b + bl[b].size in bl
    requires b + bl[b].size + bl[b + bl[b].size].size in bl
    requires bl[b].size > 0 && bl[b + bl[b].size].size > 0
    ensures var x := Merge(bl, b);
            forall c, d {:trigger BlocksApart(x, c, d)} :: c in x && d in x && c != d ==> BlocksApart(x, c, d)
  {
    var e := b + bl[b].size;
    var x := Merge(bl, b);
    forall c, d {:trigger BlocksApart(x, c, d)} | c in x && d in x && c != d ensures BlocksApart(x, c, d) {
      assert BlocksApart(bl, c, d);
      if c == b { assert BlocksApart(bl, e, d); }
      if d == b { assert BlocksApart(bl, e, c); }
    }
  }

  /** A fresh segment holds one block and its guard. */
  ghost function AddSegment(bl: Blocks, g: int, n: nat, k: Kind): Blocks
    requires n >= SEGMENT_HEADER + HEADER
  {
    bl[g + SEGMENT_HEADER := Block(n - SEGMENT_HEADER - HEADER, k, g, 0)]
      [g + n - HEADER := Block(HEADER, Guard, g, n - SEGMENT_HEADER - HEADER)]
  }

  ghost predicate FreshRegion(segs: Segments, area: int, g: int, n: nat) {
    && g > 0 && g % 8 == 0 && Apart(g, n, area, AREA)
    && forall h :: h in segs ==> Apart(g, n, h, segs[h])
  }

  lemma AddSegmentTiled(bl: Blocks, segs: Segments, area: int, g: int, n: nat, k: Kind)
    requires Tiled(bl, segs, area) && FreshRegion(segs, area, g, n) && k != Guard
    requires n % 8 == 0 && n >= SEGMENT_HEADER + MIN_BLOCK + HEADER
    ensures g !in segs
    ensures forall b :: b in bl ==> Apart(b, bl[b].size, g, n)
    ensures Tiled(AddSegment(bl, g, n, k), segs[g := n], area)
  {
    var x, t := AddSegment(bl, g, n, k), segs[g := n];
    assert g in segs ==> SegmentOk(bl, segs, area, g);
    forall b | b in bl ensures Apart(b, bl[b].size, g, n) && bl[b].size > 0 && bl[b].seg in segs {
      Inside(bl, segs, area, b);
      assert Apart(g, n, bl[b].seg, segs[bl[b].seg]);
    }
    forall b {:trigger BlockOk(x, t, b)} | b in x ensures BlockOk(x, t, b) {
      if b in bl { assert BlockOk(bl, segs, b); }
    }
    forall h {:trigger SegmentOk(x, t, area, h)} | h in t ensures SegmentOk(x, t, area, h) {
      if h != g { assert SegmentOk(bl, segs, area, h); }
    }
    forall h, i {:trigger SegmentsApart(t, h, i)} | h in t && i in t && h != i ensures SegmentsApart(t, h, i) {
      if h != g && i != g { assert SegmentsApart(segs, h, i); }
    }
    forall c, d {:trigger BlocksApart(x, c, d)} | c in x && d in x && c != d ensures BlocksApart(x, c, d) {
      if c in bl && d in bl { assert BlocksApart(bl, c, d); }
    }
  }

  /** A segment whose one block fills it goes away. */
  ghost function DropSegment(bl: Blocks, g: int): Blocks {
    map b | b in bl && bl[b].seg != g :: bl[b]
  }

  lemma DropSegmentTiled(bl: Blocks, segs: Segments, area: int, g: int)
    requires Tiled(bl, segs, area) && g in segs
    ensures Tiled(DropSegment(bl, g), segs - {g}, area)
  {
    var x, t := DropSegment(bl, g), segs - {g};
    forall b {:trigger BlockOk(x, t, b)} | b in x ensures BlockOk(x, t, b) {
      assert BlockOk(bl, segs, b);
    }
    forall h {:trigger SegmentOk(x, t, area, h)} | h in t ensures SegmentOk(x, t, area, h) {
      assert SegmentOk(bl, segs, area, h);
    }
    forall h, i {:trigger SegmentsApart(t, h, i)} | h in t && i in t && h != i ensures SegmentsApart(t, h, i) {
      assert SegmentsApart(segs, h, i);
    }
    forall c, d {:trigger BlocksApart(x, c, d)} | c in x && d in x && c != d ensures BlocksApart(x, c, d) {
      assert BlocksApart(bl, c, d);
    }
  }

  /** A segment that consists of one block and its guard holds no other block. */
  lemma SoleBlock(bl: Blocks, segs: Segments, area: int, b: int)
    requires Tiled(bl, segs, area) && b in bl && bl[b].kind != Guard && bl[b].before == 0
    requires b + bl[b].size in bl && bl[b + bl[b].size].kind == Guard
    ensures bl[b].seg in segs && b == bl[b].seg + SEGMENT_HEADER
    ensures bl[b].size + SEGMENT_HEADER + HEADER == segs[bl[b].seg]
    ensures forall c :: c in bl && bl[c].seg == bl[b].seg ==> c == b || c == b + bl[b].size
  {
    assert BlockOk(bl, segs, b) && BlockOk(bl, segs, b + bl[b].size);
    var e := b + bl[b].size;
    forall c | c in bl && bl[c].seg == bl[b].seg ensures c == b || c == e {
      assert BlockOk(bl, segs, c);
      assert c != b ==> BlocksApart(bl, c, b);
      assert c != e ==> BlocksApart(bl, c, e);
    }
  }
}
