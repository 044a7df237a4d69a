/**
 Words in memory.

 `Mem` maps the address of every mapped 8-byte word to its contents; reading outside it would be a
 fault.  A block at address b has its tags at b and b + 8; a free block has its ring links at b + 16
 and b + 24, and a large one its parent and child slots at b + 32, b + 40 and b + 48.  `Stored` says
 that the typed view `Lists` is what the words say, and `Separate` that no two of its words collide.
 */
module Memory {
  import opened Bits
  import opened Rings
  import opened Tries
  import opened FreeLists

  type Mem = map<int, int>

  const HEADER: nat := 16
  /** 128 words of small buckets, 64 of large buckets, 2 of the rest list. */
  const AREA: nat := 1552

  /** The address a slot stands for; the root slots follow the 128 words of the small buckets. */
  function SlotAddress(base: int, a: Slot): int {
    match a
    case Nowhere => 0
    case Root(i) => base + 1024 + 8 * i
    case Child(b, side) => if side then b + 48 else b + 40
  }

  ghost predicate Apart(x: int, xs: nat, y: int, ys: nat) { x + xs <= y || y + ys <= x }

  ghost predicate Aligned(l: Lists, x: int) {
    && x in l.size
    && x > 0 && x % 8 == 0 && l.size[x] % 8 == 0 && l.size[x] >= MIN_BLOCK
    && Apart(x, l.size[x], l.base, AREA)
  }

  ghost predicate SizesApart(l: Lists, x: int, y: int)
    requires x in l.size && y in l.size
  {
    Apart(x, l.size[x], y, l.size[y])
  }

  ghost predicate RingNode(l: Lists, x: int) { x in l.size || Sentinel(l.base, x) }

  ghost predicate LargeBlock(l: Lists, x: int) { x in l.size && !SmallSize(l.size[x]) }

  ghost predicate SlotPlace(l: Lists, a: Slot) {
    match a
    case Nowhere => false
    case Root(i) => i < NUM_BUCKETS
    case Child(b, _) => LargeBlock(l, b)
  }

  ghost predicate Separate(l: Lists) {
    && l.base > 0 && l.base % 8 == 0
    && (forall x {:trigger Aligned(l, x)} :: x in l.size ==> Aligned(l, x))
    && (forall x, y {:trigger SizesApart(l, x, y)} :: x in l.size && y in l.size && x != y ==> SizesApart(l, x, y))
    && (forall x {:trigger RingNode(l, x)} :: x in l.next || x in l.prev ==> RingNode(l, x))
    && (forall x {:trigger LargeBlock(l, x)} :: x in l.parent ==> LargeBlock(l, x))
    && (forall a {:trigger SlotPlace(l, a)} :: a in l.slot ==> SlotPlace(l, a))
  }

  ghost predicate Holds(m: Mem, a: int, v: int) { a in m && m[a] == v }

  ghost predicate TagAt(m: Mem, l: Lists, x: int) { x in l.size ==> Holds(m, x, l.size[x]) }

  ghost predicate PrevAt(m: Mem, l: Lists, x: int) { x in l.prev ==> Holds(m, x + 16, l.prev[x]) }

  ghost predicate NextAt(m: Mem, l: Lists, x: int) { x in l.next ==> Holds(m, x + 24, l.next[x]) }

  ghost predicate ParentAt(m: Mem, l: Lists, x: int) { x in l.parent ==> Holds(m, x + 32, SlotAddress(l.base, l.parent[x])) }

  ghost predicate SlotAt(m: Mem, l: Lists, a: Slot) { a in l.slot ==> Holds(m, SlotAddress(l.base, a), l.slot[a]) }

  ghost predicate Stored(m: Mem, l: Lists) {
    && (forall x {:trigger TagAt(m, l, x)} :: TagAt(m, l, x))
    && (forall x {:trigger PrevAt(m, l, x)} :: PrevAt(m, l, x))
    && (forall x {:trigger NextAt(m, l, x)} :: NextAt(m, l, x))
    && (forall x {:trigger ParentAt(m, l, x)} :: ParentAt(m, l, x))
    && (forall a {:trigger SlotAt(m, l, a)} :: SlotAt(m, l, a))
  }

  type Sizes = map<int, nat>

  /** The words of block x that may hold links. */
  ghost predicate LinkWord(size: Sizes, x: int, a: int) {
    x in size && x + 16 <= a < x + size[x]
  }

  /** Words outside the bucket arrays and outside the link words of the listed blocks. */
  ghost predicate Elsewhere(base: int, size: Sizes, a: int) {
    !(base <= a < base + AREA) && forall x {:trigger LinkWord(size, x, a)} :: !LinkWord(size, x, a)
  }

  ghost predicate SameWord(m: Mem, n: Mem, a: int) { a in m && a in n && m[a] == n[a] }

  /** From m to n only link words and bucket words were written. */
  ghost predicate OnlyLinks(m: Mem, n: Mem, base: int, size: Sizes) {
    && m.Keys == n.Keys
    && forall a {:trigger SameWord(m, n, a)} :: a in m && Elsewhere(base, size, a) ==> SameWord(m, n, a)
  }

  lemma OnlyLinksTrans(m: Mem, n: Mem, o: Mem, base: int, size: Sizes)
    requires OnlyLinks(m, n, base, size) && OnlyLinks(n, o, base, size)
    ensures OnlyLinks(m, o, base, size)
  {
    forall a {:trigger SameWord(m, o, a)} | a in m && Elsewhere(base, size, a) ensures SameWord(m, o, a) {
      assert SameWord(m, n, a) && SameWord(n, o, a);
    }
  }

  lemma OnlyLinksRefl(m: Mem, base: int, size: Sizes)
    ensures OnlyLinks(m, m, base, size)
  {
  }

  // ---------- single writes ----------

  lemma WriteNext(m: Mem, l: Lists, x: int, v: int)
    requires Stored(m, l) && Separate(l) && RingNode(l, x) && x + 24 in m
    ensures Stored(m[x + 24 := v], l.(next := l.next[x := v])) && Separate(l.(next := l.next[x := v]))
    ensures OnlyLinks(m, m[x + 24 := v], l.base, l.size)
  {
    var n, k := m[x + 24 := v], l.(next := l.next[x := v]);
    KeepRest(m, n, l, k, x + 24);
    forall y {:trigger NextAt(n, k, y)} ensures NextAt(n, k, y) {
      NodesApart(l, x, y);
      assert NextAt(m, l, y);
    }
    forall y {:trigger PrevAt(n, k, y)} ensures PrevAt(n, k, y) {
      NodesApart(l, x, y);
      assert PrevAt(m, l, y);
    }
    SeparateSame(l, k);
    NodeLinks(l, x);
  }

  lemma WritePrev(m: Mem, l: Lists, x: int, v: int)
    requires Stored(m, l) && Separate(l) && RingNode(l, x) && x + 16 in m
    ensures Stored(m[x + 16 := v], l.(prev := l.prev[x := v])) && Separate(l.(prev := l.prev[x := v]))
    ensures OnlyLinks(m, m[x + 16 := v], l.base, l.size)
  {
    var n, k := m[x + 16 := v], l.(prev := l.prev[x := v]);
    KeepRest(m, n, l, k, x + 16);
    forall y {:trigger NextAt(n, k, y)} ensures NextAt(n, k, y) {
      NodesApart(l, x, y);
      assert NextAt(m, l, y);
    }
    forall y {:trigger PrevAt(n, k, y)} ensures PrevAt(n, k, y) {
      NodesApart(l, x, y);
      assert PrevAt(m, l, y);
    }
    SeparateSame(l, k);
    NodeLinks(l, x);
  }

  /** Two nodes are at least two ring fields apart. */
  lemma NodesApart(l: Lists, x: int, y: int)
    requires Separate(l) && RingNode(l, x)
    ensures RingNode(l, y) && x != y ==> y + 16 <= x || x + 16 <= y
    ensures y in l.next || y in l.prev ==> RingNode(l, y)
  {
    if x in l.size { assert Aligned(l, x); }
    if y in l.size { assert Aligned(l, y); }
    if x in l.size && y in l.size && x != y { assert SizesApart(l, x, y); }
  }

  lemma NodeLinks(l: Lists, x: int)
    requires Separate(l) && RingNode(l, x)
    ensures !Elsewhere(l.base, l.size, x + 16) && !Elsewhere(l.base, l.size, x + 24)
  {
    if x in l.size {
      assert Aligned(l, x) && LinkWord(l.size, x, x + 16) && LinkWord(l.size, x, x + 24);
    }
  }

  /** A ring field of node x is no tag, no parent field and no slot. */
  lemma RingFieldOnly(l: Lists, x: int, y: int, a: Slot, w: int)
    requires Separate(l) && RingNode(l, x) && (w == x + 16 || w == x + 24)
    ensures y in l.size ==> y != w
    ensures LargeBlock(l, y) ==> y + 32 != w
    ensures SlotPlace(l, a) ==> SlotAddress(l.base, a) != w
  {
    if x in l.size { assert Aligned(l, x); }
    if y in l.size {
      assert Aligned(l, y);
      if x in l.size && x != y { assert SizesApart(l, x, y); }
    }
    if SlotPlace(l, a) && a.Child? {
      assert Aligned(l, a.b);
      if x in l.size && x != a.b { assert SizesApart(l, x, a.b); }
    }
  }

  /** A write to a ring field keeps everything but the ring fields. */
  lemma KeepRest(m: Mem, n: Mem, l: Lists, k: Lists, w: int)
    requires Stored(m, l) && Separate(l) && w in m && w in n && n == m[w := n[w]]
    requires k.base == l.base && k.size == l.size && k.parent == l.parent && k.slot == l.slot
    requires exists x {:trigger RingNode(l, x)} :: RingNode(l, x) && (w == x + 16 || w == x + 24)
    ensures forall y {:trigger TagAt(n, k, y)} :: TagAt(n, k, y)
    ensures forall y {:trigger ParentAt(n, k, y)} :: ParentAt(n, k, y)
    ensures forall a {:trigger SlotAt(n, k, a)} :: SlotAt(n, k, a)
  {
    var x :| RingNode(l, x) && (w == x + 16 || w == x + 24);
    forall y {:trigger TagAt(n, k, y)} ensures TagAt(n, k, y) {
      RingFieldOnly(l, x, y, Nowhere, w);
      assert TagAt(m, l, y);
    }
    forall y {:trigger ParentAt(n, k, y)} ensures ParentAt(n, k, y) {
      RingFieldOnly(l, x, y, Nowhere, w);
      assert ParentAt(m, l, y);
      assert y in l.parent ==> LargeBlock(l, y);
    }
    forall a {:trigger SlotAt(n, k, a)} ensures SlotAt(n, k, a) {
      RingFieldOnly(l, x, x, a, w);
      assert SlotAt(m, l, a);
      assert a in l.slot ==> SlotPlace(l, a);
    }
  }

  /** Separation depends on the listed blocks and on which nodes and slots are known. */
  lemma SeparateSame(l: Lists, k: Lists)
    requires Separate(l) && k.base == l.base && k.size == l.size
    requires forall x :: (x in k.next && x !in l.next) || (x in k.prev && x !in l.prev) ==> RingNode(l, x)
    requires forall x :: x in k.parent && x !in l.parent ==> LargeBlock(l, x)
    requires forall a :: a in k.slot && a !in l.slot ==> SlotPlace(l, a)
    ensures Separate(k)
  {
    forall x {:trigger Aligned(k, x)} | x in k.size ensures Aligned(k, x) {
      assert Aligned(l, x);
    }
    forall x, y {:trigger SizesApart(k, x, y)} | x in k.size && y in k.size && x != y ensures SizesApart(k, x, y) {
      assert SizesApart(l, x, y);
    }
    forall x {:trigger RingNode(k, x)} | x in k.next || x in k.prev ensures RingNode(k, x) {
      assert RingNode(l, x);
    }
    forall x {:trigger LargeBlock(k, x)} | x in k.parent ensures LargeBlock(k, x) {
      assert LargeBlock(l, x);
    }
    forall a {:trigger SlotPlace(k, a)} | a in k.slot ensures SlotPlace(k, a) {
      assert SlotPlace(l, a);
    }
  }

  /** A word of a large block beyond its ring links is no tag and no ring field. */
  lemma SlotWordOnly(l: Lists, x: int, y: int, w: int)
    requires Separate(l) && LargeBlock(l, x) && x + 32 <= w <= x + 48
    ensures y in l.size ==> y != w
    ensures RingNode(l, y) ==> y + 16 != w && y + 24 != w
    ensures LargeBlock(l, y) && y != x ==> y + 32 != w && y + 40 != w && y + 48 != w
    ensures !(l.base <= w < l.base + AREA)
    ensures !Elsewhere(l.base, l.size, w)
  {
    assert Aligned(l, x) && LinkWord(l.size, x, w);
    if y in l.size {
      assert Aligned(l, y);
      if x != y { assert SizesApart(l, x, y); }
    }
  }

  lemma WriteParent(m: Mem, l: Lists, x: int, s: Slot)
    requires Stored(m, l) && Separate(l) && LargeBlock(l, x) && x + 32 in m
    ensures Stored(m[x + 32 := SlotAddress(l.base, s)], l.(parent := l.parent[x := s]))
    ensures Separate(l.(parent := l.parent[x := s]))
    ensures OnlyLinks(m, m[x + 32 := SlotAddress(l.base, s)], l.base, l.size)
  {
    var n, k := m[x + 32 := SlotAddress(l.base, s)], l.(parent := l.parent[x := s]);
    KeepOthers(m, n, l, k, x, x + 32);
    forall y {:trigger ParentAt(n, k, y)} ensures ParentAt(n, k, y) {
      SlotWordOnly(l, x, y, x + 32);
      assert ParentAt(m, l, y);
      assert y in l.parent ==> LargeBlock(l, y);
    }
    forall a {:trigger SlotAt(n, k, a)} ensures SlotAt(n, k, a) {
      assert SlotAt(m, l, a);
      if a in l.slot {
        assert SlotPlace(l, a);
        SlotWordOnly(l, x, if a.Child? then a.b else x, x + 32);
      }
    }
    SeparateSame(l, k);
    SlotWordOnly(l, x, x, x + 32);
  }

  /** A write to a large block beyond its ring links keeps all tags and ring fields. */
  lemma KeepOthers(m: Mem, n: Mem, l: Lists, k: Lists, x: int, w: int)
    requires Stored(m, l) && Separate(l) && w in m && w in n && n == m[w := n[w]]
    requires LargeBlock(l, x) && x + 32 <= w <= x + 48
    requires k.base == l.base && k.size == l.size && k.prev == l.prev && k.next == l.next
    ensures forall y {:trigger TagAt(n, k, y)} :: TagAt(n, k, y)
    ensures forall y {:trigger PrevAt(n, k, y)} :: PrevAt(n, k, y)
    ensures forall y {:trigger NextAt(n, k, y)} :: NextAt(n, k, y)
  {
    forall y {:trigger TagAt(n, k, y)} ensures TagAt(n, k, y) {
      SlotWordOnly(l, x, y, w);
      assert TagAt(m, l, y);
    }
    forall y {:trigger PrevAt(n, k, y)} ensures PrevAt(n, k, y) {
      SlotWordOnly(l, x, y, w);
      assert PrevAt(m, l, y);
      assert y in l.prev ==> RingNode(l, y);
    }
    forall y {:trigger NextAt(n, k, y)} ensures NextAt(n, k, y) {
      SlotWordOnly(l, x, y, w);
      assert NextAt(m, l, y);
      assert y in l.next ==> RingNode(l, y);
    }
  }

  lemma WriteChild(m: Mem, l: Lists, a: Slot, v: int)
    requires Stored(m, l) && Separate(l) && SlotPlace(l, a) && a.Child? && SlotAddress(l.base, a) in m
    ensures Stored(m[SlotAddress(l.base, a) := v], l.(slot := l.slot[a := v]))
  {
    var w := SlotAddress(l.base, a);
    var n, k := m[w := v], l.(slot := l.slot[a := v]);
    KeepOthers(m, n, l, k, a.b, w);
    forall y {:trigger ParentAt(n, k, y)} ensures ParentAt(n, k, y) {
      SlotWordOnly(l, a.b, y, w);
      assert ParentAt(m, l, y);
      assert y in l.parent ==> LargeBlock(l, y);
    }
    forall c {:trigger SlotAt(n, k, c)} ensures SlotAt(n, k, c) {
      assert SlotAt(m, l, c);
      if c in l.slot && c != a {
        assert SlotPlace(l, c);
        SlotAddressInjective(l, a, c);
      }
    }
  }

  lemma WriteRoot(m: Mem, l: Lists, a: Slot, v: int)
    requires Stored(m, l) && Separate(l) && SlotPlace(l, a) && a.Root? && SlotAddress(l.base, a) in m
    ensures Stored(m[SlotAddress(l.base, a) := v], l.(slot := l.slot[a := v]))
  {
    var w := SlotAddress(l.base, a);
    var n, k := m[w := v], l.(slot := l.slot[a := v]);
    forall y {:trigger TagAt(n, k, y)} ensures TagAt(n, k, y) {
      assert TagAt(m, l, y);
      assert y in l.size ==> Aligned(l, y);
    }
    forall y {:trigger PrevAt(n, k, y)} ensures PrevAt(n, k, y) {
      assert PrevAt(m, l, y);
      assert y in l.prev ==> RingNode(l, y) && (y in l.size ==> Aligned(l, y));
    }
    forall y {:trigger NextAt(n, k, y)} ensures NextAt(n, k, y) {
      assert NextAt(m, l, y);
      assert y in l.next ==> RingNode(l, y) && (y in l.size ==> Aligned(l, y));
    }
    forall y {:trigger ParentAt(n, k, y)} ensures ParentAt(n, k, y) {
      assert ParentAt(m, l, y);
      assert y in l.parent ==> LargeBlock(l, y) && Aligned(l, y);
    }
    forall c {:trigger SlotAt(n, k, c)} ensures SlotAt(n, k, c) {
      assert SlotAt(m, l, c);
      if c in l.slot && c != a {
        assert SlotPlace(l, c);
        SlotAddressInjective(l, a, c);
      }
    }
  }

  lemma WriteSlot(m: Mem, l: Lists, a: Slot, v: int)
    requires Stored(m, l) && Separate(l) && SlotPlace(l, a) && SlotAddress(l.base, a) in m
    ensures Stored(m[SlotAddress(l.base, a) := v], l.(slot := l.slot[a := v])) && Separate(l.(slot := l.slot[a := v]))
    ensures OnlyLinks(m, m[SlotAddress(l.base, a) := v], l.base, l.size)
  {
    SeparateSame(l, l.(slot := l.slot[a := v]));
    if a.Child? {
      WriteChild(m, l, a, v);
      SlotWordOnly(l, a.b, a.b, SlotAddress(l.base, a));
    } else {
      WriteRoot(m, l, a, v);
    }
  }

  lemma SlotAddressInjective(l: Lists, a: Slot, c: Slot)
    requires Separate(l) && SlotPlace(l, a) && SlotPlace(l, c)
    ensures SlotAddress(l.base, a) == SlotAddress(l.base, c) <==> a == c
    ensures SlotAddress(l.base, a) > 0
  {
    if a.Child? { assert Aligned(l, a.b); }
    if c.Child? { assert Aligned(l, c.b); }
    if a.Child? && c.Child? && a.b != c.b { assert SizesApart(l, a.b, c.b); }
  }

  // ---------- handing a block over, and taking it back ----------

  ghost predicate ClearOf(l: Lists, b: int, size: nat, y: int)
    requires y in l.size
  {
    Apart(b, size, y, l.size[y])
  }

  /** A block at b of the given size may be listed: it overlaps no listed block and no bucket. */
  ghost predicate Fits(m: Mem, l: Lists, b: int, size: int) {
    && MIN_BLOCK <= size < WORD && b > 0 && b % 8 == 0 && size % 8 == 0
    && Apart(b, size, l.base, AREA)
    && (forall y {:trigger ClearOf(l, b, size, y)} :: y in l.size ==> ClearOf(l, b, size, y))
    && Holds(m, b, size) && b + 8 in m && b + 16 in m && b + 24 in m
    && (!SmallSize(size) ==> b + 32 in m && b + 40 in m && b + 48 in m)
  }

  lemma Adopt(m: Mem, l: Lists, b: int, size: nat)
    requires Stored(m, l) && Separate(l) && Fits(m, l, b, size)
    ensures Stored(m, l.(size := l.size[b := size])) && Separate(l.(size := l.size[b := size]))
    ensures b !in l.size && !Sentinel(l.base, b)
  {
    var k := l.(size := l.size[b := size]);
    assert b in l.size ==> ClearOf(l, b, size, b) && Aligned(l, b);
    forall x {:trigger Aligned(k, x)} | x in k.size ensures Aligned(k, x) {
      assert x != b ==> Aligned(l, x);
    }
    forall x, y {:trigger SizesApart(k, x, y)} | x in k.size && y in k.size && x != y ensures SizesApart(k, x, y) {
      if x == b { assert ClearOf(l, b, size, y); }
      else if y == b { assert ClearOf(l, b, size, x); }
      else { assert SizesApart(l, x, y); }
    }
    forall x {:trigger RingNode(k, x)} | x in k.next || x in k.prev ensures RingNode(k, x) {
      assert RingNode(l, x);
    }
    forall x {:trigger LargeBlock(k, x)} | x in k.parent ensures LargeBlock(k, x) {
      assert LargeBlock(l, x);
    }
    forall a {:trigger SlotPlace(k, a)} | a in k.slot ensures SlotPlace(k, a) {
      assert SlotPlace(l, a);
    }
    StoredSame(m, l, k, b);
  }

  lemma StoredSame(m: Mem, l: Lists, k: Lists, b: int)
    requires Stored(m, l) && k.base == l.base
    requires forall x :: x in k.size && x != b ==> x in l.size && k.size[x] == l.size[x]
    requires b in k.size ==> Holds(m, b, k.size[b])
    requires forall x :: x in k.prev ==> x in l.prev && k.prev[x] == l.prev[x]
    requires forall x :: x in k.next ==> x in l.next && k.next[x] == l.next[x]
    requires forall x :: x in k.parent ==> x in l.parent && k.parent[x] == l.parent[x]
    requires forall a :: a in k.slot ==> a in l.slot && k.slot[a] == l.slot[a]
    ensures Stored(m, k)
  {
    forall x {:trigger TagAt(m, k, x)} ensures TagAt(m, k, x) { assert TagAt(m, l, x); }
    forall x {:trigger PrevAt(m, k, x)} ensures PrevAt(m, k, x) { assert PrevAt(m, l, x); }
    forall x {:trigger NextAt(m, k, x)} ensures NextAt(m, k, x) { assert NextAt(m, l, x); }
    forall x {:trigger ParentAt(m, k, x)} ensures ParentAt(m, k, x) { assert ParentAt(m, l, x); }
    forall a {:trigger SlotAt(m, k, a)} ensures SlotAt(m, k, a) { assert SlotAt(m, l, a); }
  }

  /** Neither memory nor separation depends on the structure laid over the links. */
  lemma LinksSame(m: Mem, l: Lists, k: Lists)
    requires Stored(m, l) && Separate(l)
    requires k.base == l.base && k.size == l.size && k.prev == l.prev && k.next == l.next && k.parent == l.parent && k.slot == l.slot
    ensures Stored(m, k) && Separate(k)
  {
    assert 0 in k.size ==> TagAt(m, l, 0);
    StoredSame(m, l, k, 0);
    SeparateSame(l, k);
  }

  lemma Release(m: Mem, l: Lists, k: Lists, b: int)
    requires Stored(m, l) && Separate(l) && b in l.size
    requires k.base == l.base && k.size == l.size - {b} && k.prev == l.prev - {b} && k.next == l.next - {b}
    requires k.parent == l.parent - {b} && k.slot == l.slot - {Child(b, false), Child(b, true)}
    ensures Stored(m, k) && Separate(k)
  {
    assert Aligned(l, b);
    StoredSame(m, l, k, b);
    forall x {:trigger Aligned(k, x)} | x in k.size ensures Aligned(k, x) {
      assert Aligned(l, x);
    }
    forall x, y {:trigger SizesApart(k, x, y)} | x in k.size && y in k.size && x != y ensures SizesApart(k, x, y) {
      assert SizesApart(l, x, y);
    }
    forall x {:trigger RingNode(k, x)} | x in k.next || x in k.prev ensures RingNode(k, x) {
      assert RingNode(l, x);
    }
    forall x {:trigger LargeBlock(k, x)} | x in k.parent ensures LargeBlock(k, x) {
      assert LargeBlock(l, x);
    }
    forall a {:trigger SlotPlace(k, a)} | a in k.slot ensures SlotPlace(k, a) {
      assert SlotPlace(l, a);
      assert a.Child? ==> a.side == false || a.side == true;
    }
  }

  // ---------- writes elsewhere ----------

  /** The region of `len` bytes at `lo` overlaps no listed block and no bucket. */
  ghost predicate Clear(l: Lists, lo: int, len: nat) {
    && Apart(lo, len, l.base, AREA)
    && forall y {:trigger ClearOf(l, lo, len, y)} :: y in l.size ==> ClearOf(l, lo, len, y)
  }

  /** From m to n only words of that region changed. */
  ghost predicate KeptBeyond(m: Mem, n: Mem, lo: int, len: nat) {
    forall a {:trigger SameWord(m, n, a)} :: a in m && !(lo <= a < lo + len) ==> SameWord(m, n, a)
  }

  lemma KeptNode(m: Mem, n: Mem, l: Lists, lo: int, len: nat, x: int, w: int)
    requires Separate(l) && Clear(l, lo, len) && KeptBeyond(m, n, lo, len)
    requires RingNode(l, x) && (w == x + 16 || w == x + 24) && w in m
    ensures SameWord(m, n, w)
  {
    if x in l.size { assert Aligned(l, x) && ClearOf(l, lo, len, x); }
    assert SameWord(m, n, w);
  }

  lemma KeptLarge(m: Mem, n: Mem, l: Lists, lo: int, len: nat, x: int, w: int)
    requires Separate(l) && Clear(l, lo, len) && KeptBeyond(m, n, lo, len)
    requires x in l.size && x <= w < x + l.size[x] && w in m
    ensures SameWord(m, n, w)
  {
    assert Aligned(l, x) && ClearOf(l, lo, len, x);
    assert SameWord(m, n, w);
  }

  lemma StoredFrame(m: Mem, n: Mem, l: Lists, lo: int, len: nat)
    requires Stored(m, l) && Separate(l) && Clear(l, lo, len) && KeptBeyond(m, n, lo, len)
    ensures Stored(n, l)
  {
    forall x {:trigger TagAt(n, l, x)} ensures TagAt(n, l, x) {
      assert TagAt(m, l, x);
      if x in l.size {
        assert Aligned(l, x);
        KeptLarge(m, n, l, lo, len, x, x);
      }
    }
    forall x {:trigger PrevAt(n, l, x)} ensures PrevAt(n, l, x) {
      assert PrevAt(m, l, x);
      if x in l.prev {
        assert RingNode(l, x);
        KeptNode(m, n, l, lo, len, x, x + 16);
      }
    }
    forall x {:trigger NextAt(n, l, x)} ensures NextAt(n, l, x) {
      assert NextAt(m, l, x);
      if x in l.next {
        assert RingNode(l, x);
        KeptNode(m, n, l, lo, len, x, x + 24);
      }
    }
    forall x {:trigger ParentAt(n, l, x)} ensures ParentAt(n, l, x) {
      assert ParentAt(m, l, x);
      if x in l.parent {
        assert LargeBlock(l, x) && Aligned(l, x);
        KeptLarge(m, n, l, lo, len, x, x + 32);
      }
    }
    forall a {:trigger SlotAt(n, l, a)} ensures SlotAt(n, l, a) {
      assert SlotAt(m, l, a);
      if a in l.slot {
        assert SlotPlace(l, a);
        if a.Child? {
          assert Aligned(l, a.b);
          KeptLarge(m, n, l, lo, len, a.b, SlotAddress(l.base, a));
        } else {
          assert SameWord(m, n, SlotAddress(l.base, a));
        }
      }
    }
  }
}
