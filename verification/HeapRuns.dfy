/**
 Whole runs of a program on the heap, against the obvious specification: a set of named buffers, each
 holding what was last written to it.
 */
module HeapRuns {
  import opened Bits
  import opened Memory
  import opened Blocks
  import opened HeapView
  import opened HeapBooks
  import opened ZendHeap

  /** What a program does; buffers have names of its own. */
  datatype Op =
    | Malloc(name: nat, bytes: nat)
    | Realloc(name: nat, bytes: nat)
    | Release(name: nat)
    | Write(name: nat, offset: nat, word: int)

  /** `words` are the words written so far, by offset. */
  datatype Buffer = Buffer(bytes: nat, words: map<nat, int>)

  type Buffers = map<nat, Buffer>

  function Cut(words: map<nat, int>, bytes: nat): map<nat, int> { map o | o in words && o + 8 <= bytes :: words[o] }

  /** The specification of one operation. */
  function Apply(s: Buffers, op: Op): Buffers {
    match op
    case Malloc(x, n) => s[x := Buffer(n, map[])]
    case Realloc(x, n) => s[x := Buffer(n, if x in s then Cut(s[x].words, n) else map[])]
    case Release(x) => s - {x}
    case Write(x, o, w) => if x in s then s[x := s[x].(words := s[x].words[o := w])] else s
  }

  /** A program allocates under new names, writes whole words inside its buffers and releases what it has. */
  predicate Legal(s: Buffers, op: Op) {
    match op
    case Malloc(x, n) => x !in s && n < WORD
    case Realloc(x, n) => n < WORD
    case Release(x) => x in s
    case Write(x, o, _) => x in s && o % 8 == 0 && o + 8 <= s[x].bytes
  }

  function ApplyAll(s: Buffers, ops: seq<Op>): Buffers
    decreases |ops|
  {
    if ops == [] then s else ApplyAll(Apply(s, ops[0]), ops[1..])
  }

  predicate LegalAll(s: Buffers, ops: seq<Op>)
    decreases |ops|
  {
    ops == [] || (Legal(s, ops[0]) && LegalAll(Apply(s, ops[0]), ops[1..]))
  }

  ghost predicate WordOf(v: View, p: int, b: Buffer, o: nat) {
    o in b.words ==> o % 8 == 0 && o + 8 <= b.bytes && Memory.Holds(v.mem, p + o, b.words[o])
  }

  /** Pointer p is an allocation of at least the size of buffer b and holds its words. */
  ghost predicate BufferAt(v: View, p: int, b: Buffer) {
    && p - HEADER in Allocated(v.blocks) && Allocated(v.blocks)[p - HEADER] >= b.bytes + HEADER
    && forall o: nat {:trigger WordOf(v, p, b, o)} :: WordOf(v, p, b, o)
  }

  ghost predicate Owned(at: map<nat, int>, b: int) { exists x :: x in at && at[x] == b + HEADER }

  ghost predicate Differ(at: map<nat, int>, x: nat, y: nat) { x in at && y in at && x != y ==> at[x] != at[y] }

  ghost predicate Here(v: View, at: map<nat, int>, s: Buffers, x: nat)
    requires x in at && x in s
  {
    BufferAt(v, at[x], s[x])
  }

  /** The pointers of the program stand for its buffers, and nothing else is allocated. */
  ghost predicate Represents(v: View, at: map<nat, int>, s: Buffers) {
    && at.Keys == s.Keys
    && (forall x {:trigger Here(v, at, s, x)} :: x in at ==> Here(v, at, s, x))
    && (forall x, y {:trigger Differ(at, x, y)} :: Differ(at, x, y))
    && (forall b {:trigger Owned(at, b)} :: b in Allocated(v.blocks) ==> Owned(at, b))
  }

  // ---------- one operation ----------

  /** A buffer that is spared keeps its words. */
  lemma BufferKept(v: View, w: View, p: int, b: Buffer)
    requires BufferAt(v, p, b) && p - HEADER in Allocated(w.blocks) && Allocated(w.blocks)[p - HEADER] == Allocated(v.blocks)[p - HEADER]
    requires PayloadKept(v.mem, w.mem, p - HEADER, Allocated(v.blocks)[p - HEADER])
    ensures BufferAt(w, p, b)
  {
    forall o: nat {:trigger WordOf(w, p, b, o)} ensures WordOf(w, p, b, o) {
      assert WordOf(v, p, b, o);
      assert o in b.words ==> SameWord(v.mem, w.mem, p + o);
    }
  }

  /** A buffer that is not in block b is spared. */
  lemma OtherKept(v: View, w: View, at: map<nat, int>, s: Buffers, b: int, y: nat)
    requires Represents(v, at, s) && Spared(v.mem, Allocated(v.blocks), w.mem, Allocated(w.blocks), b)
    requires y in at && at[y] != b + HEADER
    ensures BufferAt(w, at[y], s[y])
  {
    var live, c := Allocated(v.blocks), at[y] - HEADER;
    assert Here(v, at, s, y);
    assert c in live && PayloadKept(v.mem, w.mem, c, live[c]);
    assert c in live - {b} && (live - {b})[c] == live[c];
    BufferKept(v, w, at[y], s[y]);
  }

  lemma OwnedStill(at: map<nat, int>, x: nat, p: int, b: int)
    requires b == p - HEADER || (Owned(at, b) && (x in at ==> at[x] != b + HEADER))
    ensures Owned(at[x := p], b)
  {
    var at' := at[x := p];
    if b == p - HEADER {
      assert x in at' && at'[x] == b + HEADER;
    } else {
      var y :| y in at && at[y] == b + HEADER;
      assert y in at' && at'[y] == b + HEADER;
    }
  }

  lemma OwnedWithout(at: map<nat, int>, x: nat, b: int)
    requires x in at && Owned(at, b) && at[x] != b + HEADER
    ensures Owned(at - {x}, b)
  {
    var y :| y in at && at[y] == b + HEADER;
    var at' := at - {x};
    assert y in at' && at'[y] == b + HEADER;
  }

  lemma AfterMalloc(v: View, w: View, at: map<nat, int>, s: Buffers, x: nat, n: nat, p: int)
    requires Represents(v, at, s) && x !in s && Allotted(v, w, p - HEADER) && w.blocks[p - HEADER].size >= n + HEADER
    ensures Represents(w, at[x := p], s[x := Buffer(n, map[])])
  {
    var at', s' := at[x := p], s[x := Buffer(n, map[])];
    forall y {:trigger Here(w, at', s', y)} | y in at' ensures Here(w, at', s', y) && (y != x ==> at[y] != p) {
      if y != x {
        assert Here(v, at, s, y);
        OtherKept(v, w, at, s, p - HEADER, y);
      } else {
        forall o: nat {:trigger WordOf(w, p, s'[x], o)} ensures WordOf(w, p, s'[x], o) {
        }
      }
    }
    forall y, z {:trigger Differ(at', y, z)} ensures Differ(at', y, z) {
      assert Differ(at, y, z);
      assert y in at' ==> Here(w, at', s', y);
      assert z in at' ==> Here(w, at', s', z);
    }
    forall b {:trigger Owned(at', b)} | b in Allocated(w.blocks) ensures Owned(at', b) {
      assert b != p - HEADER ==> b in Allocated(v.blocks) && Owned(at, b);
      OwnedStill(at, x, p, b);
    }
  }

  lemma AfterRelease(v: View, w: View, at: map<nat, int>, s: Buffers, x: nat)
    requires Represents(v, at, s) && x in s && Allocated(w.blocks) == Allocated(v.blocks) - {at[x] - HEADER}
    requires Spared(v.mem, Allocated(v.blocks), w.mem, Allocated(w.blocks), at[x] - HEADER)
    ensures Represents(w, at - {x}, s - {x})
  {
    var at', s' := at - {x}, s - {x};
    forall y {:trigger Here(w, at', s', y)} | y in at' ensures Here(w, at', s', y) {
      assert Differ(at, y, x);
      OtherKept(v, w, at, s, at[x] - HEADER, y);
    }
    forall y, z {:trigger Differ(at', y, z)} ensures Differ(at', y, z) {
      assert Differ(at, y, z);
    }
    forall b {:trigger Owned(at', b)} | b in Allocated(w.blocks) ensures Owned(at', b) {
      assert b in Allocated(v.blocks) && Owned(at, b);
      OwnedWithout(at, x, b);
    }
  }

  lemma AfterWrite(v: View, w: View, at: map<nat, int>, s: Buffers, x: nat, o: nat, n: int)
    requires Represents(v, at, s) && x in s && o % 8 == 0 && o + 8 <= s[x].bytes
    requires w.blocks == v.blocks && at[x] + o in v.mem && w.mem == v.mem[at[x] + o := n]
    requires Spared(v.mem, Allocated(v.blocks), w.mem, Allocated(v.blocks), at[x] - HEADER)
    ensures Represents(w, at, s[x := s[x].(words := s[x].words[o := n])])
  {
    var b := s[x].(words := s[x].words[o := n]);
    var s' := s[x := b];
    forall y {:trigger Here(w, at, s', y)} | y in at ensures Here(w, at, s', y) {
      assert Here(v, at, s, y) && Differ(at, x, y);
      if y != x { OtherKept(v, w, at, s, at[x] - HEADER, y); } else { Rewritten(v, w, at[x], s[x], o, n); }
    }
    forall c {:trigger Owned(at, c)} | c in Allocated(w.blocks) ensures Owned(at, c) {
      assert c in Allocated(v.blocks);
    }
  }

  lemma Rewritten(v: View, w: View, p: int, b: Buffer, o: nat, n: int)
    requires BufferAt(v, p, b) && o % 8 == 0 && o + 8 <= b.bytes && w.blocks == v.blocks && w.mem == v.mem[p + o := n]
    ensures BufferAt(w, p, b.(words := b.words[o := n]))
  {
    var d := b.(words := b.words[o := n]);
    forall q: nat {:trigger WordOf(w, p, d, q)} ensures WordOf(w, p, d, q) {
      assert WordOf(v, p, b, q);
    }
  }

  lemma AfterRealloc(v: View, w: View, at: map<nat, int>, s: Buffers, x: nat, n: nat, q: int)
    requires Core(v) && Represents(v, at, s) && x in s && Reallocated(v, w, at[x] - HEADER, q - HEADER) && w.blocks[q - HEADER].size >= n + HEADER
    ensures Represents(w, at[x := q], s[x := Buffer(n, Cut(s[x].words, n))])
  {
    var at', s' := at[x := q], s[x := Buffer(n, Cut(s[x].words, n))];
    assert Here(v, at, s, x);
    forall y {:trigger Here(w, at', s', y)} | y in at' ensures Here(w, at', s', y) && (y != x ==> at[y] != q) {
      assert Differ(at, x, y);
      if y != x {
        RestKept(v, w, at, s, x, y, q);
      } else {
        ResizedBuffer(v, w, at[x], s[x], q, n);
      }
    }
    forall y, z {:trigger Differ(at', y, z)} ensures Differ(at', y, z) {
      assert Differ(at, y, z);
      assert y in at' ==> Here(w, at', s', y);
      assert z in at' ==> Here(w, at', s', z);
    }
    forall a {:trigger Owned(at', a)} | a in Allocated(w.blocks) ensures Owned(at', a) {
      assert a != q - HEADER ==> a in Allocated(v.blocks) && a != at[x] - HEADER && Owned(at, a);
      OwnedStill(at, x, q, a);
    }
  }

  lemma RestKept(v: View, w: View, at: map<nat, int>, s: Buffers, x: nat, y: nat, q: int)
    requires Represents(v, at, s) && x in s && y in s && y != x && Reallocated(v, w, at[x] - HEADER, q - HEADER)
    ensures BufferAt(w, at[y], s[y]) && at[y] != q
  {
    var live, c := Allocated(v.blocks), at[y] - HEADER;
    assert Here(v, at, s, y) && Differ(at, x, y);
    assert c in live && PayloadKept(v.mem, w.mem, c, live[c]);
    assert c in live - {at[x] - HEADER} && (live - {at[x] - HEADER})[c] == live[c];
    BufferKept(v, w, at[y], s[y]);
  }

  /** The words that fit the new size were copied. */
  lemma ResizedBuffer(v: View, w: View, p: int, b: Buffer, q: int, n: nat)
    requires BufferAt(v, p, b) && Reallocated(v, w, p - HEADER, q - HEADER) && w.blocks[q - HEADER].size >= n + HEADER
    ensures BufferAt(w, q, Buffer(n, Cut(b.words, n)))
  {
    var d := Buffer(n, Cut(b.words, n));
    assert v.blocks[p - HEADER].size == Allocated(v.blocks)[p - HEADER];
    forall o: nat {:trigger WordOf(w, q, d, o)} ensures WordOf(w, q, d, o) {
      assert WordOf(v, p, b, o);
      assert o in d.words ==> WordMoved(v.mem, w.mem, p, q, o);
    }
  }

  /** One operation of the program on the heap; `done` is false if memory ran out. */
  method Step(heap: Heap, at: map<nat, int>, op: Op, ghost s: Buffers) returns (done: bool, at': map<nat, int>)
    requires heap.Valid() && Represents(heap.v, at, s) && Legal(s, op)
    modifies heap, heap.index
    ensures done ==> heap.Valid() && Represents(heap.v, at', Apply(s, op))
  {
    ghost var was := heap.v;
    match op
    case Malloc(x, n) =>
      var p := heap.AllocInt(n);
      done, at' := p != 0, at[x := p];
      if done { AfterMalloc(was, heap.v, at, s, x, n, p); }
    case Realloc(x, n) =>
      done, at' := Resize(heap, at, x, n, s);
    case Release(x) =>
      assert Here(was, at, s, x);
      PointerNonZero(was, at[x]);
      heap.FreeInt(at[x]);
      AfterRelease(was, heap.v, at, s, x);
      done, at' := true, at - {x};
    case Write(x, o, n) =>
      assert Here(was, at, s, x);
      heap.Store(at[x], o, n);
      AfterWrite(was, heap.v, at, s, x, o, n);
      done, at' := true, at;
  }

  lemma PointerNonZero(v: View, p: int)
    requires Core(v) && p - HEADER in Allocated(v.blocks)
    ensures p != 0
  {
    Next(v, p - HEADER);
  }

  method Resize(heap: Heap, at: map<nat, int>, x: nat, n: nat, ghost s: Buffers) returns (done: bool, at': map<nat, int>)
    requires heap.Valid() && Represents(heap.v, at, s) && n < WORD
    modifies heap, heap.index
    ensures done ==> heap.Valid() && Represents(heap.v, at', Apply(s, Realloc(x, n)))
  {
    ghost var was := heap.v;
    var p := if x in at then at[x] else 0;
    if x in at {
      assert Here(was, at, s, x);
      PointerNonZero(was, p);
    }
    var q := heap.ReallocInt(p, n);
    done, at' := q != 0, at[x := q];
    if done {
      if x in at {
        AfterRealloc(was, heap.v, at, s, x, n, q);
      } else {
        AfterMalloc(was, heap.v, at, s, x, n, q);
      }
    }
  }

  // ---------- whole runs ----------

  /**
   Any program that allocates, resizes, releases and writes, as long as memory does not run out: at the
   end every buffer is there, holds what was last written to it, and nothing else is allocated.
   */
  method Run(heap: Heap, ops: seq<Op>) returns (done: bool, at: map<nat, int>)
    requires heap.Valid() && Allocated(heap.v.blocks) == map[] && LegalAll(map[], ops)
    modifies heap, heap.index
    ensures done ==> heap.Valid() && Represents(heap.v, at, ApplyAll(map[], ops))
  {
    done, at := true, map[];
    ghost var s: Buffers := map[];
    var i := 0;
    assert ops[0..] == ops;
    while i < |ops|
      invariant 0 <= i <= |ops| && done
      invariant heap.Valid() && Represents(heap.v, at, s)
      invariant ApplyAll(s, ops[i..]) == ApplyAll(map[], ops) && LegalAll(s, ops[i..])
    {
      assert ops[i..][0] == ops[i] && ops[i..][1..] == ops[i + 1..];
      done, at := Step(heap, at, ops[i], s);
      if !done {
        return;
      }
      s := Apply(s, ops[i]);
      i := i + 1;
    }
  }
}
