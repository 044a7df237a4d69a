/**
 Singly linked lists in memory: a head pointer and, at a fixed offset of every element, the address
 of the next one, 0 at the end.  The segments of the heap and each list of cached blocks are such
 chains.
 */
module Chains {
  import Rings
  import opened Memory

  /** What the link of element j holds. */
  ghost function After(c: seq<int>, j: nat): int
    requires j < |c|
  {
    if j + 1 < |c| then c[j + 1] else 0
  }

  ghost function First(c: seq<int>): int { if c == [] then 0 else c[0] }

  ghost predicate LinkAt(m: Mem, off: nat, c: seq<int>, j: nat)
    requires j < |c|
  {
    c[j] != 0 && Holds(m, c[j] + off, After(c, j))
  }

  ghost predicate Chain(m: Mem, off: nat, head: int, c: seq<int>) {
    && head == First(c)
    && Rings.Distinct(c)
    && forall j {:trigger LinkAt(m, off, c, j)} :: 0 <= j < |c| ==> LinkAt(m, off, c, j)
  }

  lemma ChainFrame(m: Mem, n: Mem, off: nat, head: int, c: seq<int>)
    requires Chain(m, off, head, c)
    requires forall x :: x in c ==> SameWord(m, n, x + off)
    ensures Chain(n, off, head, c)
  {
    forall j {:trigger LinkAt(n, off, c, j)} | 0 <= j < |c| ensures LinkAt(n, off, c, j) {
      assert LinkAt(m, off, c, j) && c[j] in c;
    }
  }

  lemma EmptyChain(m: Mem, off: nat, c: seq<int>)
    requires Chain(m, off, 0, c)
    ensures c == []
  {
    assert c != [] ==> LinkAt(m, off, c, 0);
  }

  lemma Push(m: Mem, off: nat, head: int, c: seq<int>, x: int)
    requires Chain(m, off, head, c) && x != 0 && x !in c && Holds(m, x + off, head)
    ensures Chain(m, off, x, [x] + c)
  {
    var d := [x] + c;
    forall j {:trigger LinkAt(m, off, d, j)} | 0 <= j < |d| ensures LinkAt(m, off, d, j) {
      if j > 0 { assert LinkAt(m, off, c, j - 1); }
    }
  }

  lemma Pop(m: Mem, off: nat, head: int, c: seq<int>)
    requires Chain(m, off, head, c) && c != []
    ensures head == c[0] && head !in c[1..] && head + off in m && Chain(m, off, m[head + off], c[1..])
  {
    assert LinkAt(m, off, c, 0);
    var d := c[1..];
    forall j {:trigger LinkAt(m, off, d, j)} | 0 <= j < |d| ensures LinkAt(m, off, d, j) {
      assert LinkAt(m, off, c, j + 1);
    }
  }

  /** The link of element j - 1 skips element j, or the head does. */
  lemma Cut(m: Mem, n: Mem, off: nat, head: int, c: seq<int>, j: nat)
    requires Chain(m, off, head, c) && j < |c|
    requires forall k :: 0 <= k < |c| && k != j && k + 1 != j ==> SameWord(m, n, c[k] + off)
    requires j > 0 ==> Holds(n, c[j - 1] + off, After(c, j))
    ensures Chain(n, off, if j == 0 then After(c, 0) else head, c[..j] + c[j + 1..])
    ensures c[j] !in c[..j] + c[j + 1..]
  {
    var d := c[..j] + c[j + 1..];
    forall k {:trigger LinkAt(n, off, d, k)} | 0 <= k < |d| ensures LinkAt(n, off, d, k) {
      assert LinkAt(m, off, c, if k < j then k else k + 1);
    }
  }

  /** Element j is replaced by x, which has the same link; the link before it, or the head, is x. */
  lemma Swap(m: Mem, n: Mem, off: nat, head: int, c: seq<int>, j: nat, x: int)
    requires Chain(m, off, head, c) && j < |c| && x != 0 && (forall k :: 0 <= k < |c| && k != j ==> c[k] != x)
    requires forall k :: 0 <= k < |c| && k != j && k + 1 != j ==> SameWord(m, n, c[k] + off)
    requires j > 0 ==> Holds(n, c[j - 1] + off, x)
    requires Holds(n, x + off, After(c, j))
    ensures Chain(n, off, if j == 0 then x else head, c[j := x])
  {
    var d := c[j := x];
    forall k {:trigger LinkAt(n, off, d, k)} | 0 <= k < |d| ensures LinkAt(n, off, d, k) {
      assert LinkAt(m, off, c, k);
    }
  }
}
