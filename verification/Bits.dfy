/**
 Bit operations on machine words, written as arithmetic on natural numbers.

 A `size_t` is a number below WORD = 2^64.  Only shifts by one place are primitive here, so every
 definition is linear: `Shr(x, i)` is `x >> i`, `Bit(x, i)` is bit i, `SetBit` and `ClearBit` are
 `x | (1 << i)` and `x & ~(1 << i)`, and `Shl64` is `x << n` cut to 64 bits.
 */
module Bits {

  const WORD: nat := 0x1_0000_0000_0000_0000

  const HALF: nat := 0x8000_0000_0000_0000

  function Pow2(n: nat): (p: nat)
    ensures p >= 1
  {
    if n == 0 then 1 else 2 * Pow2(n - 1)
  }

  function Shr(x: nat, i: nat): nat
    decreases i
  {
    if i == 0 then x else Shr(x / 2, i - 1)
  }

  predicate Bit(x: nat, i: nat) {
    Shr(x, i) % 2 == 1
  }

  function SetBit(x: nat, i: nat): nat
    decreases i
  {
    if i == 0 then x / 2 * 2 + 1 else 2 * SetBit(x / 2, i - 1) + x % 2
  }

  function ClearBit(x: nat, i: nat): nat
    decreases i
  {
    if i == 0 then x / 2 * 2 else 2 * ClearBit(x / 2, i - 1) + x % 2
  }

  /** Position of the highest set bit. */
  function High(x: nat): nat
    requires x > 0
  {
    if x == 1 then 0 else 1 + High(x / 2)
  }

  /** Position of the lowest set bit. */
  function Low(x: nat): nat
    requires x > 0
  {
    if x % 2 == 1 then 0 else 1 + Low(x / 2)
  }

  /** `x << n` in a 64-bit register: the bits pushed out at the top are lost. */
  function Shl64(x: nat, n: nat): nat
    decreases n
  {
    if n == 0 then x else 2 * Shl64(x, n - 1) % WORD
  }

  // ---------- shifts ----------

  lemma {:induction false} ShrAdd(x: nat, i: nat, j: nat)
    ensures Shr(x, i + j) == Shr(Shr(x, i), j)
    decreases i
  {
    if i > 0 {
      ShrAdd(x / 2, i - 1, j);
    }
  }

  lemma ShrStep(x: nat, i: nat)
    ensures Shr(x, i + 1) == Shr(x, i) / 2
  {
    ShrAdd(x, i, 1);
  }

  /** Agreement above one bit, plus that bit, is agreement above the next lower bit. */
  lemma ShrRefine(x: nat, y: nat, i: nat)
    requires Shr(x, i + 1) == Shr(y, i + 1) && Bit(x, i) == Bit(y, i)
    ensures Shr(x, i) == Shr(y, i)
  {
    ShrStep(x, i);
    ShrStep(y, i);
  }

  /** Agreement above a bit persists above every higher bit. */
  lemma ShrWeaken(x: nat, y: nat, i: nat, j: nat)
    requires Shr(x, i) == Shr(y, i) && i <= j
    ensures Shr(x, j) == Shr(y, j)
    ensures i < j ==> Bit(x, j - 1) == Bit(y, j - 1)
  {
    ShrAdd(x, i, j - i);
    ShrAdd(y, i, j - i);
    if i < j {
      ShrAdd(x, i, j - 1 - i);
      ShrAdd(y, i, j - 1 - i);
    }
  }

  /** The first differing bit decides the order. */
  lemma {:induction false} ShrOrder(x: nat, y: nat, i: nat)
    requires Shr(x, i) < Shr(y, i)
    ensures x < y
    decreases i
  {
    if i > 0 {
      ShrOrder(x / 2, y / 2, i - 1);
    }
  }

  lemma BitOrder(x: nat, y: nat, i: nat)
    requires Shr(x, i + 1) == Shr(y, i + 1) && !Bit(x, i) && Bit(y, i)
    ensures x < y
  {
    ShrStep(x, i);
    ShrStep(y, i);
    ShrOrder(x, y, i);
  }

  /** Bit j of `x >> i` is bit i + j of x. */
  lemma BitOfShr(x: nat, i: nat, j: nat)
    ensures Bit(Shr(x, i), j) == Bit(x, i + j)
  {
    ShrAdd(x, i, j);
  }

  lemma {:induction false} ShrSmall(x: nat, i: nat)
    requires x < Pow2(i)
    ensures Shr(x, i) == 0
    decreases i
  {
    if i > 0 {
      ShrSmall(x / 2, i - 1);
    }
  }

  lemma {:induction false} ShrBound(x: nat, i: nat)
    ensures Shr(x, i) <= x
    decreases i
  {
    if i > 0 {
      ShrBound(x / 2, i - 1);
    }
  }

  // ---------- highest and lowest bit ----------

  lemma {:induction false} HighSpec(x: nat)
    requires x > 0
    ensures Pow2(High(x)) <= x < Pow2(High(x) + 1)
    ensures Shr(x, High(x)) == 1
    ensures Bit(x, High(x))
  {
    if x > 1 {
      HighSpec(x / 2);
    }
  }

  lemma {:induction false} HighMonotone(x: nat, y: nat)
    requires 0 < x && 0 < y && High(x) < High(y)
    ensures x < y
  {
    if x > 1 && y > 1 {
      HighMonotone(x / 2, y / 2);
    }
  }

  lemma {:induction false} HighBound(x: nat, n: nat)
    requires 0 < x < Pow2(n)
    ensures High(x) < n
  {
    if x > 1 {
      HighBound(x / 2, n - 1);
    }
  }

  lemma {:induction false} LowSpec(x: nat)
    requires x > 0
    ensures Bit(x, Low(x))
    ensures forall i :: 0 <= i < Low(x) ==> !Bit(x, i)
  {
    if x % 2 == 0 {
      LowSpec(x / 2);
      forall i | 0 <= i < Low(x) ensures !Bit(x, i) {
        if i > 0 {
          assert !Bit(x / 2, i - 1);
        }
      }
    }
  }

  lemma {:induction false} ShrZero(i: nat)
    ensures Shr(0, i) == 0
  {
    if i > 0 {
      ShrZero(i - 1);
    }
  }

  /** Shifting out everything below i leaves zero exactly when no bit at or above i is set. */
  lemma ShrZeroIff(x: nat, i: nat)
    ensures Shr(x, i) == 0 <==> forall j :: j >= i ==> !Bit(x, j)
  {
    if Shr(x, i) == 0 {
      forall j | j >= i ensures !Bit(x, j) {
        ShrAdd(x, i, j - i);
        ShrZero(j - i);
      }
    } else {
      var y := Shr(x, i);
      LowSpec(y);
      BitOfShr(x, i, Low(y));
      assert Bit(x, i + Low(y));
    }
  }

  // ---------- setting and clearing ----------

  lemma {:induction false} BitOfSetBit(x: nat, i: nat, j: nat)
    ensures Bit(SetBit(x, i), j) == (i == j || Bit(x, j))
    decreases i
  {
    if i > 0 {
      assert SetBit(x, i) / 2 == SetBit(x / 2, i - 1);
      if j > 0 {
        BitOfSetBit(x / 2, i - 1, j - 1);
      }
    }
  }

  lemma {:induction false} BitOfClearBit(x: nat, i: nat, j: nat)
    ensures Bit(ClearBit(x, i), j) == (i != j && Bit(x, j))
    decreases i
  {
    if i > 0 {
      assert ClearBit(x, i) / 2 == ClearBit(x / 2, i - 1);
      if j > 0 {
        BitOfClearBit(x / 2, i - 1, j - 1);
      }
    }
  }

  lemma {:induction false} SetBitBound(x: nat, i: nat, n: nat)
    requires x < Pow2(n) && i < n
    ensures SetBit(x, i) < Pow2(n)
    decreases i
  {
    assert Pow2(n) == 2 * Pow2(n - 1);
    if i > 0 {
      SetBitBound(x / 2, i - 1, n - 1);
      assert SetBit(x, i) == 2 * SetBit(x / 2, i - 1) + x % 2;
    } else {
      assert SetBit(x, i) == x / 2 * 2 + 1;
    }
  }

  lemma {:induction false} ClearBitBound(x: nat, i: nat)
    ensures ClearBit(x, i) <= x
    decreases i
  {
    if i > 0 {
      ClearBitBound(x / 2, i - 1);
    }
  }

  lemma {:induction false} BitOfZero(i: nat)
    ensures !Bit(0, i)
  {
    ShrZero(i);
  }

  // ---------- the truncated left shift ----------

  lemma {:induction false} Pow2Step8(n: nat)
    ensures Pow2(n + 8) == 256 * Pow2(n)
  {
    assert Pow2(n + 2) == 2 * Pow2(n + 1) == 4 * Pow2(n);
    assert Pow2(n + 4) == 2 * Pow2(n + 3) == 4 * Pow2(n + 2);
    assert Pow2(n + 6) == 2 * Pow2(n + 5) == 4 * Pow2(n + 4);
    assert Pow2(n + 8) == 2 * Pow2(n + 7) == 4 * Pow2(n + 6);
  }

  lemma Pow2Values()
    ensures Pow2(64) == WORD && Pow2(63) == HALF
  {
    Pow2Step8(0);
    Pow2Step8(8);
    Pow2Step8(16);
    Pow2Step8(24);
    Pow2Step8(32);
    Pow2Step8(40);
    Pow2Step8(48);
    Pow2Step8(56);
    assert Pow2(64) == 2 * Pow2(63);
  }

  /** Dropping the top bit of a word leaves the bits below it. */
  lemma {:induction false} BitBelowTop(x: nat, k: nat, j: nat)
    requires Pow2(k) <= x < Pow2(k + 1) && j < k
    ensures Bit(x - Pow2(k), j) == Bit(x, j)
    decreases j
  {
    if j > 0 {
      BitBelowTop(x / 2, k - 1, j - 1);
      assert (x - Pow2(k)) / 2 == x / 2 - Pow2(k - 1);
    }
  }

  /** In a word of k + 1 bits, bit k says whether the word is at least 2^k. */
  lemma {:induction false} TopBit(x: nat, k: nat)
    requires x < Pow2(k + 1)
    ensures Bit(x, k) <==> x >= Pow2(k)
    decreases k
  {
    if k > 0 {
      TopBit(x / 2, k - 1);
    }
  }

  lemma {:induction false} Shl64Bound(x: nat, n: nat)
    requires x < WORD
    ensures Shl64(x, n) < WORD
  {
  }

  /** One more place of shift: bit j - 1 becomes bit j, for j below 64. */
  lemma BitOfShlOnce(y: nat, j: nat)
    requires y < WORD && 1 <= j < 64
    ensures Bit(2 * y % WORD, j) == Bit(y, j - 1)
  {
    if y >= HALF {
      Pow2Values();
      BitBelowTop(y, 63, j - 1);
      Doubled(y - HALF, j);
      assert 2 * y % WORD == 2 * (y - HALF);
    } else {
      Doubled(y, j);
      assert 2 * y % WORD == 2 * y;
    }
  }

  lemma Doubled(y: nat, j: nat)
    requires j > 0
    ensures Bit(2 * y, j) == Bit(y, j - 1)
  {
    assert 2 * y / 2 == y;
  }

  lemma {:induction false} BitOfShl64(x: nat, n: nat, j: nat)
    requires x < WORD && n <= j < 64
    ensures Bit(Shl64(x, n), j) == Bit(x, j - n)
    decreases n
  {
    if n > 0 {
      Shl64Bound(x, n - 1);
      BitOfShl64(x, n - 1, j - 1);
      BitOfShlOnce(Shl64(x, n - 1), j);
    }
  }

  /**
   The bit a trie walk looks at: at depth d under the bucket of x, the top bit of
   `x << (64 - High(x) + d)` is bit High(x) - 1 - d of x.
   */
  lemma WalkBit(x: nat, d: nat)
    requires 0 < x < WORD && d < High(x)
    ensures High(x) < 64
    ensures Shl64(x, 64 - High(x) + d) >= HALF <==> Bit(x, High(x) - 1 - d)
  {
    Pow2Values();
    HighBound(x, 64);
    var n := 64 - High(x) + d;
    BitOfShl64(x, n, 63);
    Shl64Bound(x, n);
    TopBit(Shl64(x, n), 63);
  }

  // ---------- the portable loops of zend_mm_high_bit and zend_mm_low_bit ----------

  method HighBit(size: nat) returns (n: nat)
    requires 0 < size < WORD
    ensures n == High(size)
  {
    var x := size;
    var count := 0;
    while x != 0
      invariant 0 <= x && (x > 0 ==> High(size) == count + High(x))
      invariant x == 0 ==> count == High(size) + 1
      decreases x
    {
      x := x / 2;
      count := count + 1;
    }
    n := count - 1;
  }

  /** The 16-entry table of the source: the lowest set bit of a nibble, 4 for the empty nibble. */
  const OFFSET: seq<nat> := [4, 0, 1, 0, 2, 0, 1, 0, 3, 0, 1, 0, 2, 0, 1, 0]

  method LowBit(size: nat) returns (n: nat)
    requires 0 < size < WORD
    ensures n == Low(size)
  {
    var x := size;
    var index := 0;
    var step := OFFSET[x % 16];
    while step == 4
      invariant x > 0 && step == OFFSET[x % 16]
      invariant Low(size) == index + Low(x)
      decreases x
    {
      LowOfNibble(x);
      x := x / 16;
      index := index + step;
      step := OFFSET[x % 16];
    }
    LowOfNibble(x);
    n := index + step;
  }

  lemma LowOfNibble(x: nat)
    requires x > 0
    ensures x % 16 != 0 ==> Low(x) == OFFSET[x % 16] < 4
    ensures x % 16 == 0 ==> OFFSET[x % 16] == 4 && x / 16 > 0 && Low(x) == 4 + Low(x / 16)
  {
    if x % 2 == 0 {
      var y := x / 2;
      assert Low(x) == 1 + Low(y);
      if y % 2 == 0 {
        var z := y / 2;
        assert Low(y) == 1 + Low(z);
        if z % 2 == 0 {
          assert Low(z) == 1 + Low(z / 2);
        }
      }
    }
  }
}
