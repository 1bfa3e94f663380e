// Powers of two, alignment and bit tests, the arithmetic the kernel writes
// with shifts and masks. On unsigned words `x & (1<<b)` is the b-th binary
// digit of x, `x & ~(m-1)` rounds down to a multiple of m.
module Bits {
  const WORD: int := 0x1_0000_0000
  const WORD64: int := 0x1_0000_0000_0000_0000

  type u32 = x: int | 0 <= x < WORD

  /** What a 32-bit word keeps of x. */
  function Wrap(x: int): u32 { x % WORD }

  function Pow2(n: nat): (p: nat)
    ensures p >= 1
  {
    if n == 0 then 1 else 2 * Pow2(n - 1)
  }

  /** `x & (1 << b)` is not zero: binary digit b of x is 1. */
  predicate BitSet(x: int, b: nat)
    decreases b
  {
    if b == 0 then x % 2 == 1 else BitSet(x / 2, b - 1)
  }

  /** The b lowest binary digits of x are 0. */
  predicate Aligned(x: int, b: nat)
    decreases b
  {
    b == 0 || (x % 2 == 0 && Aligned(x / 2, b - 1))
  }

  lemma {:induction false} Pow2Monotone(m: nat, n: nat)
    requires m <= n
    ensures Pow2(m) <= Pow2(n)
    ensures m < n ==> 2 * Pow2(m) <= Pow2(n)
    decreases n - m
  {
    if m < n {
      Pow2Monotone(m + 1, n);
    }
  }

  lemma Pow2Of29()
    ensures Pow2(2) == 4 && Pow2(10) == 0x400 && Pow2(12) == 0x1000
    ensures Pow2(20) == 0x10_0000 && Pow2(22) == 0x40_0000
    ensures Pow2(29) == 0x2000_0000 && Pow2(30) == 0x4000_0000
    ensures Pow2(31) == 0x8000_0000 && Pow2(32) == WORD
  {
    assert Pow2(4) == 16;
    assert Pow2(8) == 0x100;
    assert Pow2(12) == 0x1000;
    assert Pow2(16) == 0x1_0000;
    assert Pow2(20) == 0x10_0000;
    assert Pow2(24) == 0x100_0000;
    assert Pow2(28) == 0x1000_0000;
  }

  /** Alignment is divisibility by 2^b. */
  lemma {:induction false} AlignedIsMultiple(x: int, b: nat)
    ensures Aligned(x, b) <==> exists q :: x == Pow2(b) * q
    decreases b
  {
    if b == 0 {
      assert x == Pow2(b) * x;
    } else {
      AlignedIsMultiple(x / 2, b - 1);
      if Aligned(x, b) {
        var q :| x / 2 == Pow2(b - 1) * q;
        assert x == Pow2(b) * q;
      }
      if q :| x == Pow2(b) * q {
        assert x == 2 * (Pow2(b - 1) * q);
        assert x / 2 == Pow2(b - 1) * q;
      }
    }
  }

  lemma Aligned2(x: int)
    ensures Aligned(x, 2) <==> x % 4 == 0
  {
    assert Aligned(x / 2, 1) <==> x / 2 % 2 == 0 && Aligned(x / 2 / 2, 0);
  }

  lemma {:induction false} AlignedSum(x: int, y: int, b: nat)
    requires Aligned(x, b) && Aligned(y, b)
    ensures Aligned(x + y, b) && Aligned(x - y, b)
    decreases b
  {
    if b > 0 {
      AlignedSum(x / 2, y / 2, b - 1);
      assert (x + y) / 2 == x / 2 + y / 2 && (x - y) / 2 == x / 2 - y / 2;
    }
  }

  lemma {:induction false} AlignedSelf(b: nat)
    ensures Aligned(Pow2(b), b)
  {
    if b > 0 {
      AlignedSelf(b - 1);
      assert Pow2(b) == 2 * Pow2(b - 1);
      assert Pow2(b) % 2 == 0 && Pow2(b) / 2 == Pow2(b - 1);
    }
  }

  lemma {:induction false} AlignedZero(b: nat)
    ensures Aligned(0, b) && !BitSet(0, b)
  {
    if b > 0 {
      AlignedZero(b - 1);
    }
  }

  /** One more low zero digit. */
  lemma {:induction false} AlignedStep(x: int, b: nat)
    ensures Aligned(x, b + 1) <==> Aligned(x, b) && !BitSet(x, b)
    decreases b
  {
    if b == 0 {
      assert Aligned(x, 1) <==> x % 2 == 0 && Aligned(x / 2, 0);
    } else {
      AlignedStep(x / 2, b - 1);
    }
  }

  lemma {:induction false} AlignedLower(x: int, b: nat, c: nat)
    requires c <= b && Aligned(x, b)
    ensures Aligned(x, c)
    decreases b
  {
    if c < b {
      AlignedStep(x, b - 1);
      AlignedLower(x, b - 1, c);
    }
  }

  lemma {:induction false} BitUp(x: int, b: nat)
    ensures BitSet(x + Pow2(b), b) <==> !BitSet(x, b)
    decreases b
  {
    if b > 0 {
      BitUp(x / 2, b - 1);
      assert (x + Pow2(b)) / 2 == x / 2 + Pow2(b - 1);
    }
  }

  /** Toggling digit b of an aligned address by adding or subtracting 2^b. */
  lemma BitFlip(x: int, b: nat)
    requires Aligned(x, b)
    ensures Aligned(x + Pow2(b), b) && Aligned(x - Pow2(b), b)
    ensures BitSet(x + Pow2(b), b) <==> !BitSet(x, b)
    ensures BitSet(x - Pow2(b), b) <==> !BitSet(x, b)
    ensures Aligned(x, b + 1) <==> !BitSet(x, b)
    ensures BitSet(x, b) ==> Aligned(x + Pow2(b), b + 1) && Aligned(x - Pow2(b), b + 1)
  {
    AlignedSelf(b);
    AlignedSum(x, Pow2(b), b);
    BitUp(x, b);
    BitUp(x - Pow2(b), b);
    AlignedStep(x, b);
    AlignedStep(x + Pow2(b), b);
    AlignedStep(x - Pow2(b), b);
  }

  /** Distinct aligned addresses are at least one block apart. */
  lemma {:induction false} AlignedGap(x: int, y: int, b: nat)
    requires Aligned(x, b) && Aligned(y, b) && x < y
    ensures x + Pow2(b) <= y
    decreases b
  {
    if b > 0 {
      AlignedGap(x / 2, y / 2, b - 1);
    }
  }

  /** A positive multiple of 2^b is at least 2^b. */
  lemma AlignedPositive(x: int, b: nat)
    requires Aligned(x, b) && 0 < x
    ensures Pow2(b) <= x
  {
    AlignedZero(b);
    AlignedGap(0, x, b);
  }
}
