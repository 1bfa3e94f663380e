// 64-bit division by shifting and subtracting (kernel/lib.c:39-61).
module Division {
  import opened Bits

  type u64 = x: int | 0 <= x < WORD64

  /** `x << 1` on 64 bits. */
  function Shl(x: u64): u64 { 2 * x % WORD64 }

  lemma ShlDoubles(x: u64)
    requires x < 0x8000_0000_0000_0000
    ensures Shl(x) == 2 * x
  {
  }

  lemma Doubled(den: nat, d: nat, q: nat)
    requires d == den * q
    ensures 2 * d == den * (2 * q)
  {
  }

  lemma Halved(den: nat, d: nat, q: nat)
    requires d == den * (2 * q)
    ensures d / 2 == den * q && d % 2 == 0
  {
    assert d == 2 * (den * q);
  }

  lemma QuotientUnique(num: nat, den: nat, quot: nat, rem: nat)
    requires num == quot * den + rem && rem < den
    ensures quot == num / den && rem == num % den
  {
    TwoQuotients(den, quot, rem, num / den, num % den);
  }

  lemma TwoQuotients(den: nat, p: int, r: nat, q: int, s: nat)
    requires p * den + r == q * den + s && r < den && s < den
    ensures p == q && r == s
  {
    Apart(den, p, q);
    Apart(den, q, p);
  }

  lemma Apart(den: nat, p: int, q: int)
    ensures p < q ==> p * den + den <= q * den
  {
    if p < q {
      var k := q - p - 1;
      assert q * den == (p + 1 + k) * den == p * den + den + k * den;
      assert k * den >= 0;
    }
  }

  lemma Taken(num: nat, den: nat, d: nat, qbit: nat, quot: nat, rem: nat)
    requires num == quot * den + rem && d == den * qbit && d <= rem && den > 0
    ensures num == (quot + qbit) * den + (rem - d) && quot + qbit <= num
  {
    QuotientSmall(num, den, quot + qbit, rem - d);
  }

  /** do_divmod64 of a divisor that is not zero (a zero one is made to fault). No shift
      loses a bit that counts: the first loop stops as soon as the divisor fills the
      word, and until the last round the second loop only takes back what the first
      put in. */
  method DivMod64(num: u64, den: u64) returns (quot: u64, rem: u64)
    requires den != 0
    ensures quot == num / den && rem == num % den
  {
    var d, qbit := Justify(den);
    quot, rem := Subtract(num, den, d, qbit);
    QuotientUnique(num, den, quot, rem);
  }

  /** The divisor moved up until it fills the word, and by how much. */
  method Justify(den: u64) returns (d: u64, qbit: u64)
    requires den != 0
    ensures d >= 0x8000_0000_0000_0000 && d == den * qbit && exists k: nat :: qbit == Pow2(k)
  {
    hide Pow2, Shl;
    d, qbit := den, 1;
    ghost var k := 0;
    PowersOfTwo();
    while d < 0x8000_0000_0000_0000
      invariant 0 < d && d == den * qbit && qbit == Pow2(k) && 0 < qbit <= d
      decreases WORD64 - d
    {
      Doubled(den, d, qbit);
      ShlDoubles(d);
      ShlDoubles(qbit);
      PowerNext(k);
      d := Shl(d);
      qbit := Shl(qbit);
      k := k + 1;
    }
  }

  /** Quotient bit by quotient bit. */
  method Subtract(num: u64, den: u64, top: u64, bit: u64) returns (quot: u64, rem: u64)
    requires den != 0 && top >= 0x8000_0000_0000_0000 && top == den * bit && exists k: nat :: bit == Pow2(k)
    ensures num == quot * den + rem && rem < den
  {
    hide Pow2;
    var d, qbit := top, bit;
    ghost var k: nat :| bit == Pow2(k);
    PowersOfTwo();
    quot, rem := 0, num;
    while qbit != 0
      invariant qbit != 0 ==> qbit == Pow2(k) && d == den * qbit && rem < 2 * d
      invariant qbit == 0 ==> rem < den
      invariant num == quot * den + rem
      decreases qbit
    {
      if d <= rem {
        Taken(num, den, d, qbit, quot, rem);
        rem := rem - d;
        quot := quot + qbit;
      }
      if k > 0 {
        PowerNext(k - 1);
        Halved(den, d, qbit / 2);
        k := k - 1;
      }
      d := d / 2;
      qbit := qbit / 2;
    }
  }

  lemma PowersOfTwo()
    ensures Pow2(0) == 1
  {
  }

  lemma PowerNext(k: nat)
    ensures Pow2(k + 1) == 2 * Pow2(k)
  {
  }

  lemma QuotientSmall(num: nat, den: nat, quot: nat, rem: nat)
    requires num == quot * den + rem && den > 0
    ensures quot <= num
  {
  }
}
