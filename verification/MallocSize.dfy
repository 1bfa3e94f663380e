// The block order malloc chooses for a request (kernel/memory/memory.c:135-143),
// in 32-bit arithmetic.
module MallocSize {
  import opened Bits

  /** The number of binary digits of n. */
  function Digits(n: nat): nat { if n == 0 then 0 else 1 + Digits(n / 2) }

  /** The word count malloc asks for, in bytes, with its 32-bit wrap-around. */
  function Request(n: u32): u32 {
    var size := (n - 1 + 4) % WORD;
    (size - size % 4 + 4) % WORD
  }

  function OrderFor(n: u32): nat { 2 + Digits((Request(n) - 1) % WORD / 4) }

  lemma {:induction false} DigitsBound(n: nat)
    ensures n < Pow2(Digits(n))
    ensures n > 0 ==> Pow2(Digits(n) - 1) <= n
  {
    if n > 0 {
      DigitsBound(n / 2);
    }
  }

  /** The rounded request: a header word and n bytes in whole words, except that
      the four and then the three largest sizes wrap around. */
  lemma RequestValue(n: u32)
    ensures n < 0xFFFF_FFF9 ==> Request(n) == n + 3 - (n + 3) % 4 + 4
    ensures 0xFFFF_FFF9 <= n < 0xFFFF_FFFD ==> Request(n) == 0
    ensures 0xFFFF_FFFD <= n ==> Request(n) == 4
  {
  }

  lemma OrderOf(n: u32, q: nat)
    requires q == (Request(n) - 1) % WORD / 4
    ensures q < Pow2(OrderFor(n) - 2)
    ensures OrderFor(n) > 2 ==> Pow2(OrderFor(n) - 3) <= q
    ensures 4 * Pow2(OrderFor(n) - 2) == Pow2(OrderFor(n))
    ensures OrderFor(n) > 2 ==> 4 * Pow2(OrderFor(n) - 3) == Pow2(OrderFor(n) - 1)
  {
    DigitsBound(q);
  }

  /** Below 4 GB less 7 bytes malloc asks for the least sufficient order: a header
      word and n bytes fit in the block, and in no smaller one. */
  lemma OrderLeast(n: u32)
    requires n < 0xFFFF_FFF9
    ensures n + 4 <= Pow2(OrderFor(n))
    ensures OrderFor(n) > 2 ==> Pow2(OrderFor(n) - 1) < n + 4
  {
    hide Request, OrderFor, Pow2;
    RequestValue(n);
    OrderOf(n, (Request(n) - 1) / 4);
    if OrderFor(n) > 2 {
      Pow2Even(OrderFor(n) - 1);
    }
  }

  lemma Pow2Even(b: nat)
    requires b >= 2
    ensures Pow2(b) % 4 == 0
  {
    assert Pow2(b) == 4 * Pow2(b - 2);
  }

  /** When malloc can succeed at all, the request fits behind the header if and
      only if it is not one of the three largest sizes, whose rounding wraps around
      to a single word. */
  lemma RoomExactly(n: u32)
    requires OrderFor(n) <= 29
    ensures n + 4 <= Pow2(OrderFor(n)) <==> n < 0xFFFF_FFFD
  {
    hide Request, OrderFor, Pow2;
    RequestValue(n);
    Pow2Of29();
    Pow2Monotone(OrderFor(n), 29);
    if n < 0xFFFF_FFF9 {
      OrderLeast(n);
    } else {
      OrderOf(n, (Request(n) - 1) % WORD / 4);
    }
  }

  /** The first such size: the block chosen is the header word alone. */
  lemma LargeIsSmall()
    ensures OrderFor(0xFFFF_FFFD) == 2 && Pow2(OrderFor(0xFFFF_FFFD)) == 4
  {
    hide Request;
    RequestValue(0xFFFF_FFFD);
    assert Pow2(2) == 2 * Pow2(1) == 4;
  }

  /** The rounding and the shift loop at the head of malloc. */
  method ChooseOrder(n: u32) returns (bit: nat)
    ensures bit == OrderFor(n) >= 2
  {
    var size := (n - 1 + 4) % WORD;
    size := (size - size % 4 + 4) % WORD;
    assert size == Request(n);
    var sized: nat := (size - 1) % WORD / 4;
    bit := 2;
    ghost var q := sized;
    assert OrderFor(n) == 2 + Digits(q);
    while sized != 0
      invariant bit >= 2 && bit + Digits(sized) == 2 + Digits(q)
      decreases sized
    {
      bit, sized := bit + 1, sized / 2;
    }
  }
}
