// Printing and reading numbers (kernel/format.c:65-107, 225-233).
module Format {
  import opened Bits

  datatype Flags = Flags(left: bool, plus: bool, special: bool, zeropad: bool, sign: bool, small: bool)

  /** A 32-bit word read as a signed number. */
  function Signed(x: int): (r: int)
    ensures -0x8000_0000 <= r < 0x8000_0000
  {
    if x % WORD >= 0x8000_0000 then x % WORD - WORD else x % WORD
  }

  const LARGE_DIGITS := "0123456789ABCDEFGHIJKLMNOPQRSTUVWXYZ"
  const SMALL_DIGITS := "0123456789abcdefghijklmnopqrstuvwxyz"

  function Digit(d: nat, small: bool): char
    requires d < 36
  {
    if small then SMALL_DIGITS[d] else LARGE_DIGITS[d]
  }

  // -------------------------------------------------------------- what is printed

  /** A number in a radix, the usual way round. */
  function Digits(n: nat, radix: nat, small: bool): (s: string)
    requires 2 <= radix <= 36
    ensures |s| > 0
  {
    (if n < radix then [] else Digits(n / radix, radix, small)) + [Digit(n % radix, small)]
  }

  function Sign(num: int, f: Flags): string {
    if (f.sign || f.plus) && num < 0 then "-" else if f.plus then "+" else ""
  }

  function Prefix(radix: nat, f: Flags): string {
    if !f.special then "" else if radix == 8 then "0" else if radix == 16 then if f.small then "0x" else "0X" else ""
  }

  /** The number without its sign, if the sign is shown. */
  function Magnitude(num: int, f: Flags): nat {
    if (f.sign || f.plus) && num < 0 then -num else num % WORD
  }

  function Natural(num: int, radix: nat, f: Flags): string
    requires 2 <= radix <= 36
  {
    Sign(num, f) + Prefix(radix, f) + Digits(Magnitude(num, f), radix, f.small)
  }

  function Fill(c: char, n: int): (s: string)
    ensures |s| == if n < 0 then 0 else n
  {
    seq(if n < 0 then 0 else n, _ => c)
  }

  /** Sign and prefix, then zeros or blanks, then the digits; justified to the left,
      blanks behind it all. */
  function Text(num: int, radix: nat, width: int, f: Flags): string
    requires 2 <= radix <= 36
  {
    var pad := width - |Natural(num, radix, f)|;
    Sign(num, f) + Prefix(radix, f)
    + (if f.left then "" else Fill(if f.zeropad then '0' else ' ', pad))
    + Digits(Magnitude(num, f), radix, f.small)
    + (if f.left then Fill(' ', pad) else "")
  }

  /** As wide as asked for, or as the number needs. */
  lemma TextLength(num: int, radix: nat, width: int, f: Flags)
    requires 2 <= radix <= 36
    ensures |Text(num, radix, width, f)| == if width > |Natural(num, radix, f)| then width else |Natural(num, radix, f)|
  {
  }

  function Power(radix: nat, n: nat): nat { if n == 0 then 1 else radix * Power(radix, n - 1) }

  /** What a digit stands for: letters, capital or small, follow 9. */
  function DigitOf(c: char): nat {
    if '0' <= c <= '9' then c as int - '0' as int
    else if 'A' <= c <= 'Z' then c as int - 'A' as int + 10
    else if 'a' <= c <= 'z' then c as int - 'a' as int + 10
    else 0
  }

  /** The number a string of digits stands for: the sum of the digits times powers of the
      radix. */
  function NumberIn(s: string, radix: nat): nat {
    if s == "" then 0 else DigitOf(s[0]) * Power(radix, |s| - 1) + NumberIn(s[1..], radix)
  }

  lemma {:induction false} NumberNext(s: string, c: char, radix: nat)
    ensures NumberIn(s + [c], radix) == NumberIn(s, radix) * radix + DigitOf(c)
  {
    hide DigitOf;
    if s == "" {
      assert (s + [c])[1..] == "" && Power(radix, 0) == 1;
    } else {
      NumberNext(s[1..], c, radix);
      assert (s + [c])[1..] == s[1..] + [c];
      NumberShift(DigitOf(s[0]), Power(radix, |s| - 1), NumberIn(s[1..], radix), radix);
    }
  }

  lemma NumberShift(d: nat, p: nat, m: nat, radix: nat)
    ensures d * (radix * p) + m * radix == (d * p + m) * radix
  {
  }

  lemma DigitStands(d: nat, small: bool)
    requires d < 36
    ensures DigitOf(Digit(d, small)) == d && (d > 0 ==> Digit(d, small) != '0')
  {
    hide DigitOf;
    if small { SmallStands(d); } else { LargeStands(d); }
  }

  lemma SmallStands(d: nat)
    requires d < 36
    ensures DigitOf(SMALL_DIGITS[d]) == d && (d > 0 ==> SMALL_DIGITS[d] != '0')
  {
  }

  lemma LargeStands(d: nat)
    requires d < 36
    ensures DigitOf(LARGE_DIGITS[d]) == d && (d > 0 ==> LARGE_DIGITS[d] != '0')
  {
  }

  /** In every radix the digits stand for the number, and there is no zero before them. */
  lemma {:induction false} DigitsStand(n: nat, radix: nat, small: bool)
    requires 2 <= radix <= 36
    ensures NumberIn(Digits(n, radix, small), radix) == n
    ensures n > 0 ==> Digits(n, radix, small)[0] != '0'
  {
    hide Digit, DigitOf, NumberIn;
    DivParts(n, radix);
    var q, c := n / radix, Digit(n % radix, small);
    DigitStands(n % radix, small);
    var tens := if n < radix then "" else Digits(q, radix, small);
    assert Digits(n, radix, small) == tens + [c];
    NumberNext(tens, c, radix);
    if n < radix {
      NoNumber(radix);
    } else {
      DigitsStand(q, radix, small);
    }
  }

  lemma NoNumber(radix: nat)
    ensures NumberIn("", radix) == 0
  {
  }

  lemma DivParts(n: nat, radix: nat)
    requires 2 <= radix
    ensures n == n / radix * radix + n % radix && (n < radix ==> n / radix == 0 && n % radix == n)
    ensures n >= radix ==> 0 < n / radix < n
  {
    DivFacts(n, radix);
  }

  /** What the sign and the digits say is the number: as it is with its sign, or as an
      unsigned word. */
  lemma SignStands(num: int, f: Flags)
    requires -0x8000_0000 <= num < 0x8000_0000
    ensures f.sign || f.plus ==> num == (if Sign(num, f) == "-" then -1 else 1) * Magnitude(num, f)
    ensures !(f.sign || f.plus) ==> Sign(num, f) == "" && 0 <= Magnitude(num, f) < WORD && Magnitude(num, f) in {num, num + WORD}
    ensures Sign(num, f) == "+" <==> f.plus && num >= 0
  {
  }

  /** Three numbers as they are printed by "%06d", "%#08x" and "%-4X". */
  lemma Printed()
    ensures Text(-42, 10, 6, Flags(false, false, false, true, true, false)) == "-00042"
    ensures Text(255, 16, 8, Flags(false, false, true, true, false, true)) == "0x0000ff"
    ensures Text(255, 16, 4, Flags(true, false, false, false, false, false)) == "FF  "
  {
    DigitsOf42();
    DigitsOf255(true);
    DigitsOf255(false);
    hide Digits;
    assert Fill('0', 3) == "000" && Fill('0', 4) == "0000" && Fill(' ', 2) == "  ";
  }

  lemma DigitsOf42()
    ensures Digits(42, 10, false) == "42"
  {
    assert Digits(4, 10, false) == [Digit(4, false)] && Digits(42, 10, false) == Digits(4, 10, false) + [Digit(2, false)];
  }

  lemma DigitsOf255(small: bool)
    ensures Digits(255, 16, small) == if small then "ff" else "FF"
  {
    assert Digits(15, 16, small) == [Digit(15, small)] && Digits(255, 16, small) == Digits(15, 16, small) + [Digit(15, small)];
  }

  // ---------------------------------------------------------- how it is produced

  function Reversed(s: string): (r: string)
    ensures |r| == |s|
  {
    if s == "" then "" else Reversed(s[1..]) + [s[0]]
  }

  lemma {:induction false} ReversedConcat(s: string, t: string)
    ensures Reversed(s + t) == Reversed(t) + Reversed(s)
  {
    if s == "" {
      assert s + t == t;
    } else {
      assert (s + t)[1..] == s[1..] + t;
      ReversedConcat(s[1..], t);
    }
  }

  /** The digits as the division loop yields them. */
  function Low(n: nat, radix: nat, small: bool): (s: string)
    requires 2 <= radix <= 36
    ensures |s| > 0
  {
    [Digit(n % radix, small)] + if n < radix then "" else Low(n / radix, radix, small)
  }

  lemma {:induction false} LowReversed(n: nat, radix: nat, small: bool)
    requires 2 <= radix <= 36
    ensures Reversed(Low(n, radix, small)) == Digits(n, radix, small)
  {
    if n >= radix {
      LowReversed(n / radix, radix, small);
      assert Low(n, radix, small)[1..] == Low(n / radix, radix, small);
    } else {
      assert Low(n, radix, small)[1..] == "";
    }
  }

  lemma {:induction false} LowLength(n: nat, radix: nat, small: bool)
    requires 2 <= radix <= 36 && n < WORD
    ensures |Low(n, radix, small)| <= 32
  {
    Pow2Of29();
    LowBound(n, radix, small, 32);
  }

  lemma {:induction false} LowBound(n: nat, radix: nat, small: bool, k: nat)
    requires 2 <= radix <= 36 && k > 0 && n < Pow2(k)
    ensures |Low(n, radix, small)| <= k
    decreases k
  {
    hide Digit;
    if n >= radix {
      HalfOrLess(n, radix);
      HalfBelow(n, k);
      LowBound(n / radix, radix, small, k - 1);
    }
  }

  lemma HalfBelow(n: nat, k: nat)
    requires 2 <= n < Pow2(k) && k > 0
    ensures k > 1 && n / 2 < Pow2(k - 1)
  {
    assert Pow2(1) == 2 * Pow2(0) == 2;
  }

  lemma HalfOrLess(n: nat, radix: nat)
    requires radix >= 2
    ensures n / radix <= n / 2
  {
    assert n == radix * (n / radix) + n % radix;
    assert 2 * (n / radix) <= radix * (n / radix);
  }

  /** The swapping loop: the part from k to i is turned round, sign and prefix before
      it are left alone. */
  method Swap(str: array<char>, k: nat, i: nat)
    requires k < i <= str.Length
    modifies str
    ensures forall x :: 0 <= x < str.Length ==> str[x] == old(str[if k <= x < i then i - 1 + k - x else x])
  {
    var j := k;
    while j <= (i + k - 1) / 2
      invariant k <= j <= (i + k - 1) / 2 + 1
      invariant forall x :: 0 <= x < str.Length ==>
                  str[x] == old(str[if k <= x < j || (i + k - j <= x < i && k <= x) then i - 1 + k - x else x])
    {
      var temp := str[j];
      str[j] := str[i - 1 + k - j];
      str[i - j - 1 + k] := temp;
      j := j + 1;
    }
  }

  method ReverseRange(str: array<char>, k: nat, i: nat)
    requires k < i <= str.Length
    modifies str
    ensures str[..i] == old(str[..k]) + Reversed(old(str[k..i]))
  {
    hide Reversed;
    ghost var head, body := str[..k], str[k..i];
    Swap(str, k, i);
    assert |Reversed(body)| == i - k && forall x :: 0 <= x < i - k ==> Reversed(body)[x] == body[i - k - 1 - x] by {
      ReversedAt(body);
    }
    assert str[..i] == head + Reversed(body);
  }

  lemma {:induction false} ReversedAt(s: string)
    ensures |Reversed(s)| == |s| && forall i :: 0 <= i < |s| ==> Reversed(s)[i] == s[|s| - 1 - i]
  {
    if s != "" {
      ReversedAt(s[1..]);
    }
  }

  /** Characters up to a width. */
  method PadTo(str: array<char>, i: nat, width: int, c: char) returns (n: nat)
    requires i <= str.Length && width <= str.Length
    modifies str
    ensures n == (if width > i then width else i) && str[..n] == old(str[..i]) + Fill(c, width - i)
  {
    n := i;
    while n < width
      invariant i <= n && (n <= width || n == i) && n <= str.Length
      invariant forall x :: 0 <= x < n ==> str[x] == if x < i then old(str[x]) else c
    {
      str[n] := c;
      n := n + 1;
    }
  }

  /** Sign and prefix. */
  method PutHead(str: array<char>, num: int, radix: nat, f: Flags) returns (i: nat, unum: nat)
    requires -0x8000_0000 <= num < 0x8000_0000 && 2 <= radix <= 36 && str.Length >= 3
    modifies str
    ensures i <= 3 && str[..i] == Sign(num, f) + Prefix(radix, f) && unum == Magnitude(num, f) < WORD
  {
    i := 0;
    if (f.sign || f.plus) && num < 0 {
      unum := -num;
      str[i] := '-';
      i := i + 1;
    } else if f.plus {
      unum := num % WORD;
      str[i] := '+';
      i := i + 1;
    } else {
      unum := num % WORD;
    }
    if f.special {
      if radix == 8 {
        str[i] := '0';
        i := i + 1;
      } else if radix == 16 {
        str[i] := '0';
        i := i + 1;
        str[i] := if f.small then 'x' else 'X';
        i := i + 1;
      }
    }
  }

  /** The division loop. */
  method PutDigits(str: array<char>, start: nat, num: nat, radix: nat, f: Flags) returns (i: nat)
    requires num < WORD && 2 <= radix <= 36 && start + 32 <= str.Length
    modifies str
    ensures i <= str.Length && str[..i] == old(str[..start]) + Low(num, radix, f.small)
  {
    hide Low, Digit;
    assert start + 32 <= str.Length;
    LowLength(num, radix, f.small);
    LowStep(num, radix, f.small);
    ghost var low, head := Low(num, radix, f.small), str[..start];
    var unum: nat := num;
    i := start;
    str[i] := Digit(unum % radix, f.small);
    unum := unum / radix;
    i := i + 1;
    assert str[..i] == head + [Digit(num % radix, f.small)];
    while unum != 0
      invariant start < i <= str.Length && |head| == start
      invariant head + low == str[..i] + if unum == 0 then "" else Low(unum, radix, f.small)
      decreases unum
    {
      LowStep(unum, radix, f.small);
      ghost var s, c := str[..i], Digit(unum % radix, f.small);
      Reassociate(s, c, if unum / radix == 0 then "" else Low(unum / radix, radix, f.small));
      str[i] := Digit(unum % radix, f.small);
      unum := unum / radix;
      i := i + 1;
      assert str[..i] == s + [c];
    }
  }

  lemma Reassociate(s: string, c: char, t: string)
    ensures s + ([c] + t) == s + [c] + t && |s + ([c] + t)| == |s| + 1 + |t|
  {
  }

  lemma DivFacts(n: nat, radix: nat)
    requires radix >= 2
    ensures 0 <= n / radix && (n < radix <==> n / radix == 0) && (n / radix < n || n == 0)
  {
    QuotientRange(n, radix, n / radix, n % radix);
  }

  lemma QuotientRange(n: nat, radix: nat, q: int, r: int)
    requires radix >= 2 && n == radix * q + r && 0 <= r < radix
    ensures 0 <= q && (n < radix <==> q == 0) && (q < n || n == 0)
  {
    ProductSign(radix, q + 1);
    ProductSign(radix, q - 1);
    ProductSign(radix - 2, q);
    assert radix * (q + 1) == radix * q + radix && radix * (q - 1) == radix * q - radix;
    assert (radix - 2) * q == radix * q - 2 * q;
  }

  lemma ProductSign(a: nat, b: int)
    ensures (b >= 0 ==> a * b >= 0) && (b <= 0 ==> a * b <= 0)
  {
  }

  lemma LowStep(n: nat, radix: nat, small: bool)
    requires 2 <= radix <= 36
    ensures 0 <= n / radix && (n / radix < n || n == 0)
    ensures Low(n, radix, small) == [Digit(n % radix, small)] + if n / radix == 0 then "" else Low(n / radix, radix, small)
  {
    DivFacts(n, radix);
  }

  /** The padding that is turned round with the digits. */
  function Pad(width: int, f: Flags): string {
    if f.left then "" else Fill(if f.zeropad then '0' else ' ', width)
  }

  /** Sign, prefix, digits the wrong way round, padding. */
  method PutBody(str: array<char>, num: int, radix: nat, width: int, f: Flags) returns (k: nat, i: nat)
    requires -0x8000_0000 <= num < 0x8000_0000 && 2 <= radix <= 36
    requires str.Length >= 35 && width <= str.Length
    modifies str
    ensures k < i <= str.Length && str[..k] == Sign(num, f) + Prefix(radix, f)
    ensures var low := Low(Magnitude(num, f), radix, f.small);
            str[k..i] == low + Pad(width - k - |low|, f) && str[..i] == str[..k] + (low + Pad(width - k - |low|, f))
  {
    hide Low, Digit, Sign, Prefix, Magnitude;
    var unum;
    k, unum := PutHead(str, num, radix, f);
    ghost var head, low := str[..k], Low(unum, radix, f.small);
    i := PutDigits(str, k, unum, radix, f);
    assert str[..k] == head && str[k..i] == low;
    if !f.left {
      i := PadTo(str, i, width, if f.zeropad then '0' else ' ');
      assert str[..k] == str[..i][..k] && str[k..i] == str[..i][k..];
    }
  }

  /** Where the digits begin, as itoa works it out from the text. */
  method BodyStart(str: array<char>, radix: nat, f: Flags) returns (k: nat)
    requires str.Length > 0
    ensures k == (if str[0] == '-' || str[0] == '+' then 1 else 0)
                 + (if f.special then if radix == 8 then 1 else if radix == 16 then 2 else 0 else 0)
  {
    k := if str[0] == '-' || str[0] == '+' then 1 else 0;
    k := k + if f.special then if radix == 8 then 1 else if radix == 16 then 2 else 0 else 0;
  }

  /** itoa, with the end of what it wrote. */
  method Itoa(num: int, str: array<char>, radix: nat, width: int, f: Flags) returns (i: nat)
    requires -0x8000_0000 <= num < 0x8000_0000 && 2 <= radix <= 36
    requires str.Length >= 35 && width <= str.Length
    modifies str
    ensures i <= str.Length && str[..i] == Text(num, radix, width, f)
  {
    hide Low, Digit, Digits, Text, Reversed, Sign, Prefix, Magnitude, Natural, Pad;
    var start, k;
    start, i := PutBody(str, num, radix, width, f);
    ghost var low, s := Low(Magnitude(num, f), radix, f.small), str[..i];
    HeadLength(num, radix, f, Pad(width - start - |low|, f), s);
    k := BodyStart(str, radix, f);
    ReverseRange(str, k, i);
    TurnedRound(num, radix, width, f, low + Pad(width - start - |low|, f), str[..i]);
    i := PadTo(str, i, width, ' ');
  }

  /** A text begins with a sign character exactly if it has a sign. */
  lemma HeadLength(num: int, radix: nat, f: Flags, pad: string, s: string)
    requires 2 <= radix <= 36
    requires s == Sign(num, f) + Prefix(radix, f) + (Low(Magnitude(num, f), radix, f.small) + pad)
    ensures |s| > 0
    ensures |Sign(num, f) + Prefix(radix, f)| ==
            (if s[0] == '-' || s[0] == '+' then 1 else 0)
            + (if f.special then if radix == 8 then 1 else if radix == 16 then 2 else 0 else 0)
  {
    hide Low, Magnitude;
    var low := Low(Magnitude(num, f), radix, f.small);
    NoSignDigit(Magnitude(num, f), radix, f.small);
    assert s[0] == if Sign(num, f) != "" then Sign(num, f)[0] else if Prefix(radix, f) != "" then Prefix(radix, f)[0] else low[0];
  }

  lemma NoSignDigit(n: nat, radix: nat, small: bool)
    requires 2 <= radix <= 36
    ensures Low(n, radix, small)[0] != '-' && Low(n, radix, small)[0] != '+'
  {
  }

  lemma TurnedRound(num: int, radix: nat, width: int, f: Flags, body: string, s: string)
    requires 2 <= radix <= 36
    requires var low, head := Low(Magnitude(num, f), radix, f.small), Sign(num, f) + Prefix(radix, f);
             body == low + Pad(width - |head| - |low|, f) && s == head + Reversed(body)
    ensures s + Fill(' ', width - |s|) == Text(num, radix, width, f)
  {
    hide Low, Digit, Digits, Reversed, Sign, Prefix, Magnitude, Pad, Text, Natural;
    var low, head := Low(Magnitude(num, f), radix, f.small), Sign(num, f) + Prefix(radix, f);
    var pad := Pad(width - |head| - |low|, f);
    LowReversed(Magnitude(num, f), radix, f.small);
    ReversedConcat(low, pad);
    PadReversed(width - |head| - |low|, f);
    var digits := Digits(Magnitude(num, f), radix, f.small);
    assert s == head + pad + digits;
    TextParts(num, radix, width, f, |head|);
  }

  lemma PadReversed(n: int, f: Flags)
    ensures Reversed(Pad(n, f)) == Pad(n, f)
  {
    FillReversed(if f.zeropad then '0' else ' ', n);
    ReversedNone();
  }

  /** The text is head, padding, digits, and blanks up to the width. */
  lemma TextParts(num: int, radix: nat, width: int, f: Flags, n: nat)
    requires 2 <= radix <= 36 && n == |Sign(num, f) + Prefix(radix, f)|
    ensures var digits := Digits(Magnitude(num, f), radix, f.small);
            var s := Sign(num, f) + Prefix(radix, f) + Pad(width - n - |digits|, f) + digits;
            Text(num, radix, width, f) == s + Fill(' ', width - |s|)
  {
    hide Digits, Sign, Prefix, Magnitude;
  }

  lemma ReversedNone()
    ensures Reversed("") == ""
  {
  }

  lemma FillReversed(c: char, n: int)
    ensures Reversed(Fill(c, n)) == Fill(c, n)
  {
    ReversedAt(Fill(c, n));
  }

  // ------------------------------------------------------------------- reading

  predicate IsDigit(c: char) { '0' <= c <= '9' }

  /** The accumulation loop of atoi, in 32-bit signed arithmetic that wraps. */
  function Accumulate(s: string, res: int): int {
    if s == "" || !IsDigit(s[0]) then res
    else Accumulate(s[1..], Signed(res * 10 + (s[0] as int - '0' as int)))
  }

  predicate Signs(s: string) { s != "" && (s[0] == '+' || s[0] == '-') }

  function Value(s: string): int {
    var v := Accumulate(if Signs(s) then s[1..] else s, 0);
    if s != "" && s[0] == '-' then Signed(-v) else v
  }

  predicate AllDigits(s: string) { forall i :: 0 <= i < |s| ==> IsDigit(s[i]) }

  /** How many digits a string begins with. */
  function Leading(s: string): (n: nat)
    ensures n <= |s| && AllDigits(s[..n]) && (n < |s| ==> !IsDigit(s[n]))
  {
    if s == "" || !IsDigit(s[0]) then 0 else 1 + Leading(s[1..])
  }

  /** The number at the front of a string. */
  function FrontNumber(s: string): int { NumberIn(s[..Leading(s)], 10) }

  lemma {:induction false} AccumulateFront(s: string, x: nat)
    ensures Accumulate(s, Signed(x)) == Signed(x * Power(10, Leading(s)) + FrontNumber(s))
  {
    hide Signed;
    if s != "" && IsDigit(s[0]) {
      var d, n := s[0] as int - '0' as int, Leading(s[1..]);
      SignedShift(x, d);
      AccumulateFront(s[1..], x * 10 + d);
      assert s[..n + 1][1..] == s[1..][..n] && DigitOf(s[0]) == d;
      Distributed(x, d, Power(10, n));
    }
  }

  lemma Distributed(x: nat, d: nat, p: nat)
    ensures (x * 10 + d) * p == x * (10 * p) + d * p
  {
  }

  lemma ValueIs(s: string)
    ensures Value(s) == if s != "" && s[0] == '-' then Signed(-FrontNumber(s[1..])) else Signed(FrontNumber(if Signs(s) then s[1..] else s))
  {
    hide Signed, FrontNumber;
    var body := if Signs(s) then s[1..] else s;
    SignedSelf(0);
    AccumulateFront(body, 0);
    SignedNegated(FrontNumber(body));
  }

  /** atoi of a string, which ends at its terminator: the number its leading digits stand
      for, as a signed word, and negated after a minus. */
  method Atoi(p: string) returns (r: int)
    ensures r == Value(p)
    ensures r == if p != "" && p[0] == '-' then Signed(-FrontNumber(p[1..])) else Signed(FrontNumber(if Signs(p) then p[1..] else p))
  {
    ValueIs(p);
    var neg, i := false, 0;
    if |p| > 0 && (p[0] == '+' || p[0] == '-') {
      neg := p[0] != '+';
      i := 1;
    }
    var res := 0;
    ghost var start := i;
    while i < |p| && '0' <= p[i] <= '9'
      invariant start <= i <= |p| && Accumulate(p[start..], 0) == Accumulate(p[i..], res)
    {
      res := Signed(res * 10 + (p[i] as int - '0' as int));
      i := i + 1;
    }
    assert p[0..] == p;
    r := if neg then Signed(-res) else res;
  }

  lemma SignedShift(x: int, d: int)
    ensures Signed(Signed(x) * 10 + d) == Signed(x * 10 + d)
  {
    var k := SignedOff(x);
    SignedPeriod(x * 10 + d, 10 * k);
  }

  /** Reading a word as a signed number changes it by whole words. */
  lemma SignedOff(x: int) returns (k: int)
    ensures Signed(x) == x + WORD * k
  {
    k := if x % WORD >= 0x8000_0000 then -(x / WORD) - 1 else -(x / WORD);
  }

  lemma SignedPeriod(x: int, k: int)
    ensures Signed(x + WORD * k) == Signed(x)
  {
    Period(x, k);
  }

  lemma Period(x: int, k: int)
    ensures (x + WORD * k) % WORD == x % WORD
  {
    var q := x / WORD + k;
    assert x + WORD * k == WORD * q + x % WORD;
  }

  lemma SignedNegated(x: int)
    ensures Signed(-Signed(x)) == Signed(-x)
  {
    var k := SignedOff(x);
    SignedPeriod(-x, -k);
  }

  lemma DigitChar(d: nat, small: bool)
    requires d < 10
    ensures IsDigit(Digit(d, small)) && Digit(d, small) as int == d + '0' as int
  {
  }

  /** Reading digits gives back the number they print, in one word. */
  lemma {:induction false} DigitsRead(n: nat, small: bool, rest: string)
    ensures Accumulate(Digits(n, 10, small) + rest, 0) == Accumulate(rest, Signed(n))
  {
    hide Digit, Signed;
    var c, tens := Digit(n % 10, small), if n < 10 then "" else Digits(n / 10, 10, small);
    assert Digits(n, 10, small) + rest == tens + ([c] + rest);
    if n >= 10 {
      DigitsRead(n / 10, small, [c] + rest);
      DigitRead(n / 10, n, small, rest);
    } else {
      SignedSelf(0);
      DigitRead(0, n, small, rest);
      assert tens + ([c] + rest) == [c] + rest;
    }
  }

  /** One digit more. */
  lemma DigitRead(tens: nat, n: nat, small: bool, rest: string)
    requires tens == n / 10
    ensures Accumulate([Digit(n % 10, small)] + rest, Signed(tens)) == Accumulate(rest, Signed(n))
  {
    hide Digit, Signed;
    DigitChar(n % 10, small);
    SignedShift(tens, n % 10);
    assert ([Digit(n % 10, small)] + rest)[1..] == rest;
  }

  lemma {:induction false} ZerosRead(k: nat, s: string)
    ensures Accumulate(Fill('0', k) + s, 0) == Accumulate(s, 0)
    decreases k
  {
    if k == 0 {
      assert Fill('0', 0) + s == s;
    } else {
      assert (Fill('0', k) + s)[1..] == Fill('0', k - 1) + s;
      ZerosRead(k - 1, s);
    }
  }

  lemma DigitsFirst(n: nat, small: bool)
    ensures IsDigit(Digits(n, 10, small)[0])
  {
    if n >= 10 { DigitsFirst(n / 10, small); } else { DigitChar(n, small); }
  }

  /** Blanks in front of the digits. */
  predicate Blanks(num: int, width: int, f: Flags) {
    !f.left && !f.zeropad && width > |Natural(num, 10, f)|
  }

  function Front(num: int, width: int, f: Flags): string {
    if f.left then "" else Fill(if f.zeropad then '0' else ' ', width - |Natural(num, 10, f)|)
  }

  function Back(num: int, width: int, f: Flags): string {
    if f.left then Fill(' ', width - |Natural(num, 10, f)|) else ""
  }

  /** A text in radix 10 behind its sign. */
  function Body(num: int, width: int, f: Flags): string {
    Front(num, width, f) + (Digits(Magnitude(num, f), 10, f.small) + Back(num, width, f))
  }

  lemma TextBody(num: int, width: int, f: Flags)
    ensures Text(num, 10, width, f) == Sign(num, f) + Body(num, width, f)
  {
    hide Digits, Sign, Magnitude, Natural;
    assert Prefix(10, f) == "";
  }

  /** What is behind the sign reads as the magnitude, unless blanks come first. */
  lemma BodyRead(num: int, width: int, f: Flags)
    ensures Accumulate(Body(num, width, f), 0) == if Blanks(num, width, f) then 0 else Signed(Magnitude(num, f))
    ensures Body(num, width, f) != "" && !Signs(Body(num, width, f))
  {
    hide Digits, Magnitude, Natural;
    var pad, m := width - |Natural(num, 10, f)|, Magnitude(num, f);
    var digits, back, body := Digits(m, 10, f.small), Back(num, width, f), Body(num, width, f);
    DigitsRead(m, f.small, back);
    DigitsFirst(m, f.small);
    assert Accumulate(back, Signed(m)) == Signed(m);
    if f.left || pad <= 0 {
      assert body == digits + back;
      assert body[0] == digits[0];
    } else if f.zeropad {
      ZerosRead(pad, digits + back);
      assert body[0] == '0';
    } else {
      assert body[0] == ' ';
    }
  }

  /** atoi reads back what itoa printed in radix 10, for every 32-bit number, signed or
      not, justified left, padded with zeros or not at all. Blanks in front it takes for
      the end of the number; then, and only then, is the number lost, unless it is 0. */
  lemma AtoiOfItoa(num: int, width: int, f: Flags)
    requires -0x8000_0000 <= num < 0x8000_0000
    ensures Value(Text(num, 10, width, f)) == num <==> !Blanks(num, width, f) || num == 0
  {
    hide Text, Body, Natural, Blanks, Accumulate, Value, Signed, Signs;
    TextBody(num, width, f);
    BodyRead(num, width, f);
    ValueParts(Sign(num, f), Body(num, width, f));
    SignedNegated(-num);
    SignedSelf(num);
  }

  /** So a 7 printed to a width of 5, with blanks in front, is not read back. */
  lemma BlanksLose(f: Flags)
    requires !f.left && !f.zeropad
    ensures Value(Text(7, 10, 5, f)) != 7
  {
    hide Text, Value;
    assert Digits(7, 10, f.small) == [Digit(7, f.small)];
    AtoiOfItoa(7, 5, f);
  }

  lemma ValueParts(s: string, body: string)
    requires s == "" || s == "+" || s == "-"
    requires body != "" && !Signs(body)
    ensures Value(s + body) == if s == "-" then Signed(-Accumulate(body, 0)) else Accumulate(body, 0)
  {
    hide Accumulate;
    if s == "" {
      assert s + body == body;
    } else {
      assert (s + body)[1..] == body;
    }
  }

  lemma SignedSelf(num: int)
    requires -0x8000_0000 <= num < 0x8000_0000
    ensures Signed(num) == num && Signed(num % WORD) == num && Signed(0) == 0
  {
  }
}
