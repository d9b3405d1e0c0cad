/**
  Decimal text: `String(n, DEC)` and `String.toInt()` of the Arduino core.
*/
module Decimal {
  import opened Bytes

  const TWO31 := 0x8000_0000
  const TWO32 := 0x1_0000_0000

  /** The 32-bit two's complement value of an unbounded result. */
  function Wrap32(n: int): (r: int)
    ensures -TWO31 <= r < TWO31
    ensures -TWO31 <= n < TWO31 ==> r == n
  {
    (n + TWO31) % TWO32 - TWO31
  }

  /** C division: truncates toward zero. */
  function TruncDiv(n: int, d: nat): int
    requires d > 0
  {
    if n >= 0 then n / d else -(-n / d)
  }

  /** The 4-bit pattern of a decimal digit. */
  function Bits(d: nat): (b: Byte)
    requires d < 10
    ensures b < 10
  {
    d as Byte
  }

  function Digit(d: nat): (b: Byte)
    requires d < 10
    ensures IsDigit(b) && b == 0x30 ^ Bits(d)
  {
    0x30 + Bits(d)
  }

  predicate IsDigit(b: Byte) {
    0x30 <= b <= 0x39
  }

  function DigitValue(b: Byte): (d: nat)
    requires IsDigit(b)
    ensures d < 10 && Digit(d) == b
  {
    (b - 0x30) as int
  }

  predicate IsSpace(b: Byte) {
    b == 0x20 || 0x09 <= b <= 0x0D
  }

  /** `String(n, DEC)` of a non-negative number. */
  function Print(n: nat): (s: Str)
    ensures s != [] && forall i :: 0 <= i < |s| ==> IsDigit(s[i])
  {
    if n < 10 then [Digit(n)] else Print(n / 10) + [Digit(n % 10)]
  }

  /** Reads on from `acc` through the leading digits of `s`. */
  function Accumulate(acc: int, s: Str): int
    decreases |s|
  {
    if s == [] || !IsDigit(s[0]) then acc else Accumulate(acc * 10 + DigitValue(s[0]), s[1..])
  }

  function SkipSpaces(s: Str): Str {
    if s != [] && IsSpace(s[0]) then SkipSpaces(s[1..]) else s
  }

  /** `String.toInt()`: blanks, an optional sign, then the longest run of digits; 32-bit result. */
  function ToInt(s: Str): int {
    var t := SkipSpaces(s);
    if t != [] && t[0] == 0x2D then Wrap32(-Accumulate(0, t[1..]))
    else if t != [] && t[0] == 0x2B then Wrap32(Accumulate(0, t[1..]))
    else Wrap32(Accumulate(0, t))
  }

  lemma AccumulateDigit(acc: int, d: nat, t: Str)
    requires d < 10
    ensures Accumulate(acc, [Digit(d)] + t) == Accumulate(acc * 10 + d, t)
  {
  }

  lemma {:induction false} AccumulatePrint(n: nat, t: Str)
    ensures Accumulate(0, Print(n) + t) == Accumulate(n, t)
  {
    if n < 10 {
      AccumulateDigit(0, n, t);
    } else {
      var d := n % 10;
      AccumulatePrint(n / 10, [Digit(d)] + t);
      assert Print(n) + t == Print(n / 10) + ([Digit(d)] + t);
      AccumulateDigit(n / 10, d, t);
    }
  }

  /** Text that begins with a printed number reads back from that number on. */
  lemma ToIntPrint(n: nat, t: Str)
    ensures ToInt(Print(n) + t) == Wrap32(Accumulate(n, t))
  {
    assert IsDigit((Print(n) + t)[0]);
    AccumulatePrint(n, t);
  }

  lemma {:induction false} BlanksAreSkipped(blanks: Str, t: Str)
    requires forall i :: 0 <= i < |blanks| ==> blanks[i] == 0x20 || 0x09 <= blanks[i] <= 0x0D
    ensures ToInt(blanks + t) == ToInt(t)
  {
    if blanks == [] {
      assert blanks + t == t;
    } else {
      BlanksAreSkipped(blanks[1..], t);
      assert (blanks + t)[1..] == blanks[1..] + t;
    }
  }

  /** Blanks before a number and text after it do not matter, and a sign counts. */
  lemma ToIntSigned(blanks: Str, n: nat, t: Str)
    requires forall i :: 0 <= i < |blanks| ==> blanks[i] == 0x20 || 0x09 <= blanks[i] <= 0x0D
    requires n < TWO31 && (t == [] || !IsDigit(t[0]))
    ensures ToInt(blanks + (Print(n) + t)) == n
    ensures ToInt(blanks + ([0x2B] + (Print(n) + t))) == n
    ensures ToInt(blanks + ([0x2D] + (Print(n) + t))) == 0 - n
  {
    BlanksAreSkipped(blanks, Print(n) + t);
    BlanksAreSkipped(blanks, [0x2B] + (Print(n) + t));
    BlanksAreSkipped(blanks, [0x2D] + (Print(n) + t));
    ToIntPrint(n, t);
    AccumulatePrint(n, t);
    assert ([0x2B] + (Print(n) + t))[1..] == Print(n) + t;
    assert ([0x2D] + (Print(n) + t))[1..] == Print(n) + t;
  }

  /** Text without a number is 0. */
  lemma ToIntOfNothing(t: Str)
    requires t == [] || !(0x30 <= t[0] <= 0x39 || t[0] == 0x2B || t[0] == 0x2D || t[0] == 0x20 || 0x09 <= t[0] <= 0x0D)
    ensures ToInt(t) == 0
  {
  }

  /** How many digits a number below 100000 prints as. */
  lemma PrintLength(n: nat)
    requires n <= 99999
    ensures |Print(n)| == if n < 10 then 1 else if n < 100 then 2 else if n < 1000 then 3 else if n < 10000 then 4 else 5
  {
  }

  /** The XOR of the decimal digits of `n`. */
  function DigitXor(n: nat): (x: Byte)
    ensures x < 16
  {
    if n < 10 then Bits(n) else DigitXor(n / 10) ^ Bits(n % 10)
  }

  /** The text checksum is the digit XOR, plus the code of '0' for an odd number of digits. */
  lemma {:induction false} XorPrint(n: nat)
    ensures Xor(Print(n)) == DigitXor(n) ^ (if |Print(n)| % 2 == 1 then 0x30 else 0)
  {
    if n < 10 {
      XorPush([], Digit(n));
      assert [] + [Digit(n)] == Print(n);
    } else {
      XorPrint(n / 10);
      XorPush(Print(n / 10), Digit(n % 10));
    }
  }

  // ---- The range of a short text

  function TenToThe(n: nat): nat {
    if n == 0 then 1 else 10 * TenToThe(n - 1)
  }

  lemma {:induction false} AccumulateBound(acc: nat, s: Str, bound: nat)
    requires acc < bound
    ensures 0 <= Accumulate(acc, s) < bound * TenToThe(|s|)
    decreases |s|
  {
    var power := TenToThe(|s|);
    assert power >= 1 by { PowerPositive(|s|); }
    assert bound * power >= bound * 1;
    if s != [] && IsDigit(s[0]) {
      AccumulateBound(acc * 10 + DigitValue(s[0]), s[1..], bound * 10);
      assert (bound * 10) * TenToThe(|s| - 1) == bound * power;
    }
  }

  lemma {:induction false} PowerPositive(n: nat)
    ensures TenToThe(n) >= 1
  {
    if n > 0 {
      PowerPositive(n - 1);
    }
  }

  lemma {:induction false} PowerMonotone(a: nat, b: nat)
    requires a <= b
    ensures TenToThe(a) <= TenToThe(b)
  {
    if a < b {
      PowerMonotone(a, b - 1);
    }
  }

  lemma {:induction false} SkipSpacesShortens(s: Str)
    ensures |SkipSpaces(s)| <= |s|
  {
    if s != [] && IsSpace(s[0]) {
      SkipSpacesShortens(s[1..]);
    }
  }

  lemma SixBytesRange(s: Str)
    requires |s| <= 6
    ensures -1000000 < ToInt(s) < 1000000
  {
    SkipSpacesShortens(s);
    var t := SkipSpaces(s);
    PowerMonotone(|t|, 6);
    AccumulateBound(0, t, 1);
    if t != [] {
      PowerMonotone(|t[1..]|, 6);
      AccumulateBound(0, t[1..], 1);
    }
    assert TenToThe(6) == 1000000;
  }
}
