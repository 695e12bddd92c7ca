/** Decimal numerals as ASCII bytes. */
module Numerals {

  import opened Basics

  predicate IsDigit(b: Byte) {
    0x30 <= b <= 0x39
  }

  function DigitOf(b: Byte): (d: nat)
    requires IsDigit(b)
    ensures d < 10
  {
    b - 0x30
  }

  function Digit(n: nat): (b: Byte)
    requires n < 10
    ensures IsDigit(b) && DigitOf(b) == n
  {
    (0x30 + n) as Byte
  }

  /** The decimal form of a number. */
  function Decimal(n: nat): (s: seq<Byte>)
    ensures s != [] && IsDigit(s[0]) && (s[0] == 0x30 ==> n == 0 && |s| == 1)
  {
    if n < 10 then [Digit(n)] else Decimal(n / 10) + [Digit(n % 10)]
  }

  const UINT64_MAX := 0xffff_ffff_ffff_ffff

}
