/** Base-16 numerals.  `ten` is the digit for ten: 'a' in lowercase numerals,
    'A' in uppercase ones. */
module Hex {

  predicate IsDigit(c: char, ten: char) {
    '0' <= c <= '9' || ten as int <= c as int <= ten as int + 5
  }

  /** What a digit stands for.  ('9' is below 'A' and 'a', so the two ranges
      never overlap.) */
  function DigitValue(c: char, ten: char): int {
    if '0' <= c <= '9' then c as int - '0' as int else c as int - ten as int + 10
  }

  predicate IsNumeral(s: string, ten: char) {
    forall i | 0 <= i < |s| :: IsDigit(s[i], ten)
  }

  /** The number that a numeral stands for, most significant digit first. */
  function Value(s: string, ten: char): int {
    if s == "" then 0 else Value(s[..|s| - 1], ten) * 16 + DigitValue(s[|s| - 1], ten)
  }

  function Pow16(n: nat): (r: nat)
    ensures r > 0
  {
    if n == 0 then 1 else 16 * Pow16(n - 1)
  }

  lemma {:induction false} ValueBound(s: string, ten: char)
    requires IsNumeral(s, ten)
    ensures 0 <= Value(s, ten) < Pow16(|s|)
  {
    if s != "" {
      ValueBound(s[..|s| - 1], ten);
    }
  }

  lemma {:induction false} Pow16Monotonic(m: nat, n: nat)
    requires m <= n
    ensures Pow16(m) <= Pow16(n)
  {
    if m < n {
      Pow16Monotonic(m, n - 1);
    }
  }

  lemma Pow16Word()
    ensures Pow16(8) == 0x1_0000_0000
    ensures Pow16(16) == 0x1_0000_0000_0000_0000
  {
    assert Pow16(4) == 0x1_0000;
    assert Pow16(8) == 0x1_0000_0000;
    assert Pow16(12) == 0x1_0000_0000_0000;
  }

  function Digit(v: int, ten: char): (c: char)
    requires 0 <= v < 16 && (ten == 'a' || ten == 'A')
    ensures IsDigit(c, ten) && DigitValue(c, ten) == v
  {
    if v < 10 then '0' + v as char else ten + (v - 10) as char
  }

  /** The numeral of `v` in `width` digits. */
  function Numeral(v: int, width: nat, ten: char): (s: string)
    requires v >= 0 && (ten == 'a' || ten == 'A')
    ensures |s| == width && IsNumeral(s, ten)
  {
    if width == 0 then "" else Numeral(v / 16, width - 1, ten) + [Digit(v % 16, ten)]
  }

  /** Numerals of enough digits read back as the number they were made from. */
  lemma {:induction false} NumeralValue(v: int, width: nat, ten: char)
    requires 0 <= v < Pow16(width) && (ten == 'a' || ten == 'A')
    ensures Value(Numeral(v, width, ten), ten) == v
  {
    if width > 0 {
      NumeralValue(v / 16, width - 1, ten);
      var s := Numeral(v, width, ten);
      assert s[..|s| - 1] == Numeral(v / 16, width - 1, ten);
    }
  }

  lemma ValueLast(s: string, c: char, ten: char)
    ensures Value(s + [c], ten) == Value(s, ten) * 16 + DigitValue(c, ten)
  {
    assert (s + [c])[..|s|] == s;
  }

  /** The digits in front count for more. */
  lemma {:induction false} ValueAppend(a: string, b: string, ten: char)
    ensures Value(a + b, ten) == Value(a, ten) * Pow16(|b|) + Value(b, ten)
    decreases |b|
  {
    if b == "" {
      assert a + b == a;
    } else {
      var init, last := b[..|b| - 1], b[|b| - 1];
      ValueAppend(a, init, ten);
      assert a + b == (a + init) + [last];
      ValueLast(a + init, last, ten);
      Shift(Value(a, ten), Pow16(|init|), Value(init, ten));
    }
  }

  lemma Shift(v: int, p: int, w: int)
    ensures (v * p + w) * 16 == v * (16 * p) + w * 16
  {
  }

  predicate AllZero(s: string) {
    forall i | 0 <= i < |s| :: s[i] == '0'
  }

  lemma {:induction false} ZeroIff(s: string, ten: char)
    requires IsNumeral(s, ten) && (ten == 'a' || ten == 'A')
    ensures Value(s, ten) == 0 <==> AllZero(s)
    decreases |s|
  {
    if s != "" {
      var init := s[..|s| - 1];
      ZeroIff(init, ten);
      ValueBound(init, ten);
      assert IsDigit(s[|s| - 1], ten);
      assert AllZero(s) <==> AllZero(init) && s[|s| - 1] == '0';
    }
  }

  /** Only zeros can be left out in front of a numeral. */
  lemma LeadingZeros(a: string, b: string, ten: char)
    requires IsNumeral(a, ten) && (ten == 'a' || ten == 'A')
    ensures Value(a + b, ten) == Value(b, ten) <==> AllZero(a)
  {
    ValueAppend(a, b, ten);
    ValueBound(a, ten);
    ZeroIff(a, ten);
    PositiveProduct(Value(a, ten), Pow16(|b|));
  }

  lemma PositiveProduct(v: int, p: int)
    requires v >= 0 && p > 0
    ensures v * p == 0 <==> v == 0
  {
  }

  lemma FourDigits(s: string, ten: char)
    requires |s| == 4
    ensures Value(s, ten) == 0x1000 * DigitValue(s[0], ten) + 0x100 * DigitValue(s[1], ten)
                             + 0x10 * DigitValue(s[2], ten) + DigitValue(s[3], ten)
  {
    assert s[..3][..2] == s[..2] && s[..2][..1] == s[..1] && s[..1][..0] == "";
    assert Value(s[..1], ten) == DigitValue(s[0], ten);
    assert Value(s[..2], ten) == 0x10 * DigitValue(s[0], ten) + DigitValue(s[1], ten);
  }

  /** Numbers as they are printed in upper case. */
  lemma SampleNumerals()
    ensures Numeral(0x1F4, 8, 'A') == "000001F4" && Numeral(0xA0B, 8, 'A') == "00000A0B"
  {
    assert Numeral(0, 3, 'A') == "000";
    assert Numeral(0, 5, 'A') == "00000";
    assert Numeral(0x1, 6, 'A') == "000001" && Numeral(0xA, 6, 'A') == "00000A";
    assert Numeral(0x1F, 7, 'A') == "000001F" && Numeral(0xA0, 7, 'A') == "00000A0";
  }
}
