/** Decimal text: printing and reading natural numbers, and cutting digits off. */
module Decimal {
  import opened Prelude
  import opened Arithmetic

  predicate IsDigit(c: char) {
    '0' <= c <= '9'
  }

  predicate AllDigits(s: string) {
    forall i :: 0 <= i < |s| ==> IsDigit(s[i])
  }

  function DigitValue(c: char): (d: nat)
    requires IsDigit(c)
    ensures d < 10
  {
    c as int - '0' as int
  }

  function DigitChar(d: nat): (c: char)
    requires d < 10
    ensures IsDigit(c) && DigitValue(c) == d
  {
    (d + '0' as int) as char
  }

  function Pow10(n: nat): (p: nat)
    ensures p >= 1
  {
    if n == 0 then 1 else 10 * Pow10(n - 1)
  }

  /** The number a digit string stands for; the empty string stands for 0. */
  function ValueOf(s: string): nat
    requires AllDigits(s)
  {
    if s == [] then 0 else 10 * ValueOf(s[..|s| - 1]) + DigitValue(s[|s| - 1])
  }

  /** The decimal text of a number, without leading zeros. */
  function DigitsOf(n: nat): (s: string)
    ensures s != [] && AllDigits(s)
  {
    if n < 10 then [DigitChar(n)] else DigitsOf(n / 10) + [DigitChar(n % 10)]
  }

  lemma {:induction false} ReadsBack(n: nat)
    ensures ValueOf(DigitsOf(n)) == n
    ensures n > 0 ==> DigitsOf(n)[0] != '0'
    ensures n == 0 ==> DigitsOf(n) == "0"
  {
    if n >= 10 {
      ReadsBack(n / 10);
      assert DigitsOf(n)[..|DigitsOf(n)| - 1] == DigitsOf(n / 10);
    } else {
      assert [DigitChar(n)][..0] == [];
      assert ValueOf([]) == 0;
    }
  }

  lemma {:induction false} Pow10Add(a: nat, b: nat)
    ensures Pow10(a + b) == Pow10(a) * Pow10(b)
  {
    if a > 0 {
      Pow10Add(a - 1, b);
      assert Pow10(a + b) == 10 * (Pow10(a - 1) * Pow10(b)) == Pow10(a) * Pow10(b);
    }
  }

  lemma {:induction false} ValueOfConcat(a: string, b: string)
    requires AllDigits(a) && AllDigits(b)
    ensures AllDigits(a + b) && ValueOf(a + b) == ValueOf(a) * Pow10(|b|) + ValueOf(b)
  {
    if b == [] {
      assert a + b == a;
    } else {
      var n := |b| - 1;
      assert (a + b)[..|a + b| - 1] == a + b[..n];
      ValueOfConcat(a, b[..n]);
      ShiftDigit(ValueOf(a), Pow10(n), ValueOf(b[..n]), DigitValue(b[n]));
    }
  }

  lemma ShiftDigit(a: nat, p: nat, b: nat, d: nat)
    ensures 10 * (a * p + b) + d == a * (10 * p) + (10 * b + d)
  {
  }

  /** A digit string of length n stands for less than 10^n. */
  lemma {:induction false} ValueBelow(s: string)
    requires AllDigits(s)
    ensures ValueOf(s) < Pow10(|s|)
  {
    if s != [] {
      ValueBelow(s[..|s| - 1]);
    }
  }

  function Zeros(n: nat): (s: string)
    ensures |s| == n && AllDigits(s)
  {
    seq(n, i => '0')
  }

  lemma {:induction false} ZerosAreZero(n: nat)
    ensures ValueOf(Zeros(n)) == 0
  {
    if n > 0 {
      assert Zeros(n)[..n - 1] == Zeros(n - 1);
      ZerosAreZero(n - 1);
    }
  }

  /** `padStart(width, '0')`. */
  function PadStart(s: string, width: nat): string {
    if |s| >= width then s else Zeros(width - |s|) + s
  }

  lemma PadKeepsValue(s: string, width: nat)
    requires AllDigits(s)
    ensures AllDigits(PadStart(s, width)) && ValueOf(PadStart(s, width)) == ValueOf(s)
  {
    if |s| < width {
      ValueOfConcat(Zeros(width - |s|), s);
      ZerosAreZero(width - |s|);
    }
  }

  lemma {:induction false} DigitCount(n: nat, width: nat)
    requires n < Pow10(width) && width > 0
    ensures |DigitsOf(n)| <= width
  {
    if n >= 10 {
      assert width > 1;
      DigitCount(n / 10, width - 1);
    }
  }

  /** `replace(/0+$/, '')`. */
  function StripZeros(s: string): (r: string)
    ensures |r| <= |s|
  {
    if s != [] && s[|s| - 1] == '0' then StripZeros(s[..|s| - 1]) else s
  }

  lemma {:induction false} StripThenPad(s: string)
    requires AllDigits(s)
    ensures var r := StripZeros(s); AllDigits(r) && s == r + Zeros(|s| - |r|)
    ensures StripZeros(s) == [] <==> ValueOf(s) == 0
  {
    if s != [] && s[|s| - 1] == '0' {
      StripThenPad(s[..|s| - 1]);
      var r := StripZeros(s);
      assert Zeros(|s| - |r|) == Zeros(|s| - 1 - |r|) + ['0'];
      assert s == s[..|s| - 1] + ['0'];
    } else {
      assert Zeros(0) == [];
      assert s == s + Zeros(0);
    }
  }

  /** The first digits of a string stand for the quotient by the power of ten cut off. */
  lemma PrefixIsQuotient(s: string, n: nat)
    requires AllDigits(s) && n <= |s|
    ensures AllDigits(s[..n]) && ValueOf(s[..n]) == Quotient(ValueOf(s), Pow10(|s| - n))
  {
    assert s == s[..n] + s[n..];
    ValueOfConcat(s[..n], s[n..]);
    ValueBelow(s[n..]);
    QuotientIs(ValueOf(s), ValueOf(s[..n]), Pow10(|s| - n), ValueOf(s[n..]));
  }

  // ---- fixed-point text ----

  /** The whole part, and the first `places` of `width` fraction digits without the trailing
      zeros, of the number raw / 10^width. */
  function FixedText(whole: nat, rest: nat, width: nat, places: nat): string {
    var fraction := StripZeros(FractionDigits(rest, width, places));
    DigitsOf(whole) + if fraction == [] then [] else "." + fraction
  }

  function FractionDigits(rest: nat, width: nat, places: nat): string {
    var padded := PadStart(DigitsOf(rest), width);
    padded[..Min(|padded|, Min(places, width))]
  }

  /** The printed fraction digits stand for the rest, cut to the places printed. */
  lemma FractionDigitsValue(rest: nat, width: nat, places: nat)
    requires rest < Pow10(width)
    ensures var f := FractionDigits(rest, width, places); var p := Min(places, width);
            |f| == p && AllDigits(f) && ValueOf(f) == Quotient(rest, Pow10(width - p))
  {
    var p := Min(places, width);
    PadKeepsValue(DigitsOf(rest), width);
    ReadsBack(rest);
    if width > 0 {
      DigitCount(rest, width);
      PrefixIsQuotient(PadStart(DigitsOf(rest), width), p);
    } else {
      assert rest == 0;
      assert FractionDigits(rest, width, places) == [];
    }
  }
}
