/** The amount parser of the chat flow and the printer beside it. */
module Amount {
  import opened Prelude
  import opened Arithmetic
  import opened Decimal

  datatype AmountError = DECIMALS_INVALID | NOT_A_DECIMAL | TOO_MANY_PLACES | NOT_POSITIVE

  // ---- text ----

  /** White space and line terminators of ECMAScript. */
  predicate IsSpace(c: char) {
    c as int in {0x09, 0x0a, 0x0b, 0x0c, 0x0d, 0x20, 0xa0, 0x1680, 0x2028, 0x2029, 0x202f, 0x205f, 0x3000, 0xfeff}
    || 0x2000 <= c as int <= 0x200a
  }

  function TrimStart(s: string): string {
    if s != [] && IsSpace(s[0]) then TrimStart(s[1..]) else s
  }

  function TrimEnd(s: string): string {
    if s != [] && IsSpace(s[|s| - 1]) then TrimEnd(s[..|s| - 1]) else s
  }

  function Trim(s: string): string {
    TrimEnd(TrimStart(s))
  }

  lemma TrimKeepsSolid(s: string)
    requires s == [] || (!IsSpace(s[0]) && !IsSpace(s[|s| - 1]))
    ensures Trim(s) == s
  {
  }

  /** The text before the first `c`, and the text after it when there is one. */
  function SplitAt(s: string, c: char): (string, Option<string>) {
    if s == [] then ([], None)
    else if s[0] == c then ([], Some(s[1..]))
    else
      var (before, after) := SplitAt(s[1..], c);
      ([s[0]] + before, after)
  }

  lemma {:induction false} SplitFinds(a: string, c: char, b: string)
    requires c !in a
    ensures SplitAt(a, c) == (a, None)
    ensures SplitAt(a + [c] + b, c) == (a, Some(b))
  {
    if a == [] {
      assert a + [c] + b == [c] + b;
      assert ([c] + b)[1..] == b;
    } else {
      SplitFinds(a[1..], c, b);
      assert (a + [c] + b)[1..] == a[1..] + [c] + b;
      assert a == [a[0]] + a[1..];
    }
  }

  // ---- parsing ----

  /** Whole parts have no leading zero. */
  predicate IsWhole(s: string) {
    s != [] && AllDigits(s) && (s[0] == '0' ==> |s| == 1)
  }

  /** A number shifted left by k decimal digits: `v * 10n ** k`. */
  function Shifted(v: nat, k: nat): nat {
    if k == 0 then v else 10 * Shifted(v, k - 1)
  }

  lemma {:induction false} ShiftedIs(v: nat, k: nat)
    ensures Shifted(v, k) == v * Pow10(k)
  {
    if k > 0 {
      ShiftedIs(v, k - 1);
      TimesAssociates(v, 10, Pow10(k - 1));
    }
  }

  lemma {:induction false} ShiftedTwice(v: nat, a: nat, b: nat)
    ensures Shifted(Shifted(v, a), b) == Shifted(v, a + b)
  {
    if b > 0 {
      ShiftedTwice(v, a, b - 1);
    }
  }

  /** The fraction digits filled up with zeros to the token's decimals. */
  function FractionRaw(fraction: string, decimals: nat): nat
    requires AllDigits(fraction)
  {
    ValueOf((fraction + Zeros(decimals))[..decimals])
  }

  function ParseHumanAmount(input: string, decimals: int): Result<nat, AmountError> {
    if !(0 <= decimals <= 255) then Err(DECIMALS_INVALID)
    else
      var (whole, fraction) := SplitAt(Trim(input), '.');
      if !IsWhole(whole) || (fraction.Some? && (fraction.value == [] || !AllDigits(fraction.value))) then Err(NOT_A_DECIMAL)
      else
        var digits := if fraction.Some? then fraction.value else [];
        if |digits| > decimals then Err(TOO_MANY_PLACES)
        else
          Positive(Shifted(ValueOf(whole), decimals) + FractionRaw(digits, decimals))
  }

  // ---- printing ----

  function FormatHumanAmount(raw: int, decimals: nat, maxFraction: nat): string {
    (if raw < 0 then "-" else "")
    + FixedText(Quotient(Abs(raw), Pow10(decimals)), Remainder(Abs(raw), Pow10(decimals)), decimals, maxFraction)
  }

  // ---- the two undo each other ----

  lemma DigitsAreSolid(s: string)
    requires AllDigits(s)
    ensures '.' !in s && forall i :: 0 <= i < |s| ==> !IsSpace(s[i])
  {
  }

  /** Fraction digits filled up with zeros stand for the digits shifted left. */
  lemma FractionShifts(f: string, decimals: nat)
    requires AllDigits(f) && |f| <= decimals
    ensures FractionRaw(f, decimals) == Shifted(ValueOf(f), decimals - |f|)
  {
    assert (f + Zeros(decimals))[..decimals] == f + Zeros(decimals - |f|);
    ValueOfConcat(f, Zeros(decimals - |f|));
    ZerosAreZero(decimals - |f|);
    ShiftedIs(ValueOf(f), decimals - |f|);
  }

  /** Stripping the printed zeros and filling them up again gives the same fraction. */
  lemma StrippedFraction(f: string, decimals: nat)
    requires AllDigits(f) && |f| <= decimals
    ensures var r := StripZeros(f);
            AllDigits(r) && |r| <= decimals && FractionRaw(r, decimals) == Shifted(ValueOf(f), decimals - |f|)
  {
    var r := StripZeros(f);
    StripThenPad(f);
    FractionShifts(r, decimals);
    ValueOfConcat(r, Zeros(|f| - |r|));
    ZerosAreZero(|f| - |r|);
    ShiftedIs(ValueOf(r), |f| - |r|);
    ShiftedTwice(ValueOf(r), |f| - |r|, decimals - |f|);
  }

  lemma PlainPoint(w: string, r: string)
    requires AllDigits(w)
    ensures SplitAt(w + if r == [] then [] else "." + r, '.') == (w, if r == [] then None else Some(r))
  {
    DigitsAreSolid(w);
    SplitFinds(w, '.', r);
    if r == [] {
      assert w + [] == w;
    } else {
      assert w + ("." + r) == w + ['.'] + r;
    }
  }

  /** A text of digits with at most one point is parsed part by part. */
  lemma ParsePlain(w: string, r: string, decimals: nat)
    requires IsWhole(w) && AllDigits(r) && |r| <= decimals <= 255
    ensures ParseHumanAmount(w + if r == [] then [] else "." + r, decimals)
            == Positive(Shifted(ValueOf(w), decimals) + FractionRaw(r, decimals))
  {
    var text := w + if r == [] then [] else "." + r;
    DigitsAreSolid(w);
    DigitsAreSolid(r);
    TrimKeepsSolid(text);
    PlainPoint(w, r);
  }

  // ---- which texts are amounts ----

  predicate AllSpace(s: string) {
    forall i :: 0 <= i < |s| ==> IsSpace(s[i])
  }

  /** A text with white space around a core that neither starts nor ends with any. */
  lemma {:induction false} TrimRemoves(lead: string, core: string, trail: string)
    requires AllSpace(lead) && AllSpace(trail)
    requires core != [] && !IsSpace(core[0]) && !IsSpace(core[|core| - 1])
    ensures Trim(lead + core + trail) == core
  {
    if lead != [] {
      assert (lead + core + trail)[1..] == lead[1..] + core + trail;
      TrimRemoves(lead[1..], core, trail);
    } else if trail != [] {
      var n := |trail| - 1;
      assert lead + core + trail == core + trail;
      assert (core + trail)[..|core + trail| - 1] == core + trail[..n];
      TrimRemoves([], core, trail[..n]);
      assert [] + core + trail[..n] == core + trail[..n];
    } else {
      assert lead + core + trail == core;
    }
  }

  lemma {:induction false} TrimEndSplits(s: string) returns (trail: string)
    ensures AllSpace(trail) && s == TrimEnd(s) + trail
  {
    if s != [] && IsSpace(s[|s| - 1]) {
      var rest := TrimEndSplits(s[..|s| - 1]);
      trail := rest + [s[|s| - 1]];
    } else {
      trail := [];
    }
  }

  lemma {:induction false} TrimSplits(s: string) returns (lead: string, trail: string)
    ensures AllSpace(lead) && AllSpace(trail) && s == lead + Trim(s) + trail
  {
    if s != [] && IsSpace(s[0]) {
      var rest;
      rest, trail := TrimSplits(s[1..]);
      lead := [s[0]] + rest;
    } else {
      lead := [];
      trail := TrimEndSplits(s);
    }
  }

  /** The two halves of a text cut at its first `c` make it up again. */
  lemma {:induction false} SplitMakesUp(s: string, c: char)
    ensures var (a, b) := SplitAt(s, c); c !in a && s == if b.Some? then a + [c] + b.value else a
  {
    if s != [] && s[0] != c {
      SplitMakesUp(s[1..], c);
      assert s == [s[0]] + s[1..];
    }
  }

  /** An amount as a user writes it. */
  datatype AmountText = AmountText(lead: string, whole: string, fraction: string, trail: string)

  /** The whole part has no leading zero, and the fraction may be missing. */
  predicate IsAmount(t: AmountText) {
    && AllSpace(t.lead) && AllDigits(t.whole) && AllDigits(t.fraction) && AllSpace(t.trail)
    && t.whole != [] && (|t.whole| > 1 ==> t.whole[0] != '0')
  }

  function TextOf(t: AmountText): string {
    t.lead + (t.whole + if t.fraction == [] then [] else "." + t.fraction) + t.trail
  }

  /** Every such text is read as the number its digits denote, in raw units, and refused for
      exactly one of the other three reasons. */
  lemma AmountIsRead(t: AmountText, decimals: int)
    requires IsAmount(t)
    ensures ParseHumanAmount(TextOf(t), decimals) ==
            if decimals < 0 || decimals > 255 then Err(DECIMALS_INVALID)
            else if |t.fraction| > decimals then Err(TOO_MANY_PLACES)
            else if ValueOf(t.whole) == 0 == ValueOf(t.fraction) then Err(NOT_POSITIVE)
            else Ok(ValueOf(t.whole) * Pow10(decimals) + ValueOf(t.fraction) * Pow10(decimals - |t.fraction|))
  {
    var core := t.whole + if t.fraction == [] then [] else "." + t.fraction;
    DigitsAreSolid(t.whole);
    DigitsAreSolid(t.fraction);
    TrimRemoves(t.lead, core, t.trail);
    PlainPoint(t.whole, t.fraction);
    if |t.fraction| <= decimals <= 255 {
      FractionShifts(t.fraction, decimals);
      ShiftedIs(ValueOf(t.whole), decimals);
      ShiftedIs(ValueOf(t.fraction), decimals - |t.fraction|);
      SumIsZero(ValueOf(t.whole), Pow10(decimals), ValueOf(t.fraction), Pow10(decimals - |t.fraction|));
    }
  }

  lemma SumIsZero(a: nat, x: nat, b: nat, y: nat)
    requires x > 0 && y > 0
    ensures a * x + b * y >= 0 && (a * x + b * y == 0 <==> a == 0 == b)
  {
    if a > 0 {
      PositiveProduct(a, x);
    }
    if b > 0 {
      PositiveProduct(b, y);
    }
  }

  /** The two sides of the point make a text up again. */
  lemma PointMakesUp(s: string, whole: string, fraction: Option<string>)
    requires SplitAt(s, '.') == (whole, fraction)
    requires fraction.Some? ==> fraction.value != []
    ensures var f := if fraction.Some? then fraction.value else []; s == whole + if f == [] then [] else "." + f
  {
    SplitMakesUp(s, '.');
    if fraction.Some? {
      assert whole + ['.'] + fraction.value == whole + ("." + fraction.value);
    } else {
      assert whole + [] == whole;
    }
  }

  lemma AmountTextOf(input: string, decimals: nat) returns (t: AmountText)
    requires decimals <= 255 && ParseHumanAmount(input, decimals) != Err(NOT_A_DECIMAL)
    ensures IsAmount(t) && TextOf(t) == input
  {
    var lead, trail := TrimSplits(input);
    var (whole, fraction) := SplitAt(Trim(input), '.');
    PointMakesUp(Trim(input), whole, fraction);
    t := AmountText(lead, whole, if fraction.Some? then fraction.value else [], trail);
  }

  /** And no other text is an amount. */
  lemma OnlyAmountsAreRead(input: string, decimals: nat)
    requires decimals <= 255
    ensures ParseHumanAmount(input, decimals) != Err(NOT_A_DECIMAL) <==> exists t :: IsAmount(t) && TextOf(t) == input
  {
    if ParseHumanAmount(input, decimals) != Err(NOT_A_DECIMAL) {
      var t := AmountTextOf(input, decimals);
    }
    if t :| IsAmount(t) && TextOf(t) == input {
      AmountIsRead(t, decimals);
    }
  }

  /** Reading a printed fixed-point text back. */
  lemma ParseFixedText(whole: nat, rest: nat, decimals: nat, places: nat)
    requires decimals <= 255 && rest < Pow10(decimals)
    ensures var p := Min(places, decimals);
            ParseHumanAmount(FixedText(whole, rest, decimals, places), decimals)
            == Positive(Shifted(whole, decimals) + Shifted(Quotient(rest, Pow10(decimals - p)), decimals - p))
  {
    var f := FractionDigits(rest, decimals, places);
    WholeHasNoLeadingZero(whole);
    ReadsBack(whole);
    FractionDigitsValue(rest, decimals, places);
    StrippedFraction(f, decimals);
    ParsePlain(DigitsOf(whole), StripZeros(f), decimals);
  }

  lemma WholeHasNoLeadingZero(n: nat)
    ensures IsWhole(DigitsOf(n))
  {
    ReadsBack(n);
  }

  /** The amount cut to its first `places` of `decimals` fraction digits. */
  function CutTo(raw: nat, decimals: nat, places: nat): nat
    requires places <= decimals
  {
    Shifted(Quotient(raw, Pow10(decimals - places)), decimals - places)
  }

  function Positive(raw: nat): Result<nat, AmountError> {
    if raw == 0 then Err(NOT_POSITIVE) else Ok(raw)
  }

  lemma ParseFixedIs(whole: nat, rest: nat, decimals: nat, places: nat, value: nat)
    requires decimals <= 255 && rest < Pow10(decimals)
    requires var p := Min(places, decimals);
             value == Shifted(whole, decimals) + Shifted(Quotient(rest, Pow10(decimals - p)), decimals - p)
    ensures ParseHumanAmount(FixedText(whole, rest, decimals, places), decimals) == Positive(value)
  {
    ParseFixedText(whole, rest, decimals, places);
  }

  /** For every raw amount and all decimals: parsing the printed text gives the amount cut to
      the places printed, when that is positive. */
  lemma ParseUndoesFormat(raw: nat, decimals: nat, maxFraction: nat)
    requires decimals <= 255
    ensures ParseHumanAmount(FormatHumanAmount(raw, decimals, maxFraction), decimals)
            == Positive(CutTo(raw, decimals, Min(maxFraction, decimals)))
  {
    var p := Min(maxFraction, decimals);
    var whole, rest := Quotient(raw, Pow10(decimals)), Remainder(raw, Pow10(decimals));
    CutOfPrinted(raw, decimals, p);
    ParseFixedIs(whole, rest, decimals, maxFraction, CutTo(raw, decimals, p));
    PrintsFixedText(raw, decimals, maxFraction);
  }

  /** With all places printed, every positive amount comes back unchanged. */
  lemma ParseUndoesFullFormat(raw: nat, decimals: nat, maxFraction: nat)
    requires raw > 0 && decimals <= 255 && maxFraction >= decimals
    ensures ParseHumanAmount(FormatHumanAmount(raw, decimals, maxFraction), decimals) == Ok(raw)
  {
    ParseUndoesFormat(raw, decimals, maxFraction);
    assert Pow10(0) == 1 && Quotient(raw, 1) == raw;
  }

  lemma CutOfPrinted(raw: nat, decimals: nat, p: nat)
    requires p <= decimals
    ensures Shifted(Quotient(raw, Pow10(decimals)), decimals)
            + Shifted(Quotient(Remainder(raw, Pow10(decimals)), Pow10(decimals - p)), decimals - p)
            == CutTo(raw, decimals, p)
  {
    Pow10Add(p, decimals - p);
    ShiftedIs(Quotient(raw, Pow10(decimals)), decimals);
    ShiftedIs(Quotient(Remainder(raw, Pow10(decimals)), Pow10(decimals - p)), decimals - p);
    ShiftedIs(Quotient(raw, Pow10(decimals - p)), decimals - p);
    CutOff(raw, Pow10(p), Pow10(decimals - p), Pow10(decimals));
  }

  lemma PrintsFixedText(raw: nat, decimals: nat, maxFraction: nat)
    ensures FormatHumanAmount(raw, decimals, maxFraction)
            == FixedText(Quotient(raw, Pow10(decimals)), Remainder(raw, Pow10(decimals)), decimals, maxFraction)
  {
  }

  /** Cutting the rest of a division by `a * d` at `d` is cutting the number at `d`. */
  lemma CutOff(raw: nat, a: nat, d: nat, ad: nat)
    requires a > 0 && d > 0 && ad > 0 && ad == a * d
    ensures Quotient(raw, ad) * ad + Quotient(Remainder(raw, ad), d) * d == Quotient(raw, d) * d
  {
    var q, r := Quotient(raw, ad), Remainder(raw, ad);
    var k, m := Quotient(r, d), Remainder(r, d);
    Euclid(raw, ad);
    Euclid(r, d);
    TimesAssociates(q, a, d);
    Distributes(q * a, k, d);
    QuotientIs(raw, q * a + k, d, m);
  }

  lemma {:induction false} StrippedEnd(s: string)
    ensures StripZeros(s) != [] ==> StripZeros(s)[|StripZeros(s)| - 1] != '0'
  {
    if s != [] && s[|s| - 1] == '0' {
      StrippedEnd(s[..|s| - 1]);
    }
  }

  /** What is printed is an amount with no more than the places asked for, no zero at the end
      of its fraction and no space, after a minus when the amount is negative. */
  lemma PrintsAnAmount(raw: int, decimals: nat, maxFraction: nat) returns (t: AmountText)
    ensures FormatHumanAmount(raw, decimals, maxFraction) == (if raw < 0 then "-" else "") + TextOf(t)
    ensures IsAmount(t) && t.lead == [] == t.trail && |t.fraction| <= decimals && |t.fraction| <= maxFraction
    ensures t.fraction != [] ==> t.fraction[|t.fraction| - 1] != '0'
    ensures FormatHumanAmount(Abs(raw), decimals, maxFraction) == TextOf(t)
  {
    var whole, rest := Quotient(Abs(raw), Pow10(decimals)), Remainder(Abs(raw), Pow10(decimals));
    var f := FractionDigits(rest, decimals, maxFraction);
    Euclid(Abs(raw), Pow10(decimals));
    FractionDigitsValue(rest, decimals, maxFraction);
    StripThenPad(f);
    StrippedEnd(f);
    WholeHasNoLeadingZero(whole);
    t := AmountText([], DigitsOf(whole), StripZeros(f), []);
    assert TextOf(t) == FixedText(whole, rest, decimals, maxFraction);
  }

  /** A printed negative amount is never read as an amount. */
  lemma NegativeIsRefused(raw: int, decimals: nat, maxFraction: nat)
    requires raw < 0 && decimals <= 255
    ensures ParseHumanAmount(FormatHumanAmount(raw, decimals, maxFraction), decimals) == Err(NOT_A_DECIMAL)
  {
    var text := FormatHumanAmount(raw, decimals, maxFraction);
    assert text[0] == '-';
    TrimEndKeepsFirst(text);
    assert Trim(text) == TrimEnd(text);
  }

  lemma {:induction false} TrimEndKeepsFirst(s: string)
    requires s != [] && !IsSpace(s[0])
    ensures TrimEnd(s) != [] && TrimEnd(s)[0] == s[0]
  {
    if IsSpace(s[|s| - 1]) {
      TrimEndKeepsFirst(s[..|s| - 1]);
    }
  }

  /** The printer is the canonical form of what the parser accepts: an accepted text and the
      printed form of its value are read as the same amount. */
  lemma FormatOfParsed(input: string, decimals: nat)
    requires ParseHumanAmount(input, decimals).Ok?
    ensures var raw := ParseHumanAmount(input, decimals).value;
            raw > 0 && ParseHumanAmount(FormatHumanAmount(raw, decimals, decimals), decimals) == Ok(raw)
  {
    ParseUndoesFullFormat(ParseHumanAmount(input, decimals).value, decimals, decimals);
  }
}
