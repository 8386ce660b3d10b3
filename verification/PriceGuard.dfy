/** The entry price guard: exact rationals read from decimal text. */
module PriceGuard {
  import opened Prelude
  import opened Arithmetic
  import opened Decimal
  import opened Amount

  datatype Rational = Rational(numerator: nat, denominator: nat)

  // ---- reading a price ----

  function Lower(s: string): (r: string)
    ensures |r| == |s|
  {
    seq(|s|, i requires 0 <= i < |s| => if s[i] == 'E' then 'e' else s[i])
  }

  /** A price text cut into its parts; `point` says whether there is a decimal point. */
  datatype Parts = Parts(plus: bool, whole: string, point: bool, fraction: string, exponent: Option<string>)

  function Cut(text: string): Parts {
    var (mantissa, exponent) := SplitAt(Lower(Trim(text)), 'e');
    var plus := mantissa != [] && mantissa[0] == '+';
    var (whole, fraction) := SplitAt(if plus then mantissa[1..] else mantissa, '.');
    Parts(plus, whole, fraction.Some?, if fraction.Some? then fraction.value else [], exponent)
  }

  predicate IsSign(c: char) {
    c == '+' || c == '-'
  }

  function ExponentDigits(e: string): string {
    if e != [] && IsSign(e[0]) then e[1..] else e
  }

  /** Digits with an optional fraction, or a fraction alone; an optional signed exponent. */
  predicate WellFormed(p: Parts) {
    && AllDigits(p.whole) && AllDigits(p.fraction) && p.whole + p.fraction != []
    && (p.exponent.Some? ==> ExponentDigits(p.exponent.value) != [] && AllDigits(ExponentDigits(p.exponent.value)))
  }

  function Exponent(p: Parts): int
    requires WellFormed(p)
  {
    if p.exponent.None? then 0
    else
      var e: int := ValueOf(ExponentDigits(p.exponent.value));
      if p.exponent.value[0] == '-' then -e else e
  }

  const MAX_EXPONENT := 100

  /** `rational`; None when it throws. A leading plus before a bare fraction leaves a text
      that is no integer, so it throws there. */
  function RationalOf(text: string): (r: Option<Rational>)
    ensures r.Some? ==> r.value.numerator > 0 && r.value.denominator > 0
  {
    FromParts(Cut(text))
  }

  function FromParts(p: Parts): (r: Option<Rational>)
    ensures r.Some? ==> r.value.numerator > 0 && r.value.denominator > 0
  {
    if !WellFormed(p) || Exponent(p) < -MAX_EXPONENT || Exponent(p) > MAX_EXPONENT then None
    else if p.plus && p.whole == [] then None
    else if ScaledBy(p).numerator == 0 then None
    else Some(ScaledBy(p))
  }

  function ScaledBy(p: Parts): (r: Rational)
    requires WellFormed(p)
    ensures r.denominator > 0
  {
    Scale(ValueOf(p.whole + p.fraction), |p.fraction|, Exponent(p))
  }

  /** All digits as one integer, over the power of ten of the fraction, scaled by the exponent. */
  function Scale(digits: nat, places: nat, exponent: int): (r: Rational)
    ensures r.denominator > 0
  {
    PositiveProduct(Pow10(places), Pow10(Max(-exponent, 0)));
    Rational(digits * Pow10(Max(exponent, 0)), Pow10(places) * Pow10(Max(-exponent, 0)))
  }

  // ---- rational numbers ----

  function Value(r: Rational): real
    requires r.denominator > 0
  {
    r.numerator as real / r.denominator as real
  }

  function Plus(a: Rational, b: Rational): (r: Rational)
    requires a.denominator > 0 && b.denominator > 0
    ensures r.denominator > 0
  {
    PositiveProduct(a.denominator, b.denominator);
    Rational(a.numerator * b.denominator + b.numerator * a.denominator, a.denominator * b.denominator)
  }

  function Times(a: Rational, b: Rational): (r: Rational)
    requires a.denominator > 0 && b.denominator > 0
    ensures r.denominator > 0
  {
    PositiveProduct(a.denominator, b.denominator);
    Rational(a.numerator * b.numerator, a.denominator * b.denominator)
  }

  function Divide(a: Rational, b: Rational): (r: Rational)
    requires a.denominator > 0 && b.numerator > 0
    ensures r.denominator > 0
  {
    PositiveProduct(a.denominator, b.numerator);
    Rational(a.numerator * b.denominator, a.denominator * b.numerator)
  }

  lemma RatioScales(a: nat, b: nat, c: nat, d: nat)
    requires b > 0 && d > 0
    ensures b * d > 0 && a as real / b as real * (c as real / d as real) == (a * c) as real / (b * d) as real
  {
    PositiveProduct(b, d);
    assert (a * c) as real == a as real * c as real;
    assert (b * d) as real == b as real * d as real;
  }

  /** The operations on fractions are those of the numbers they stand for. */
  lemma TimesIsTimes(a: Rational, b: Rational)
    requires a.denominator > 0 && b.denominator > 0
    ensures Value(Times(a, b)) == Value(a) * Value(b)
  {
    RatioScales(a.numerator, a.denominator, b.numerator, b.denominator);
  }

  lemma PlusIsPlus(a: Rational, b: Rational)
    requires a.denominator > 0 && b.denominator > 0
    ensures Value(Plus(a, b)) == Value(a) + Value(b)
  {
    var x, y := a.denominator, b.denominator;
    PositiveProduct(x, y);
    OverCommon(a.numerator, x, y);
    OverCommon(b.numerator, y, x);
    OnlyValue(Plus(a, b), Value(a) + Value(b), x, y);
  }

  lemma OverCommon(a: nat, b: nat, d: nat)
    requires b > 0
    ensures a as real / b as real * (b as real * d as real) == Cross(a, d) as real
  {
    var x := a as real / b as real;
    assert x * b as real == a as real;
    assert x * (b as real * d as real) == (x * b as real) * d as real;
  }

  lemma OnlyValue(r: Rational, v: real, x: nat, y: nat)
    requires x > 0 && y > 0 && r.denominator == x * y > 0
    requires v * (x as real * y as real) == r.numerator as real
    ensures Value(r) == v
  {
    assert (x * y) as real == x as real * y as real;
    assert (Value(r) - v) * r.denominator as real == 0.0;
  }

  lemma QuotientOfRationals(a: Rational, b: Rational)
    requires a.denominator > 0 && b.numerator > 0 && b.denominator > 0
    ensures Value(b) > 0.0 && Value(Divide(a, b)) == Value(a) / Value(b)
  {
    var x, y := Value(a), Value(b);
    RatioScales(a.numerator, a.denominator, b.denominator, b.numerator);
    assert y * (b.denominator as real / b.numerator as real) == 1.0;
    assert x / y == x * (b.denominator as real / b.numerator as real);
  }

  // ---- what a price text means ----

  /** Ten to any power. */
  function TenTo(e: int): (r: Rational)
    ensures r.denominator > 0
  {
    if e >= 0 then Rational(Pow10(e), 1) else Rational(1, Pow10(-e))
  }

  /** The number a well-formed price text denotes: whole part plus fraction, times a power of ten. */
  function Meaning(p: Parts): (r: Rational)
    requires WellFormed(p)
    ensures r.denominator > 0
  {
    Times(Plus(Rational(ValueOf(p.whole), 1), Rational(ValueOf(p.fraction), Pow10(|p.fraction|))), TenTo(Exponent(p)))
  }

  /** The rational that is read is exactly the number the text denotes; a text is refused
      exactly when it is malformed, its exponent is out of range, it denotes zero, or a plus
      stands before a bare fraction. */
  lemma ReadsExactly(text: string)
    ensures var p := Cut(text);
            (RationalOf(text).Some? <==>
               WellFormed(p) && -MAX_EXPONENT <= Exponent(p) <= MAX_EXPONENT && Meaning(p).numerator > 0 && !(p.plus && p.whole == []))
            && (RationalOf(text).Some? ==> RationalOf(text).value == Meaning(p))
  {
    if WellFormed(Cut(text)) {
      ScaledIsMeaning(Cut(text));
    }
  }

  lemma ScaledIsMeaning(p: Parts)
    requires WellFormed(p)
    ensures ScaledBy(p) == Meaning(p)
  {
    ValueOfConcat(p.whole, p.fraction);
    assert Pow10(0) == 1;
  }

  // ---- which texts are prices ----

  /** An exponent as it is written: a mark of either case, an optional sign, digits. */
  datatype ExponentText = ExponentText(mark: char, sign: string, digits: string)

  /** A price as it is written. */
  datatype PriceText = PriceText(
    lead: string, plus: bool, whole: string, point: bool, fraction: string, exponent: Option<ExponentText>, trail: string)

  predicate IsPrice(t: PriceText) {
    && AllSpace(t.lead) && AllSpace(t.trail)
    && AllDigits(t.whole) && AllDigits(t.fraction) && t.whole + t.fraction != [] && (t.fraction != [] ==> t.point)
    && (t.exponent.Some? ==> IsExponent(t.exponent.value))
  }

  predicate IsExponent(e: ExponentText) {
    e.mark in "eE" && e.sign in ["", "+", "-"] && AllDigits(e.digits) && e.digits != []
  }

  function SignedMantissa(t: PriceText): string {
    (if t.plus then "+" else "") + Unsigned(t)
  }

  function Unsigned(t: PriceText): string {
    t.whole + if t.point then "." + t.fraction else ""
  }

  function Core(t: PriceText): string {
    SignedMantissa(t) + if t.exponent.Some? then [t.exponent.value.mark] + t.exponent.value.sign + t.exponent.value.digits else ""
  }

  function PriceTextOf(t: PriceText): string {
    t.lead + Core(t) + t.trail
  }

  function Power(t: PriceText): int
    requires IsPrice(t)
  {
    if t.exponent.None? then 0
    else if t.exponent.value.sign == "-" then -(ValueOf(t.exponent.value.digits) as int)
    else ValueOf(t.exponent.value.digits)
  }

  function ExponentOf(t: PriceText): Option<string> {
    if t.exponent.Some? then Some(t.exponent.value.sign + t.exponent.value.digits) else None
  }

  lemma CutMarked(m: string, mark: char, rest: string)
    requires 'e' !in m && 'E' !in m && 'E' !in rest && (mark == 'e' || mark == 'E')
    ensures SplitAt(Lower(m + ([mark] + rest)), 'e') == (m, Some(rest))
  {
    LowerKeeps(m);
    LowerKeeps(rest);
    assert Lower(m + ([mark] + rest)) == m + ['e'] + rest;
    SplitFinds(m, 'e', rest);
  }

  /** The lowered text is cut at the mark. */
  lemma CutAtMark(t: PriceText)
    requires IsPrice(t)
    ensures SplitAt(Lower(Core(t)), 'e') == (SignedMantissa(t), ExponentOf(t))
  {
    var m := SignedMantissa(t);
    LowerMantissa(t);
    if t.exponent.Some? {
      var e := t.exponent.value;
      CutMarked(m, e.mark, e.sign + e.digits);
      assert [e.mark] + e.sign + e.digits == [e.mark] + (e.sign + e.digits);
    } else {
      SplitFinds(m, 'e', []);
      assert Core(t) == m;
    }
  }

  lemma PowerIs(t: PriceText)
    requires IsPrice(t)
    ensures var p := Parts(t.plus, t.whole, t.point, t.fraction, ExponentOf(t)); WellFormed(p) && Exponent(p) == Power(t)
  {
    if t.exponent.Some? {
      var e := t.exponent.value;
      assert e.sign == "" ==> e.sign + e.digits == e.digits && !IsSign(e.digits[0]);
      assert ExponentDigits(e.sign + e.digits) == e.digits;
    }
  }

  /** The unsigned mantissa is cut at the point. */
  lemma CutAtPoint(t: PriceText)
    requires IsPrice(t)
    ensures SplitAt(Unsigned(t), '.') == (t.whole, if t.point then Some(t.fraction) else None)
  {
    DigitsAreSolid(t.whole);
    SplitFinds(t.whole, '.', t.fraction);
    if t.point {
      assert Unsigned(t) == t.whole + ['.'] + t.fraction;
    } else {
      assert Unsigned(t) == t.whole;
    }
  }

  /** Cutting gives the parts the text was made of. */
  lemma CutPrice(t: PriceText)
    requires IsPrice(t)
    ensures Cut(PriceTextOf(t)) == Parts(t.plus, t.whole, t.point, t.fraction, ExponentOf(t))
  {
    CoreIsSolid(t);
    TrimRemoves(t.lead, Core(t), t.trail);
    CutAtMark(t);
    UnsignedIs(t);
    CutAtPoint(t);
  }

  lemma UnsignedIs(t: PriceText)
    requires IsPrice(t)
    ensures var m := SignedMantissa(t);
            (m != [] && m[0] == '+' <==> t.plus) && (if t.plus then m[1..] else m) == Unsigned(t)
  {
  }

  /** The characters a price is made of. */
  predicate IsPriceChar(c: char) {
    IsDigit(c) || c == '+' || c == '-' || c == '.' || c == 'e' || c == 'E'
  }

  predicate PriceChars(s: string) {
    forall i :: 0 <= i < |s| ==> IsPriceChar(s[i])
  }

  lemma PriceCharsJoin(a: string, b: string)
    requires PriceChars(a) && PriceChars(b)
    ensures PriceChars(a + b)
  {
  }

  lemma CoreIsSolid(t: PriceText)
    requires IsPrice(t)
    ensures Core(t) != [] && !IsSpace(Core(t)[0]) && !IsSpace(Core(t)[|Core(t)| - 1])
  {
    PriceCharsJoin(".", t.fraction);
    PriceCharsJoin(t.whole, if t.point then "." + t.fraction else "");
    PriceCharsJoin(if t.plus then "+" else "", Unsigned(t));
    if t.exponent.Some? {
      var e := t.exponent.value;
      PriceCharsJoin([e.mark], e.sign);
      PriceCharsJoin([e.mark] + e.sign, e.digits);
      PriceCharsJoin(SignedMantissa(t), [e.mark] + e.sign + e.digits);
    }
    assert PriceChars(Core(t));
    assert IsPriceChar(Core(t)[0]) && IsPriceChar(Core(t)[|Core(t)| - 1]);
  }

  lemma LowerMantissa(t: PriceText)
    requires IsPrice(t)
    ensures var m := SignedMantissa(t); 'e' !in m && 'E' !in m && Lower(m) == m
  {
    LowerKeeps(SignedMantissa(t));
  }

  /** Every such text is read as its digits times a power of ten, and refused exactly when the
      exponent is beyond a hundred, the digits are all zero, or a plus stands before a point. */
  lemma PriceIsRead(t: PriceText)
    requires IsPrice(t)
    ensures var x := Power(t); var r := RationalOf(PriceTextOf(t));
            AllDigits(t.whole + t.fraction)
            && (r.None? <==> x < -100 || x > 100 || ValueOf(t.whole + t.fraction) == 0 || (t.plus && t.whole == []))
            && (r.Some? ==> r.value == Rational(ValueOf(t.whole + t.fraction) * Pow10(if x > 0 then x else 0),
                                                Pow10(|t.fraction|) * Pow10(if x < 0 then -x else 0)))
  {
    CutPrice(t);
    PowerIs(t);
    var n := ValueOf(t.whole + t.fraction);
    if n > 0 {
      PositiveProduct(n, Pow10(Max(Power(t), 0)));
    }
  }

  lemma {:induction false} LowerIsOnlyMark(core: string, a: string, b: string)
    requires Lower(core) == a + ['e'] + b && 'e' !in a && 'e' !in b
    ensures core == a + [core[|a|]] + b && (core[|a|] == 'e' || core[|a|] == 'E')
  {
    var low := Lower(core);
    assert low[|a|] == 'e';
    forall i | 0 <= i < |core| && i != |a|
      ensures core[i] == low[i]
    {
      assert low[i] == if i < |a| then a[i] else b[i - |a| - 1];
    }
  }

  lemma LowerIsSame(core: string)
    requires 'e' !in Lower(core)
    ensures core == Lower(core)
  {
    forall i | 0 <= i < |core|
      ensures core[i] == Lower(core)[i]
    {
      assert Lower(core)[i] in Lower(core);
    }
  }

  lemma ExponentMakesUp(mark: char, e: string) returns (x: ExponentText)
    requires mark == 'e' || mark == 'E'
    requires ExponentDigits(e) != [] && AllDigits(ExponentDigits(e))
    ensures IsExponent(x) && [x.mark] + x.sign + x.digits == [mark] + e
  {
    var sign := if IsSign(e[0]) then [e[0]] else "";
    x := ExponentText(mark, sign, ExponentDigits(e));
    assert e == sign + ExponentDigits(e);
    assert [mark] + sign + ExponentDigits(e) == [mark] + (sign + ExponentDigits(e));
  }

  lemma ExponentHasNoMark(e: string)
    requires ExponentDigits(e) != [] && AllDigits(ExponentDigits(e))
    ensures 'e' !in e
  {
    forall i | 0 <= i < |e|
      ensures e[i] != 'e'
    {
      assert i > 0 || !IsSign(e[0]) ==> e[i] in ExponentDigits(e);
    }
  }

  lemma UnsignedMakesUp(t: PriceText, rest: string)
    requires SplitAt(rest, '.') == (t.whole, if t.point then Some(t.fraction) else None)
    ensures Unsigned(t) == rest
  {
    SplitMakesUp(rest, '.');
    if t.point {
      assert t.whole + ['.'] + t.fraction == t.whole + ("." + t.fraction);
    } else {
      assert t.whole + "" == t.whole;
    }
  }

  /** The mantissa is the sign and the two sides of the point. */
  lemma MantissaMakesUp(t: PriceText, mantissa: string)
    requires t.plus <==> mantissa != [] && mantissa[0] == '+'
    requires SplitAt(if t.plus then mantissa[1..] else mantissa, '.') == (t.whole, if t.point then Some(t.fraction) else None)
    ensures SignedMantissa(t) == mantissa
  {
    UnsignedMakesUp(t, if t.plus then mantissa[1..] else mantissa);
    if t.plus {
      assert mantissa == "+" + mantissa[1..];
    } else {
      assert "" + mantissa == mantissa;
    }
  }

  lemma ExponentTextOf(core: string, p: Parts) returns (x: Option<ExponentText>)
    requires WellFormed(p) && SplitAt(Lower(core), 'e').1 == p.exponent
    ensures x.Some? ==> IsExponent(x.value)
    ensures core == SplitAt(Lower(core), 'e').0 + if x.Some? then [x.value.mark] + x.value.sign + x.value.digits else ""
  {
    SplitMakesUp(Lower(core), 'e');
    var mantissa := SplitAt(Lower(core), 'e').0;
    if p.exponent.Some? {
      ExponentHasNoMark(p.exponent.value);
      LowerIsOnlyMark(core, mantissa, p.exponent.value);
      var e := ExponentMakesUp(core[|mantissa|], p.exponent.value);
      x := Some(e);
      assert core == mantissa + ([core[|mantissa|]] + p.exponent.value);
    } else {
      LowerIsSame(core);
      x := None;
      assert core == mantissa + "";
    }
  }

  /** And no other text is a price. */
  lemma OnlyPricesAreRead(text: string)
    requires RationalOf(text).Some?
    ensures exists t :: IsPrice(t) && PriceTextOf(t) == text
  {
    var lead, trail := TrimSplits(text);
    var core, p := Trim(text), Cut(text);
    var x := ExponentTextOf(core, p);
    var t := PriceText(lead, p.plus, p.whole, p.point, p.fraction, x, trail);
    MantissaMakesUp(t, SplitAt(Lower(core), 'e').0);
    assert Core(t) == core;
    assert IsPrice(t) && PriceTextOf(t) == text;
  }

  // ---- the guard ----

  const DIVERGENCE_LIMIT_BPS := 1000

  datatype Blocker = POOL_PRICE_INVALID | TOKEN_PRICE_MISSING | FUNDING_PRICE_UNAVAILABLE | TOKEN_PRICE_INVALID | PRICE_DIVERGENCE
  datatype Verdict = PASS | BLOCK
  datatype Guard = Guard(
    verdict: Verdict, poolText: string, tokenText: Option<string>, deviationBps: Option<nat>, blocker: Option<Blocker>)

  function Cross(a: nat, b: nat): nat {
    a * b
  }

  function Distance(x: nat, y: nat): nat {
    if x >= y then x - y else y - x
  }

  function Deviation(pool: Rational, token: Rational): nat
    requires pool.denominator > 0 && token.numerator > 0 && token.denominator > 0
  {
    PositiveProduct(token.numerator, pool.denominator);
    Quotient(Distance(Cross(pool.numerator, token.denominator), Cross(token.numerator, pool.denominator)) * 10000,
             Cross(token.numerator, pool.denominator))
  }

  const PLACES := 18

  /** `decimal`: at most eighteen fraction digits, cut off. */
  function DecimalText(r: Rational): string
    requires r.denominator > 0
  {
    FixedText(Quotient(r.numerator, r.denominator),
              Quotient(Remainder(r.numerator, r.denominator) * Pow10(PLACES), r.denominator), PLACES, PLACES)
  }

  function TokenRational(target: Rational, funding: Rational): (r: Rational)
    requires target.numerator > 0 && target.denominator > 0 && funding.numerator > 0 && funding.denominator > 0
    ensures r.numerator > 0 && r.denominator > 0
  {
    PositiveProduct(target.numerator, funding.denominator);
    Divide(target, funding)
  }

  /** `evaluateLpEntryPriceGuard`. */
  function Evaluate(poolText: string, targetUsd: Option<string>, fundingUsd: Option<string>): Guard {
    var pool := RationalOf(poolText);
    if pool.None? then Guard(BLOCK, poolText, None, None, Some(POOL_PRICE_INVALID))
    else if targetUsd.None? then Guard(BLOCK, DecimalText(pool.value), None, None, Some(TOKEN_PRICE_MISSING))
    else if fundingUsd.None? then Guard(BLOCK, DecimalText(pool.value), None, None, Some(FUNDING_PRICE_UNAVAILABLE))
    else
      var target, funding := RationalOf(targetUsd.value), RationalOf(fundingUsd.value);
      if target.None? || funding.None? then Guard(BLOCK, DecimalText(pool.value), None, None, Some(TOKEN_PRICE_INVALID))
      else Judge(pool.value, TokenRational(target.value, funding.value))
  }

  function Judge(pool: Rational, token: Rational): Guard
    requires pool.denominator > 0 && token.numerator > 0 && token.denominator > 0
  {
    var bps := Deviation(pool, token);
    var verdict := if bps < DIVERGENCE_LIMIT_BPS then PASS else BLOCK;
    Guard(verdict, DecimalText(pool), Some(DecimalText(token)), Some(bps), if verdict.BLOCK? then Some(PRICE_DIVERGENCE) else None)
  }

  function AbsReal(x: real): real {
    if x >= 0.0 then x else -x
  }

  /** Integer division is the floor of the real quotient. */
  lemma QuotientIsFloor(a: nat, b: nat)
    requires b > 0
    ensures Quotient(a, b) == (a as real / b as real).Floor
  {
    var q, x := Quotient(a, b), a as real / b as real;
    Euclid(a, b);
    var r := Remainder(a, b);
    assert a as real == q as real * b as real + r as real;
    assert x == q as real + r as real / b as real;
    assert 0.0 <= r as real / b as real < 1.0;
  }

  lemma RealRatio(x: real, y: real, s: real)
    requires y != 0.0 && s != 0.0
    ensures x / y == (x * s) / (y * s)
  {
    assert (x / y) * (y * s) == x * s;
  }

  /** The difference of two fractions relative to the second one. */
  lemma RelativeDifference(a: nat, b: nat, c: nat, d: nat)
    requires b > 0 && c > 0 && d > 0
    ensures var p := a as real / b as real; var t := c as real / d as real;
            t > 0.0 && Cross(c, b) > 0 && AbsReal(p - t) / t == Distance(Cross(a, d), Cross(c, b)) as real / Cross(c, b) as real
  {
    PositiveProduct(c, b);
    var p, t := a as real / b as real, c as real / d as real;
    var s := b as real * d as real;
    OverCommon(a, b, d);
    OverCommon(c, d, b);
    assert d as real * b as real == s;
    assert (p - t) * s == p * s - t * s;
    AbsScales(p - t, s);
    RealRatio(AbsReal(p - t), t, s);
  }

  lemma AbsScales(x: real, s: real)
    requires s > 0.0
    ensures AbsReal(x) * s == AbsReal(x * s)
  {
  }

  /** The deviation is the floor of ten thousand times the relative difference. */
  lemma DeviationIsFloor(pool: Rational, token: Rational)
    requires pool.denominator > 0 && token.numerator > 0 && token.denominator > 0
    ensures var p := Value(pool); var t := Value(token);
            t > 0.0 && Deviation(pool, token) == (10000.0 * (AbsReal(p - t) / t)).Floor
  {
    var a, b, c, d := pool.numerator, pool.denominator, token.numerator, token.denominator;
    RelativeDifference(a, b, c, d);
    var diff, den := Distance(Cross(a, d), Cross(c, b)), Cross(c, b);
    QuotientIsFloor(diff * 10000, den);
    assert (diff * 10000) as real / den as real == 10000.0 * (diff as real / den as real);
  }

  /** The verdict is PASS if and only if ten times the absolute difference is less than the
      reference price, as exact numbers, and the deviation reported is the floor of ten
      thousand times the relative difference. */
  predicate Exact(g: Guard, pool: Rational, token: Rational)
    requires pool.denominator > 0 && token.denominator > 0
  {
    var p, t := Value(pool), Value(token);
    && t > 0.0 && (g.verdict.PASS? <==> 10.0 * AbsReal(p - t) < t)
    && g.deviationBps == Some((10000.0 * (AbsReal(p - t) / t)).Floor)
    && g.blocker == if g.verdict.PASS? then None else Some(PRICE_DIVERGENCE)
  }

  lemma JudgeIsExact(pool: Rational, token: Rational)
    requires pool.denominator > 0 && token.numerator > 0 && token.denominator > 0
    ensures Exact(Judge(pool, token), pool, token)
  {
    DeviationIsFloor(pool, token);
    TenthOfReference(AbsReal(Value(pool) - Value(token)), Value(token));
  }

  lemma TenthOfReference(d: real, t: real)
    requires t > 0.0 && d >= 0.0
    ensures (10000.0 * (d / t)).Floor < 1000 <==> 10.0 * d < t
  {
    var x := d / t;
    assert x * t == d;
    RealMulMono(x, 0.1, t);
    assert (10000.0 * x).Floor < 1000 <==> 10000.0 * x < 1000.0;
    assert x < 0.1 <==> d < 0.1 * t;
  }

  lemma ReadableIsJudged(poolText: string, targetUsd: string, fundingUsd: string)
    requires RationalOf(poolText).Some? && RationalOf(targetUsd).Some? && RationalOf(fundingUsd).Some?
    ensures Evaluate(poolText, Some(targetUsd), Some(fundingUsd))
            == Judge(RationalOf(poolText).value, TokenRational(RationalOf(targetUsd).value, RationalOf(fundingUsd).value))
  {
  }

  /** For readable prices the guard is exact. */
  lemma GuardIsExact(poolText: string, targetUsd: string, fundingUsd: string)
    requires RationalOf(poolText).Some? && RationalOf(targetUsd).Some? && RationalOf(fundingUsd).Some?
    ensures Exact(Evaluate(poolText, Some(targetUsd), Some(fundingUsd)), RationalOf(poolText).value,
                  TokenRational(RationalOf(targetUsd).value, RationalOf(fundingUsd).value))
  {
    JudgeIsExact(RationalOf(poolText).value, TokenRational(RationalOf(targetUsd).value, RationalOf(fundingUsd).value));
    ReadableIsJudged(poolText, targetUsd, fundingUsd);
  }

  /** Equal prices written differently get the same verdict and deviation. */
  lemma JudgeIgnoresNotation(poolA: Rational, tokenA: Rational, poolB: Rational, tokenB: Rational)
    requires poolA.denominator > 0 && tokenA.numerator > 0 && tokenA.denominator > 0
    requires poolB.denominator > 0 && tokenB.numerator > 0 && tokenB.denominator > 0
    requires Value(poolA) == Value(poolB) && Value(tokenA) == Value(tokenB)
    ensures Judge(poolA, tokenA).verdict == Judge(poolB, tokenB).verdict
            && Judge(poolA, tokenA).deviationBps == Judge(poolB, tokenB).deviationBps
  {
    JudgeIsExact(poolA, tokenA);
    JudgeIsExact(poolB, tokenB);
  }

  /** Which blocker a missing or unreadable price gives: the first that applies, in this order. */
  lemma UnreadableBlocks(poolText: string, targetUsd: Option<string>, fundingUsd: Option<string>)
    requires RationalOf(poolText).None? || targetUsd.None? || fundingUsd.None?
             || RationalOf(targetUsd.value).None? || RationalOf(fundingUsd.value).None?
    ensures var g := Evaluate(poolText, targetUsd, fundingUsd); var pool := RationalOf(poolText);
            && g.verdict.BLOCK? && g.deviationBps.None? && g.tokenText.None?
            && (g.blocker == Some(POOL_PRICE_INVALID) <==> pool.None?)
            && (g.blocker == Some(TOKEN_PRICE_MISSING) <==> pool.Some? && targetUsd.None?)
            && (g.blocker == Some(FUNDING_PRICE_UNAVAILABLE) <==> pool.Some? && targetUsd.Some? && fundingUsd.None?)
            && (g.blocker == Some(TOKEN_PRICE_INVALID) <==> pool.Some? && targetUsd.Some? && fundingUsd.Some?)
  {
  }

  /** The prices shown: the pool price as it was given when it cannot be read, and cut to
      eighteen places otherwise; the reference price when both its parts can be read. */
  lemma ShownPrices(poolText: string, targetUsd: Option<string>, fundingUsd: Option<string>)
    ensures var g := Evaluate(poolText, targetUsd, fundingUsd); var pool := RationalOf(poolText);
            && (pool.None? ==> g.poolText == poolText)
            && (pool.Some? ==> IsUnits(RationalOf(g.poolText), Units(pool.value)))
            && (g.tokenText.Some? <==> g.deviationBps.Some?)
            && (g.tokenText.Some? <==>
                  pool.Some? && targetUsd.Some? && fundingUsd.Some?
                  && RationalOf(targetUsd.value).Some? && RationalOf(fundingUsd.value).Some?)
            && (g.tokenText.Some? ==>
                  IsUnits(RationalOf(g.tokenText.value), Units(TokenRational(RationalOf(targetUsd.value).value, RationalOf(fundingUsd.value).value))))
  {
    var g, pool := Evaluate(poolText, targetUsd, fundingUsd), RationalOf(poolText);
    if pool.Some? {
      PrintThenRead(pool.value);
      if g.tokenText.Some? {
        PrintThenRead(TokenRational(RationalOf(targetUsd.value).value, RationalOf(fundingUsd.value).value));
      }
    }
  }

  // ---- printing a price and reading it back ----

  /** The price in units of ten to the minus eighteen, cut off. */
  function Units(r: Rational): nat
    requires r.denominator > 0
  {
    Quotient(r.numerator * Pow10(PLACES), r.denominator)
  }

  /** The printed digits are the whole units: the fraction printed never carries. */
  lemma UnitsSplit(r: Rational)
    requires r.denominator > 0
    ensures var rest := Quotient(Remainder(r.numerator, r.denominator) * Pow10(PLACES), r.denominator);
            rest < Pow10(PLACES) && Units(r) == Quotient(r.numerator, r.denominator) * Pow10(PLACES) + rest
  {
    var w, m, k, d := Quotient(r.numerator, r.denominator), Remainder(r.numerator, r.denominator), Pow10(PLACES), r.denominator;
    Euclid(r.numerator, d);
    SplitScaled(w, m, k, d);
  }

  lemma SplitScaled(w: nat, m: nat, k: nat, d: nat)
    requires d > 0 && m < d && k > 0
    ensures Quotient(m * k, d) < k && Quotient((w * d + m) * k, d) == w * k + Quotient(m * k, d)
  {
    var q, r := Quotient(m * k, d), Remainder(m * k, d);
    Euclid(m * k, d);
    RestStaysBelow(m, k, d, q, r);
    Carry(w, m, k, d, q, r);
    QuotientIs((w * d + m) * k, w * k + q, d, r);
  }

  lemma RestStaysBelow(m: nat, k: nat, d: nat, q: nat, r: nat)
    requires m < d && k > 0 && m * k == q * d + r
    ensures q < k
  {
    MulMono(m + 1, d, k);
    Distributes(m, 1, k);
    assert q * d < d * k == k * d;
    CancelStrict(q, k, d);
  }

  lemma Carry(w: nat, m: nat, k: nat, d: nat, q: nat, r: nat)
    requires m * k == q * d + r
    ensures (w * d + m) * k == (w * k + q) * d + r
  {
    Distributes(w * d, m, k);
    Distributes(w * k, q, d);
    assert (w * d) * k == (w * k) * d;
  }

  /** What was read is this many units of the last place; nothing is read for none. */
  predicate IsUnits(back: Option<Rational>, units: int) {
    && (back.None? <==> units == 0)
    && (back.Some? ==> back.value.numerator * Pow10(18) == units * back.value.denominator)
  }

  /** Printing and reading back gives exactly the price cut to whole units; a price below one
      unit prints as zero and is refused. */
  lemma PrintThenRead(r: Rational)
    requires r.denominator > 0
    ensures IsUnits(RationalOf(DecimalText(r)), Units(r))
  {
    UnitsSplit(r);
    var whole, rest := Quotient(r.numerator, r.denominator), Quotient(Remainder(r.numerator, r.denominator) * Pow10(PLACES), r.denominator);
    ReadFixedText(whole, rest);
  }

  lemma ReadFixedText(whole: nat, rest: nat)
    requires rest < Pow10(PLACES)
    ensures IsUnits(RationalOf(FixedText(whole, rest, PLACES, PLACES)), whole * Pow10(PLACES) + rest)
  {
    var r := StripZeros(FractionDigits(rest, PLACES, PLACES));
    var w := DigitsOf(whole);
    StrippedRest(rest);
    assert RationalOf(FixedText(whole, rest, PLACES, PLACES)) == PlainRational(ValueOf(w + r), |r|) by {
      CutFixedText(whole, rest);
      FromPlainParts(w, r);
    }
    assert ValueOf(w + r) == whole * Pow10(|r|) + ValueOf(r) by {
      ReadsBack(whole);
      ValueOfConcat(w, r);
    }
    UnitsOfPlain(whole, ValueOf(r), rest, |r|, ValueOf(w + r));
  }

  function PlainRational(digits: nat, places: nat): Option<Rational> {
    if digits == 0 then None else Some(Rational(digits, Pow10(places)))
  }

  lemma UnitsOfPlain(whole: nat, fraction: nat, rest: nat, places: nat, digits: nat)
    requires places <= PLACES && digits == whole * Pow10(places) + fraction
    requires rest == fraction * Pow10(PLACES - places) && Pow10(PLACES) == Pow10(places) * Pow10(PLACES - places)
    ensures IsUnits(PlainRational(digits, places), whole * Pow10(PLACES) + rest)
  {
    SameUnits(whole, fraction, rest, Pow10(places), Pow10(PLACES - places), Pow10(PLACES));
  }

  /** The stripped fraction digits, scaled back up, are the whole rest. */
  lemma StrippedRest(rest: nat)
    requires rest < Pow10(PLACES)
    ensures var r := StripZeros(FractionDigits(rest, PLACES, PLACES));
            AllDigits(r) && |r| <= PLACES && rest == ValueOf(r) * Pow10(PLACES - |r|) && Pow10(PLACES) == Pow10(|r|) * Pow10(PLACES - |r|)
  {
    var f := FractionDigits(rest, PLACES, PLACES);
    FractionDigitsValue(rest, PLACES, PLACES);
    StrippedFraction(f, PLACES);
    FractionShifts(StripZeros(f), PLACES);
    ShiftedIs(ValueOf(StripZeros(f)), PLACES - |StripZeros(f)|);
    Pow10Add(|StripZeros(f)|, PLACES - |StripZeros(f)|);
    assert Pow10(0) == 1;
  }

  /** A text without sign and exponent is read as its digits over the power of ten. */
  lemma FromPlainParts(w: string, r: string)
    requires w != [] && AllDigits(w) && AllDigits(r)
    ensures AllDigits(w + r) && FromParts(Parts(false, w, r != [], r, None)) == PlainRational(ValueOf(w + r), |r|)
  {
    ScaleByNothing(ValueOf(w + r), |r|);
  }

  lemma ScaleByNothing(digits: nat, places: nat)
    ensures Scale(digits, places, 0) == Rational(digits, Pow10(places))
  {
    assert Pow10(0) == 1;
  }

  lemma SameUnits(w: nat, v: nat, rest: nat, k: nat, z: nat, kz: nat)
    requires rest == v * z && k > 0 && z > 0 && kz == k * z
    ensures (w * k + v) * kz == (w * kz + rest) * k
    ensures w * k + v == 0 <==> w * kz + rest == 0
  {
    TimesAssociates(w, k, z);
    Distributes(w * k, v, z);
    assert w * kz + rest == (w * k + v) * z;
    assert (w * k + v) * (k * z) == ((w * k + v) * z) * k;
  }

  /** The printed text has no sign, no exponent, and the stripped fraction. */
  lemma CutFixedText(whole: nat, rest: nat)
    requires rest < Pow10(PLACES)
    ensures var r := StripZeros(FractionDigits(rest, PLACES, PLACES));
            Cut(FixedText(whole, rest, PLACES, PLACES)) == Parts(false, DigitsOf(whole), r != [], r, None)
  {
    StrippedRest(rest);
    CutPlain(DigitsOf(whole), StripZeros(FractionDigits(rest, PLACES, PLACES)));
  }

  lemma LowerKeeps(s: string)
    requires forall i :: 0 <= i < |s| ==> s[i] != 'E'
    ensures Lower(s) == s
  {
  }

  /** A text of digits with at most one point is neither trimmed, lowered nor cut at an exponent. */
  lemma PlainMantissa(text: string)
    requires forall i :: 0 <= i < |text| ==> IsDigit(text[i]) || text[i] == '.'
    ensures Lower(Trim(text)) == text && SplitAt(text, 'e') == (text, None)
  {
    TrimKeepsSolid(text);
    LowerKeeps(text);
    SplitFinds(text, 'e', []);
  }

  lemma CutPlain(w: string, r: string)
    requires w != [] && AllDigits(w) && AllDigits(r)
    ensures Cut(w + if r == [] then [] else "." + r) == Parts(false, w, r != [], r, None)
  {
    var text := w + if r == [] then [] else "." + r;
    PlainMantissa(text);
    PlainPoint(w, r);
    assert text[0] == w[0];
  }

  /** So the loss is never negative, always less than one unit of ten to the minus eighteen,
      and nothing exactly when the denominator divides the numerator in these units, as it
      does whenever it divides ten to the eighteen. */
  lemma PrintLosesLessThanAUnit(r: Rational)
    requires r.denominator > 0
    ensures Units(r) * r.denominator <= r.numerator * Pow10(18) < (Units(r) + 1) * r.denominator
    ensures Units(r) * r.denominator == r.numerator * Pow10(PLACES) <==> Remainder(r.numerator * Pow10(PLACES), r.denominator) == 0
    ensures Pow10(PLACES) % r.denominator == 0 ==> Remainder(r.numerator * Pow10(PLACES), r.denominator) == 0
  {
    var n, d := r.numerator * Pow10(PLACES), r.denominator;
    Euclid(n, d);
    Distributes(Units(r), 1, d);
    if Pow10(PLACES) % d == 0 {
      var k := Pow10(PLACES) / d;
      assert Pow10(PLACES) == k * d;
      TimesAssociates(r.numerator, k, d);
      QuotientIs(n, r.numerator * k, d, 0);
    }
  }
}
