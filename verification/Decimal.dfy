/**
 Exact fixed-point decimals: units times a power of ten, at most 38 digits and scale 18. Every
 operation is proved against the rational number a decimal stands for.
 */
module Decimal {
  import opened Wrappers
  import opened Rounding

  const MAX_PRECISION: nat := 38
  const MAX_SCALE: nat := 18

  function Pow10(exponent: nat): (r: nat)
    ensures r > 0
  {
    if exponent == 0 then 1 else 10 * Pow10(exponent - 1)
  }

  /** How many decimal digits a natural number has. */
  function DigitCount(n: nat): nat {
    if n < 10 then 1 else 1 + DigitCount(n / 10)
  }

  lemma {:induction false} DigitCountFits(n: nat, digits: nat)
    requires digits > 0
    ensures DigitCount(n) <= digits <==> n < Pow10(digits)
    decreases n
  {
    if n < 10 {
      assert Pow10(digits) >= 10;
    } else if digits == 1 {
      assert Pow10(1) == 10;
    } else {
      DigitCountFits(n / 10, digits - 1);
    }
  }

  datatype Problem = PrecisionExceeded | InvalidScale | ScaleTooLarge | DivisionByZero | LosesDigits

  datatype Decimal = Decimal(units: int, scale: nat)

  type Outcome = Result<Decimal, Problem>

  /** What the public operations can build. */
  predicate Representable(d: Decimal) {
    DigitCount(Abs(d.units)) <= MAX_PRECISION && d.scale <= MAX_SCALE
  }

  ghost predicate Denotes(d: Decimal, v: real) {
    v * P(d.scale) == d.units as real
  }

  /** The rational number a decimal stands for: the one that, ten to the scale times over, is the units. */
  ghost function Value(d: Decimal): (v: real)
    ensures v * P(d.scale) == d.units as real
  {
    DivideTimes(d.units as real, P(d.scale));
    assert Denotes(d, d.units as real / P(d.scale));
    var v: real :| Denotes(d, v);
    v
  }

  /** A power of ten as a real number. */
  function P(n: nat): (r: real)
    ensures r > 0.0
  {
    Pow10(n) as real
  }

  lemma DivideTimes(x: real, p: real)
    requires p != 0.0
    ensures (x / p) * p == x
  {
  }

  function Make(units: int, scale: nat): Outcome {
    if DigitCount(Abs(units)) > MAX_PRECISION then Err(PrecisionExceeded) else Ok(Decimal(units, scale))
  }

  function FromUnits(units: int, scale: int): Outcome {
    if 0 <= scale <= MAX_SCALE then Make(units, scale) else Err(InvalidScale)
  }

  function Max(a: nat, b: nat): nat { if a >= b then a else b }

  function UnitsAt(d: Decimal, scale: nat): int
    requires scale >= d.scale
  {
    d.units * Pow10(scale - d.scale)
  }

  function Add(a: Decimal, b: Decimal): Outcome {
    var scale := Max(a.scale, b.scale);
    Make(UnitsAt(a, scale) + UnitsAt(b, scale), scale)
  }

  function Subtract(a: Decimal, b: Decimal): Outcome {
    var scale := Max(a.scale, b.scale);
    Make(UnitsAt(a, scale) - UnitsAt(b, scale), scale)
  }

  function MultiplyExact(a: Decimal, b: Decimal): Outcome {
    if a.scale + b.scale > MAX_SCALE then Err(ScaleTooLarge)
    else Make(a.units * b.units, a.scale + b.scale)
  }

  function MultiplyRounded(a: Decimal, b: Decimal, scale: int, mode: Mode): Outcome {
    var exactScale := a.scale + b.scale;
    if !(0 <= scale <= MAX_SCALE) then Err(InvalidScale)
    else if scale >= exactScale then Make(a.units * b.units * Pow10(scale - exactScale), scale)
    else Make(RoundedQuotient(a.units * b.units, Pow10(exactScale - scale), mode), scale)
  }

  function Divide(a: Decimal, b: Decimal, scale: int, mode: Mode): Outcome {
    if !(0 <= scale <= MAX_SCALE) then Err(InvalidScale)
    else if b.units == 0 then Err(DivisionByZero)
    else
      var dividend, denominator := a.units * Pow10(b.scale + scale), b.units * Pow10(a.scale);
      NonZeroProduct(b.units, Pow10(a.scale));
      Make(RoundedQuotient(dividend, denominator, mode), scale)
  }

  function Round(d: Decimal, scale: int, mode: Mode): Outcome {
    if !(0 <= scale <= MAX_SCALE) then Err(InvalidScale)
    else if scale >= d.scale then Make(UnitsAt(d, scale), scale)
    else Make(RoundedQuotient(d.units, Pow10(d.scale - scale), mode), scale)
  }

  /** JavaScript's remainder is zero exactly when the Euclidean one is, and then the quotients agree. */
  function Rescale(d: Decimal, scale: int): Outcome {
    if !(0 <= scale <= MAX_SCALE) then Err(InvalidScale)
    else if scale >= d.scale then Make(UnitsAt(d, scale), scale)
    else if d.units % Pow10(d.scale - scale) != 0 then Err(LosesDigits)
    else Make(d.units / Pow10(d.scale - scale), scale)
  }

  function Compare(a: Decimal, b: Decimal): int {
    var scale := Max(a.scale, b.scale);
    var left, right := UnitsAt(a, scale), UnitsAt(b, scale);
    if left == right then 0 else if left < right then -1 else 1
  }

  // ----- Powers of ten -----

  lemma NonZeroProduct(a: int, b: int)
    requires a != 0 && b != 0
    ensures a * b != 0
  {
  }

  lemma {:induction false} Pow10Sum(a: nat, b: nat)
    ensures Pow10(a + b) == Pow10(a) * Pow10(b)
  {
    if a > 0 {
      Pow10Sum(a - 1, b);
      assert Pow10(a + b) == 10 * (Pow10(a - 1) * Pow10(b)) == (10 * Pow10(a - 1)) * Pow10(b);
    }
  }

  lemma RealProduct(a: int, b: int)
    ensures (a * b) as real == a as real * b as real
  {
  }

  lemma RealPow10Sum(a: nat, b: nat)
    ensures P(a + b) == P(a) * P(b)
  {
    var x, y := Pow10(a), Pow10(b);
    Pow10Sum(a, b);
    RealProduct(x, y);
  }

  lemma Associate(x: real, p: real, q: real)
    ensures x * (p * q) == (x * p) * q
  {
  }

  lemma Distribute(x: real, y: real, p: real)
    ensures (x + y) * p == x * p + y * p && (x - y) * p == x * p - y * p
  {
  }

  /** The exact value scaled up is the units at the larger scale. */
  lemma UnitsAtValue(d: Decimal, scale: nat, units: int)
    requires scale >= d.scale && units == UnitsAt(d, scale)
    ensures units as real == Value(d) * P(scale)
  {
    RealPow10Sum(d.scale, scale - d.scale);
    RealProduct(d.units, Pow10(scale - d.scale));
    Associate(Value(d), P(d.scale), P(scale - d.scale));
  }

  lemma SameOrder(x: real, y: real, p: real, ux: int, uy: int)
    requires p > 0.0 && x * p == ux as real && y * p == uy as real
    ensures (x < y) == (ux < uy) && (x == y) == (ux == uy)
  {
    Scale(x, y, p);
  }

  lemma ValueIs(d: Decimal, x: real)
    requires d.units as real == x * P(d.scale)
    ensures Value(d) == x
  {
    SameOrder(Value(d), x, P(d.scale), d.units, d.units);
  }

  // ----- The operations -----

  /** The decimal with these units, unless it has too many digits. */
  predicate Fits(outcome: Outcome, units: int, scale: nat) {
    outcome == if Abs(units) < Pow10(38) then Ok(Decimal(units, scale)) else Err(PrecisionExceeded)
  }

  lemma MakeFits(units: int, scale: nat)
    ensures Fits(Make(units, scale), units, scale)
  {
    DigitCountFits(Abs(units), MAX_PRECISION);
  }

  /** So many units at the scale have exactly this value. */
  ghost predicate UnitsOf(units: int, scale: nat, v: real) {
    Value(Decimal(units, scale)) == v
  }

  /** The outcome is the decimal of exactly this value at the scale, or a refusal when that has too many digits. */
  ghost predicate ExactAt(outcome: Outcome, v: real, scale: nat) {
    && (exists units: int :: UnitsOf(units, scale, v))
    && (forall units: int :: UnitsOf(units, scale, v) ==> Fits(outcome, units, scale))
  }

  lemma MakeExact(units: int, scale: nat, v: real)
    requires Value(Decimal(units, scale)) == v
    ensures ExactAt(Make(units, scale), v, scale)
  {
    assert UnitsOf(units, scale, v);
    forall other: int | UnitsOf(other, scale, v)
      ensures other == units
    {
      SameOrder(v, v, P(scale), other, units);
    }
    MakeFits(units, scale);
  }

  lemma SumValue(a: Decimal, b: Decimal, scale: nat, left: int, right: int)
    requires left as real == Value(a) * P(scale) && right as real == Value(b) * P(scale)
    ensures Value(Decimal(left + right, scale)) == Value(a) + Value(b)
  {
    Distribute(Value(a), Value(b), P(scale));
    ValueIs(Decimal(left + right, scale), Value(a) + Value(b));
  }

  lemma DifferenceValue(a: Decimal, b: Decimal, scale: nat, left: int, right: int)
    requires left as real == Value(a) * P(scale) && right as real == Value(b) * P(scale)
    ensures Value(Decimal(left - right, scale)) == Value(a) - Value(b)
  {
    Distribute(Value(a), Value(b), P(scale));
    ValueIs(Decimal(left - right, scale), Value(a) - Value(b));
  }

  /** Sums and differences are given exactly, at the larger scale, unless they have more than 38 digits. */
  lemma AddIsExact(a: Decimal, b: Decimal)
    ensures ExactAt(Add(a, b), Value(a) + Value(b), if a.scale < b.scale then b.scale else a.scale)
    ensures ExactAt(Subtract(a, b), Value(a) - Value(b), if a.scale < b.scale then b.scale else a.scale)
  {
    var scale := Max(a.scale, b.scale);
    var left, right := UnitsAt(a, scale), UnitsAt(b, scale);
    UnitsAtValue(a, scale, left);
    UnitsAtValue(b, scale, right);
    SumValue(a, b, scale, left, right);
    DifferenceValue(a, b, scale, left, right);
    MakeExact(left + right, scale, Value(a) + Value(b));
    MakeExact(left - right, scale, Value(a) - Value(b));
  }

  lemma IntegerRounds(mode: Mode, q: int)
    ensures Rounds(mode, q as real, q)
  {
  }

  lemma QuotientIs(dividend: int, divisor: int, x: real)
    requires divisor != 0 && x * divisor as real == dividend as real
    ensures x == Quotient(dividend, divisor)
  {
    QuotientTimes(dividend, divisor);
    var q, d := Quotient(dividend, divisor), divisor as real;
    if divisor > 0 {
      Scale(x, q, d);
    } else {
      assert x * (-d) == -(x * d) && q * (-d) == -(q * d);
      Scale(x, q, -d);
    }
  }

  lemma RoundedBy(dividend: int, divisor: int, mode: Mode, x: real)
    requires divisor != 0 && x * divisor as real == dividend as real
    ensures Rounds(mode, x, RoundedQuotient(dividend, divisor, mode))
  {
    QuotientIs(dividend, divisor, x);
    RoundsExactly(dividend, divisor, mode, RoundedQuotient(dividend, divisor, mode));
  }

  /**
   A result is correctly rounded: for the one integer the exact value, scaled up, rounds to, the outcome
   is that many units at the scale, or a refusal when they are too many digits.
   */
  ghost predicate CorrectlyRounded(outcome: Outcome, scaled: real, scale: nat, mode: Mode) {
    && (exists q :: Rounds(mode, scaled, q))
    && (forall q :: Rounds(mode, scaled, q) ==> Fits(outcome, q, scale))
  }

  lemma MakeCorrect(scaled: real, scale: nat, mode: Mode, units: int, outcome: Outcome)
    requires Rounds(mode, scaled, units) && outcome == Make(units, scale)
    ensures CorrectlyRounded(outcome, scaled, scale, mode)
  {
    MakeFits(units, scale);
    forall q | Rounds(mode, scaled, q)
      ensures q == units
    {
      RoundsOnce(mode, scaled, q, units);
    }
  }

  lemma ScaledDown(d: Decimal, scale: nat, drop: nat, scaled: real)
    requires d.scale == scale + drop && scaled == Value(d) * P(scale)
    ensures scaled * P(drop) == d.units as real
  {
    RealPow10Sum(scale, drop);
    DropCancels(Value(d), P(scale), P(drop), P(d.scale), scaled);
  }

  lemma DropCancels(v: real, p: real, q: real, both: real, scaled: real)
    requires both == p * q && scaled == v * p
    ensures scaled * q == v * both
  {
    Associate(v, p, q);
  }

  /** Rounding to a scale is one correct rounding of the exact value. */
  lemma RoundIsCorrect(d: Decimal, scale: nat, mode: Mode, scaled: real)
    requires scale <= 18 && scaled == Value(d) * P(scale)
    ensures CorrectlyRounded(Round(d, scale, mode), scaled, scale, mode)
  {
    if scale >= d.scale {
      var units := UnitsAt(d, scale);
      UnitsAtValue(d, scale, units);
      IntegerRounds(mode, units);
      MakeCorrect(scaled, scale, mode, units, Round(d, scale, mode));
    } else {
      var divisor := Pow10(d.scale - scale);
      ScaledDown(d, scale, d.scale - scale, scaled);
      RoundedBy(d.units, divisor, mode, scaled);
      MakeCorrect(scaled, scale, mode, RoundedQuotient(d.units, divisor, mode), Round(d, scale, mode));
    }
  }

  /** The exact product at the sum of the scales. */
  lemma ProductValue(a: Decimal, b: Decimal, units: int)
    requires units == a.units * b.units
    ensures Value(Decimal(units, a.scale + b.scale)) == Value(a) * Value(b)
  {
    RealPow10Sum(a.scale, b.scale);
    RealProduct(a.units, b.units);
    Interchange(Value(a), P(a.scale), Value(b), P(b.scale));
    ValueIs(Decimal(units, a.scale + b.scale), Value(a) * Value(b));
  }

  lemma Interchange(a: real, b: real, c: real, d: real)
    ensures (a * b) * (c * d) == (a * c) * (b * d)
  {
    Associate(a, b, c * d);
    Associate(a, c, b * d);
    Associate(b, c, d);
    Associate(c, b, d);
  }

  /** A rounded product is one correct rounding of the exact product. */
  lemma MultiplyIsCorrect(a: Decimal, b: Decimal, scale: nat, mode: Mode, scaled: real)
    requires scale <= 18 && scaled == Value(a) * Value(b) * P(scale)
    ensures CorrectlyRounded(MultiplyRounded(a, b, scale, mode), scaled, scale, mode)
  {
    var product := Decimal(a.units * b.units, a.scale + b.scale);
    ProductValue(a, b, product.units);
    RoundIsCorrect(product, scale, mode, scaled);
  }

  /** A product without rounding is given exactly at the sum of the scales, unless that is above 18 or it has more than 38 digits. */
  lemma MultiplyIsExact(a: Decimal, b: Decimal)
    ensures if a.scale + b.scale > 18 then MultiplyExact(a, b) == Err(ScaleTooLarge)
            else ExactAt(MultiplyExact(a, b), Value(a) * Value(b), a.scale + b.scale)
  {
    var units := a.units * b.units;
    ProductValue(a, b, units);
    MakeExact(units, a.scale + b.scale, Value(a) * Value(b));
  }

  /** Scales outside 0 to 18 are refused, and so is division by zero, and nothing else is on these accounts. */
  lemma RefusedScales(a: Decimal, b: Decimal, scale: int, mode: Mode)
    ensures 0 <= scale <= 18 || Err(InvalidScale) == FromUnits(a.units, scale) == Round(a, scale, mode) == Rescale(a, scale)
                                == MultiplyRounded(a, b, scale, mode) == Divide(a, b, scale, mode)
    ensures 0 <= scale <= 18 ==> Fits(FromUnits(a.units, scale), a.units, scale)
    ensures Divide(a, b, scale, mode) == Err(DivisionByZero) <==> 0 <= scale <= 18 && Value(b) == 0.0
  {
    SameOrder(Value(b), 0.0, P(b.scale), b.units, 0);
    MakeFits(a.units, if 0 <= scale then scale else 0);
  }

  function Dividend(a: Decimal, b: Decimal, scale: nat): int {
    a.units * Pow10(b.scale + scale)
  }

  function Divisor(a: Decimal, b: Decimal): int {
    b.units * Pow10(a.scale)
  }

  /** The exact quotient times ten to the scale. */
  ghost predicate ScaledQuotient(a: Decimal, b: Decimal, scale: nat, scaled: real) {
    scaled * Value(b) == Value(a) * P(scale)
  }

  lemma RealDividend(a: Decimal, b: Decimal, scale: nat)
    ensures Dividend(a, b, scale) as real == a.units as real * (P(b.scale) * P(scale))
  {
    RealProduct(a.units, Pow10(b.scale + scale));
    RealPow10Sum(b.scale, scale);
  }

  lemma DivideScaled(a: Decimal, b: Decimal, scale: nat, scaled: real)
    requires ScaledQuotient(a, b, scale, scaled)
    ensures scaled * Divisor(a, b) as real == Dividend(a, b, scale) as real
  {
    RealDividend(a, b, scale);
    RealProduct(b.units, Pow10(a.scale));
    QuotientScales(Value(a), Value(b), P(a.scale), P(b.scale), P(scale), scaled, a.units as real, b.units as real);
  }

  lemma IntDivide(a: Decimal, b: Decimal, scale: nat, scaled: real, dividend: int, divisor: int)
    requires ScaledQuotient(a, b, scale, scaled) && dividend == Dividend(a, b, scale) && divisor == Divisor(a, b)
    ensures scaled * divisor as real == dividend as real
  {
    DivideScaled(a, b, scale, scaled);
  }

  lemma RoundedOutcome(dividend: int, divisor: int, scale: nat, mode: Mode, scaled: real, outcome: Outcome)
    requires divisor != 0 && scaled * divisor as real == dividend as real
    requires outcome == Make(RoundedQuotient(dividend, divisor, mode), scale)
    ensures CorrectlyRounded(outcome, scaled, scale, mode)
  {
    RoundedBy(dividend, divisor, mode, scaled);
    MakeCorrect(scaled, scale, mode, RoundedQuotient(dividend, divisor, mode), outcome);
  }

  lemma DivideOutcome(a: Decimal, b: Decimal, scale: nat, mode: Mode, dividend: int, divisor: int, outcome: Outcome)
    requires scale <= MAX_SCALE && b.units != 0
    requires dividend == Dividend(a, b, scale) && divisor == Divisor(a, b) && outcome == Divide(a, b, scale, mode)
    ensures divisor != 0 && outcome == Make(RoundedQuotient(dividend, divisor, mode), scale)
  {
    NonZeroProduct(b.units, Pow10(a.scale));
  }

  /** Division by a number other than zero is one correct rounding of the exact quotient. */
  lemma DivideIsCorrect(a: Decimal, b: Decimal, scale: nat, mode: Mode, scaled: real, outcome: Outcome)
    requires scale <= 18 && b.units != 0 && outcome == Divide(a, b, scale, mode)
    requires ScaledQuotient(a, b, scale, scaled)
    ensures CorrectlyRounded(outcome, scaled, scale, mode)
  {
    var dividend, divisor := Dividend(a, b, scale), Divisor(a, b);
    IntDivide(a, b, scale, scaled, dividend, divisor);
    DivideOutcome(a, b, scale, mode, dividend, divisor, outcome);
    RoundedOutcome(dividend, divisor, scale, mode, scaled, outcome);
  }

  lemma QuotientScales(a: real, b: real, pa: real, pb: real, ps: real, scaled: real, ua: real, ub: real)
    requires scaled * b == a * ps && a * pa == ua && b * pb == ub
    ensures scaled * (ub * pa) == ua * (pb * ps)
  {
    assert scaled * (ub * pa) == (scaled * b) * (pb * pa) by {
      Associate(scaled, ub, pa);
      Associate(scaled, b, pb);
      Associate(scaled * b, pb, pa);
    }
    Interchange(a, ps, pa, pb);
  }

  ghost predicate HasScale(d: Decimal, scale: nat) {
    exists units: int :: UnitsOf(units, scale, Value(d))
  }

  /** Rescaling gives the same value at the scale, and is refused for lost digits exactly when no decimal of that scale has the value. */
  lemma RescaleIsExact(d: Decimal, scale: nat)
    requires scale <= 18
    ensures if HasScale(d, scale) then ExactAt(Rescale(d, scale), Value(d), scale) else Rescale(d, scale) == Err(LosesDigits)
  {
    if scale >= d.scale {
      RescaleGrows(d, scale);
    } else {
      RescaleDrops(d, scale, Pow10(d.scale - scale));
    }
  }

  lemma RescaleGrows(d: Decimal, scale: nat)
    requires scale >= d.scale
    ensures ExactAt(Make(UnitsAt(d, scale), scale), Value(d), scale)
  {
    var units := UnitsAt(d, scale);
    UnitsAtValue(d, scale, units);
    ValueIs(Decimal(units, scale), Value(d));
    MakeExact(units, scale, Value(d));
  }

  lemma RescaleDrops(d: Decimal, scale: nat, divisor: nat)
    requires scale < d.scale && divisor == Pow10(d.scale - scale)
    ensures d.units % divisor == 0 ==> ExactAt(Make(d.units / divisor, scale), Value(d), scale)
    ensures d.units % divisor == 0 <==> HasScale(d, scale)
  {
    if d.units % divisor == 0 {
      SameValue(d, d.units / divisor, scale);
      MakeExact(d.units / divisor, scale, Value(d));
    } else {
      forall units: int
        ensures !UnitsOf(units, scale, Value(d))
      {
        SameValue(d, units, scale);
        MultipleHasNoRemainder(units, divisor);
      }
    }
  }

  lemma MultipleHasNoRemainder(units: int, divisor: nat)
    requires divisor > 0
    ensures (units * divisor) % divisor == 0
  {
    var q, r := (units * divisor) / divisor, (units * divisor) % divisor;
    assert units * divisor == q * divisor + r;
    assert (units - q) * divisor == r;
    IntScale(units - q, 1, divisor);
    IntScale(-1, units - q, divisor);
  }

  lemma SameValue(d: Decimal, units: int, scale: nat)
    requires scale < d.scale
    ensures Value(Decimal(units, scale)) == Value(d) <==> units * Pow10(d.scale - scale) == d.units
  {
    var e := Decimal(units, scale);
    var longer := UnitsAt(e, d.scale);
    UnitsAtValue(e, d.scale, longer);
    SameOrder(Value(e), Value(d), P(d.scale), longer, d.units);
  }

  /** Comparison is comparison of the values, whatever the scales. */
  lemma CompareIsExact(a: Decimal, b: Decimal)
    ensures Compare(a, b) == if Value(a) < Value(b) then -1 else if Value(a) == Value(b) then 0 else 1
  {
    var scale := Max(a.scale, b.scale);
    var left, right := UnitsAt(a, scale), UnitsAt(b, scale);
    UnitsAtValue(a, scale, left);
    UnitsAtValue(b, scale, right);
    SameOrder(Value(a), Value(b), P(scale), left, right);
  }

  lemma UnitsAtTwice(d: Decimal, middle: nat, scale: nat)
    requires d.scale <= middle <= scale
    ensures UnitsAt(d, scale) == UnitsAt(d, middle) * Pow10(scale - middle)
  {
    var p, q := Pow10(middle - d.scale), Pow10(scale - middle);
    Pow10Sum(middle - d.scale, scale - middle);
    assert d.units * (p * q) == (d.units * p) * q;
  }

  /** Comparison may be made at any common scale. */
  lemma CompareAt(a: Decimal, b: Decimal, scale: nat)
    requires a.scale <= scale && b.scale <= scale
    ensures Compare(a, b) < 0 <==> UnitsAt(a, scale) < UnitsAt(b, scale)
  {
    var middle := Max(a.scale, b.scale);
    UnitsAtTwice(a, middle, scale);
    UnitsAtTwice(b, middle, scale);
    IntScale(UnitsAt(a, middle), UnitsAt(b, middle), Pow10(scale - middle));
  }

  /** Operations on representable decimals only build representable ones. */
  lemma OperationsStayRepresentable(a: Decimal, b: Decimal, scale: int, mode: Mode, d: Decimal)
    requires Representable(a) && Representable(b)
    requires Ok(d) in {Add(a, b), Subtract(a, b), MultiplyExact(a, b), MultiplyRounded(a, b, scale, mode),
                       Divide(a, b, scale, mode), Round(a, scale, mode), Rescale(a, scale), FromUnits(a.units, scale)}
    ensures Representable(d)
  {
  }
}
