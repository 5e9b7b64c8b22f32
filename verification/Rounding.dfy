/** Integer division with one of four rounding modes, against rounding defined on the exact quotient. */
module Rounding {

  datatype Mode = HalfUp | HalfEven | Down | Up

  function Abs(x: int): nat {
    if x < 0 then -x else x
  }

  /** The quotient of naturals, one larger when the mode takes the remainder away from zero. */
  function RoundedMagnitude(numerator: nat, denominator: nat, mode: Mode): nat
    requires denominator > 0
  {
    var quotient, remainder := numerator / denominator, numerator % denominator;
    var twice := remainder * 2;
    var roundAway :=
      || mode.Up?
      || (mode.HalfUp? && twice >= denominator)
      || (mode.HalfEven? && (twice > denominator || (twice == denominator && quotient % 2 == 1)));
    if remainder != 0 && roundAway then quotient + 1 else quotient
  }

  function RoundedQuotient(dividend: int, divisor: int, mode: Mode): int
    requires divisor != 0
  {
    var magnitude: int := RoundedMagnitude(Abs(dividend), Abs(divisor), mode);
    if (dividend < 0) != (divisor < 0) then -magnitude else magnitude
  }

  // ----- What rounding means -----

  function Magnitude(x: real): real {
    if x < 0.0 then -x else x
  }

  function Distance(x: real, q: int): real {
    Magnitude(x - q as real)
  }

  predicate SameSide(x: real, q: int) {
    (x >= 0.0 && q >= 0) || (x <= 0.0 && q <= 0)
  }

  /**
   `q` is the exact value `x` rounded by the mode: toward zero, away from zero, or to the nearest integer
   with a tie going away from zero or to the even neighbour.
   */
  predicate Rounds(mode: Mode, x: real, q: int) {
    match mode
    case Down => SameSide(x, q) && Abs(q) as real <= Magnitude(x) < Abs(q) as real + 1.0
    case Up => SameSide(x, q) && Abs(q) as real - 1.0 < Magnitude(x) <= Abs(q) as real
    case HalfUp => Distance(x, q) < 0.5 || (Distance(x, q) == 0.5 && Abs(q) as real > Magnitude(x))
    case HalfEven => Distance(x, q) < 0.5 || (Distance(x, q) == 0.5 && q % 2 == 0)
  }

  function Quotient(dividend: int, divisor: int): real
    requires divisor != 0
  {
    dividend as real / divisor as real
  }

  /** No value rounds to two results. */
  lemma RoundsOnce(mode: Mode, x: real, p: int, q: int)
    requires Rounds(mode, x, p) && Rounds(mode, x, q)
    ensures p == q
  {
    RoundsMonotone(mode, x, x, p, q);
    RoundsMonotone(mode, x, x, q, p);
  }

  /** Rounding keeps order. */
  lemma RoundsMonotone(mode: Mode, x: real, y: real, p: int, q: int)
    requires x <= y && Rounds(mode, x, p) && Rounds(mode, y, q)
    ensures p <= q
  {
  }

  lemma RoundsMirrored(mode: Mode, x: real, q: int)
    requires Rounds(mode, x, q)
    ensures Rounds(mode, -x, -q)
  {
  }

  /** A positive factor keeps order and equality. */
  lemma Scale(x: real, y: real, d: real)
    requires d > 0.0
    ensures (x < y) == (x * d < y * d) && (x == y) == (x * d == y * d)
  {
    if x < y {
      assert (y - x) * d > 0.0;
    } else if y < x {
      assert (x - y) * d > 0.0;
    }
  }

  lemma Positive(a: int, d: nat)
    requires d > 0
    ensures (a > 0) == (a * d > 0) && (a == 0) == (a * d == 0)
  {
  }

  lemma IntScale(x: int, y: int, d: nat)
    requires d > 0
    ensures (x < y) == (x * d < y * d) && (x == y) == (x * d == y * d)
  {
    Positive(y - x, d);
    assert (y - x) * d == y * d - x * d;
  }

  lemma QuotientTimes(dividend: int, divisor: int)
    requires divisor != 0
    ensures Quotient(dividend, divisor) * divisor as real == dividend as real
  {
  }

  lemma Division(n: nat, d: nat)
    requires d > 0
    ensures n as real == (n / d) as real * d as real + (n % d) as real
  {
    assert n == (n / d) * d + n % d;
    assert ((n / d) * d) as real == (n / d) as real * d as real;
  }

  /** Comparing a proper fraction with one half is comparing twice its numerator with its denominator. */
  lemma Halfway(f: real, r: nat, d: nat)
    requires d > 0 && f * d as real == r as real
    ensures (f < 0.5) == (2 * r < d) && (f == 0.5) == (2 * r == d)
  {
    Scale(2.0 * f, 1.0, d as real);
    assert (2.0 * f) * d as real == 2.0 * (f * d as real) == (2 * r) as real;
  }

  lemma ProperPart(f: real, r: nat, d: nat)
    requires r < d && f * d as real == r as real
    ensures 0.0 <= f < 1.0 && (f == 0.0) == (r == 0)
  {
    Scale(f, 0.0, d as real);
    Scale(f, 1.0, d as real);
  }

  lemma ProperFraction(r: nat, d: nat) returns (f: real)
    requires r < d
    ensures f == Quotient(r, d) && 0.0 <= f < 1.0 && f * d as real == r as real
    ensures (f == 0.0) == (r == 0)
    ensures (f < 0.5) == (2 * r < d) && (f == 0.5) == (2 * r == d)
  {
    f := Quotient(r, d);
    QuotientTimes(r, d);
    ProperPart(f, r, d);
    Halfway(f, r, d);
  }

  lemma WholeAndFraction(n: nat, d: nat, q: nat, f: real)
    requires d > 0 && n as real == q as real * d as real + f * d as real
    ensures Quotient(n, d) == q as real + f
  {
    QuotientTimes(n, d);
    assert (q as real + f) * d as real == q as real * d as real + f * d as real;
    Scale(Quotient(n, d), q as real + f, d as real);
  }

  /** The exact quotient of naturals is the integer quotient plus a fraction below one. */
  lemma Fraction(n: nat, d: nat) returns (f: real)
    requires d > 0
    ensures Quotient(n, d) == (n / d) as real + f
    ensures 0.0 <= f < 1.0
    ensures (f == 0.0) == (n % d == 0)
    ensures (f < 0.5) == (2 * (n % d) < d) && (f == 0.5) == (2 * (n % d) == d)
  {
    f := ProperFraction(n % d, d);
    Division(n, d);
    WholeAndFraction(n, d, n / d, f);
  }

  lemma NaturalQuotientRounds(n: nat, d: nat, mode: Mode)
    requires d > 0
    ensures Rounds(mode, Quotient(n, d), RoundedMagnitude(n, d, mode))
  {
    var f := Fraction(n, d);
  }

  lemma QuotientSigns(dividend: int, divisor: int)
    requires divisor != 0
    ensures Quotient(dividend, divisor) ==
      if (dividend < 0) != (divisor < 0) then -Quotient(Abs(dividend), Abs(divisor)) else Quotient(Abs(dividend), Abs(divisor))
  {
    var y, d := Quotient(Abs(dividend), Abs(divisor)), Abs(divisor) as real;
    var signed := if (dividend < 0) != (divisor < 0) then -y else y;
    QuotientTimes(dividend, divisor);
    QuotientTimes(Abs(dividend), Abs(divisor));
    assert (-y) * d == -(y * d);
    if divisor < 0 {
      assert Quotient(dividend, divisor) * divisor as real == -(Quotient(dividend, divisor) * d);
    }
    Scale(Quotient(dividend, divisor), signed, d);
  }

  /** The function returns the exact quotient rounded by the mode, for every sign, and nothing else. */
  lemma RoundsExactly(dividend: int, divisor: int, mode: Mode, q: int)
    requires divisor != 0
    ensures RoundedQuotient(dividend, divisor, mode) == q <==> Rounds(mode, Quotient(dividend, divisor), q)
  {
    var m := RoundedMagnitude(Abs(dividend), Abs(divisor), mode);
    NaturalQuotientRounds(Abs(dividend), Abs(divisor), mode);
    QuotientSigns(dividend, divisor);
    RoundsMirrored(mode, Quotient(Abs(dividend), Abs(divisor)), m);
    assert Rounds(mode, Quotient(dividend, divisor), RoundedQuotient(dividend, divisor, mode));
    if Rounds(mode, Quotient(dividend, divisor), q) {
      RoundsOnce(mode, Quotient(dividend, divisor), q, RoundedQuotient(dividend, divisor, mode));
    }
  }

  // ----- Laws -----

  lemma SignSymmetric(dividend: int, divisor: int, mode: Mode)
    requires divisor != 0
    ensures RoundedQuotient(-dividend, divisor, mode) == -RoundedQuotient(dividend, divisor, mode)
    ensures RoundedQuotient(dividend, -divisor, mode) == -RoundedQuotient(dividend, divisor, mode)
  {
    assert Abs(-dividend) == Abs(dividend) && Abs(-divisor) == Abs(divisor);
    ZeroRounds(Abs(divisor), mode);
  }

  lemma SameQuotient(a: int, b: int, c: int, d: int)
    requires b != 0 && d != 0 && a * d == c * b
    ensures Quotient(a, b) == Quotient(c, d)
  {
    var x, y, e, f := Quotient(a, b), Quotient(c, d), b as real, d as real;
    QuotientTimes(a, b);
    QuotientTimes(c, d);
    assert (a * d) as real == a as real * f && (c * b) as real == c as real * e;
    assert x * (e * f) == (x * e) * f == (y * f) * e == y * (e * f);
    if e * f > 0.0 {
      Scale(x, y, e * f);
    } else {
      assert x * -(e * f) == y * -(e * f);
      Scale(x, y, -(e * f));
    }
  }

  lemma SameQuotientRoundsAlike(a: int, b: int, c: int, d: int, mode: Mode)
    requires b != 0 && d != 0 && a * d == c * b
    ensures RoundedQuotient(a, b, mode) == RoundedQuotient(c, d, mode)
  {
    SameQuotient(a, b, c, d);
    RoundsExactly(a, b, mode, RoundedQuotient(a, b, mode));
    RoundsExactly(c, d, mode, RoundedQuotient(a, b, mode));
  }

  /** A common factor in dividend and divisor changes nothing. */
  lemma CommonFactor(dividend: int, divisor: int, factor: int, mode: Mode)
    requires divisor != 0 && factor != 0
    ensures divisor * factor != 0
    ensures RoundedQuotient(dividend * factor, divisor * factor, mode) == RoundedQuotient(dividend, divisor, mode)
  {
    assert (dividend * factor) * divisor == dividend * (divisor * factor);
    SameQuotientRoundsAlike(dividend * factor, divisor * factor, dividend, divisor, mode);
  }

  lemma QuotientMonotone(a: int, b: int, divisor: int)
    requires divisor > 0 && a <= b
    ensures Quotient(a, divisor) <= Quotient(b, divisor)
  {
    QuotientTimes(a, divisor);
    QuotientTimes(b, divisor);
    Scale(Quotient(b, divisor), Quotient(a, divisor), divisor as real);
  }

  lemma Monotone(a: int, b: int, divisor: int, mode: Mode)
    requires divisor > 0 && a <= b
    ensures RoundedQuotient(a, divisor, mode) <= RoundedQuotient(b, divisor, mode)
  {
    QuotientMonotone(a, b, divisor);
    RoundsExactly(a, divisor, mode, RoundedQuotient(a, divisor, mode));
    RoundsExactly(b, divisor, mode, RoundedQuotient(b, divisor, mode));
    RoundsMonotone(mode, Quotient(a, divisor), Quotient(b, divisor),
      RoundedQuotient(a, divisor, mode), RoundedQuotient(b, divisor, mode));
  }

  lemma Regroup(p: int, second: int, first: int)
    ensures (p * second) * first == p * (first * second)
  {
    assert second * first == first * second;
  }

  lemma Nest(a: int, factor: nat, b: int)
    requires a <= b
    ensures a * factor <= b * factor
  {
    assert (b - a) * factor >= 0;
  }

  lemma DownNests(n: int, first: nat, second: nat, inner: int, p: int)
    requires inner * first <= n < (inner + 1) * first && p * second <= inner < (p + 1) * second
    ensures p * (first * second) <= n < (p + 1) * (first * second)
  {
    Nest(p * second, first, inner);
    Nest(inner + 1, first, (p + 1) * second);
    Regroup(p, second, first);
    Regroup(p + 1, second, first);
  }

  lemma UpNests(n: int, first: nat, second: nat, inner: int, p: int)
    requires (inner - 1) * first < n <= inner * first && (p - 1) * second < inner <= p * second
    ensures (p - 1) * (first * second) < n <= p * (first * second)
  {
    Nest(inner, first, p * second);
    Nest((p - 1) * second, first, inner - 1);
    Regroup(p, second, first);
    Regroup(p - 1, second, first);
  }

  lemma TwoStageMagnitudes(n: nat, first: nat, second: nat, both: nat, mode: Mode)
    requires first > 0 && second > 0 && both > 0 && both == first * second && (mode.Down? || mode.Up?)
    ensures RoundedMagnitude(RoundedMagnitude(n, first, mode), second, mode) == RoundedMagnitude(n, both, mode)
  {
    var inner := RoundedMagnitude(n, first, mode);
    var p := RoundedMagnitude(inner, second, mode);
    if mode.Down? {
      Truncates(n, first, inner);
      Truncates(inner, second, p);
      DownNests(n, first, second, inner, p);
      Truncates(n, both, p);
    } else {
      RoundsUp(n, first, inner);
      RoundsUp(inner, second, p);
      UpNests(n, first, second, inner, p);
      RoundsUp(n, both, p);
    }
  }

  /** Truncating, or rounding away from zero, in two stages equals doing it in one. */
  lemma TwoStages(dividend: int, first: nat, second: nat, both: nat, mode: Mode)
    requires first > 0 && second > 0 && both > 0 && both == first * second && (mode.Down? || mode.Up?)
    ensures RoundedQuotient(RoundedQuotient(dividend, first, mode), second, mode) == RoundedQuotient(dividend, both, mode)
  {
    TwoStageMagnitudes(Abs(dividend), first, second, both, mode);
    assert Abs(RoundedQuotient(dividend, first, mode)) == RoundedMagnitude(Abs(dividend), first, mode);
    ZeroRounds(second, mode);
  }

  lemma ZeroRounds(d: nat, mode: Mode)
    requires d > 0
    ensures RoundedMagnitude(0, d, mode) == 0
  {
  }

  lemma OnlyMultipleBelow(n: nat, d: nat, p: int, q: int)
    requires d > 0 && q * d <= n < (q + 1) * d
    ensures p == q <==> p * d <= n < (p + 1) * d
  {
    IntScale(p, q + 1, d);
    IntScale(q, p + 1, d);
  }

  /** Truncation is the only multiple of the divisor within reach from below. */
  lemma Truncates(n: nat, d: nat, p: int)
    requires d > 0
    ensures RoundedMagnitude(n, d, Down) == p <==> p * d <= n < (p + 1) * d
  {
    var q := n / d;
    assert q * d <= n < (q + 1) * d by {
      assert n == q * d + n % d && (q + 1) * d == q * d + d;
    }
    OnlyMultipleBelow(n, d, p, q);
  }

  lemma OnlyMultipleAbove(n: nat, d: nat, p: int, q: int)
    requires d > 0 && (q - 1) * d < n <= q * d
    ensures p == q <==> (p - 1) * d < n <= p * d
  {
    IntScale(p - 1, q, d);
    IntScale(q - 1, p, d);
  }

  lemma RoundsUp(n: nat, d: nat, p: int)
    requires d > 0
    ensures RoundedMagnitude(n, d, Up) == p <==> (p - 1) * d < n <= p * d
  {
    var q := if n % d == 0 then n / d else n / d + 1;
    assert (q - 1) * d < n <= q * d by {
      assert n == (n / d) * d + n % d;
      assert (n / d + 1) * d == (n / d) * d + d && (n / d - 1) * d == (n / d) * d - d;
    }
    OnlyMultipleAbove(n, d, p, q);
  }

  // ----- When the half modes compose -----

  /** By how much twice the remainder stays short of the divisor: zero at a tie, negative past it. */
  function Shortfall(n: nat, d: nat): int
    requires d > 0
  {
    d - 2 * (n % d)
  }

  lemma Remainder(n: nat, d: nat) returns (q: nat, r: nat)
    requires d > 0
    ensures q == n / d && r == n % d && r < d && n == q * d + r
  {
    q, r := n / d, n % d;
  }

  /** The bound for reaching `q`, measured from the quotient `k`. */
  lemma Bound(q: int, k: int, d: nat)
    ensures (2 * q - 1) * d == 2 * (k * d) + (2 * (q - k) - 1) * d
  {
    assert (2 * q - 1) * d == 2 * (q * d) - d;
    assert (2 * (q - k) - 1) * d == 2 * (q * d) - 2 * (k * d) - d;
  }

  lemma FarBounds(j: int, d: nat, r: nat)
    requires r < d
    ensures j <= 0 ==> 2 * r > (2 * j - 1) * d
    ensures j >= 2 ==> 2 * r < (2 * j - 1) * d
  {
    if j <= 0 {
      Nest(2 * j - 1, d, -1);
    } else if j >= 2 {
      Nest(3, d, 2 * j - 1);
    }
  }

  /** Rounding half up reaches `q` from the midpoint below `q` on. */
  lemma HalfUpReaches(n: nat, d: nat, q: int, mid: int)
    requires d > 0 && mid == (2 * q - 1) * d
    ensures RoundedMagnitude(n, d, HalfUp) >= q <==> 2 * n >= mid
  {
    var k, r := Remainder(n, d);
    Bound(q, k, d);
    FarBounds(q - k, d, r);
  }

  /** Rounding half even reaches `q` past the midpoint below `q`, and at it when `q` is even. */
  lemma HalfEvenReaches(n: nat, d: nat, q: int, mid: int)
    requires d > 0 && mid == (2 * q - 1) * d
    ensures RoundedMagnitude(n, d, HalfEven) >= q <==> Past(n, mid, q % 2 == 0)
  {
    var k, r := Remainder(n, d);
    Bound(q, k, d);
    FarBounds(q - k, d, r);
  }

  /** Twice `n` is past the midpoint, or at it when a tie counts. */
  predicate Past(n: nat, mid: int, tie: bool) {
    2 * n > mid || (2 * n == mid && tie)
  }

  /** An odd factor keeps parity. */
  lemma OddTimes(p: int, c: int, product: int)
    requires product == (2 * p - 1) * c
    ensures product % 2 == c % 2
  {
    var twice := p * c - c;
    assert product == 2 * twice + c;
  }

  lemma EvenMultiple(t: int, c: int, second: nat, product: int)
    requires second == 2 * c && product == t * c
    ensures t * second == 2 * product
  {
  }

  lemma EvenInnerMidpoint(t: int, c: int, second: nat, first: nat, both: nat, product: int, lift: int)
    requires second == 2 * c && both == first * second && product == t * c
    ensures (2 * (product + lift) - 1) * first == t * both + (2 * lift - 1) * first
  {
    assert both == 2 * (c * first);
    assert 2 * product * first == t * (2 * (c * first));
  }

  /** The inner result from which an even second stage reaches `p`, and its midpoint. */
  lemma EvenMidpoint(p: int, second: nat, first: nat, both: nat, lift: int) returns (m: int)
    requires second % 2 == 0 && both == first * second && 0 <= lift <= 1
    ensures (2 * p - 1) * second == 2 * (m - lift)
    ensures (2 * m - 1) * first == (2 * p - 1) * both + if lift == 0 then 0 - first else first
    ensures (m - lift) % 2 == (second / 2) % 2
  {
    var c, t := second / 2, 2 * p - 1;
    var product := t * c;
    m := product + lift;
    EvenMultiple(t, c, second, product);
    EvenInnerMidpoint(t, c, second, first, both, product, lift);
    OddTimes(p, c, product);
  }

  lemma OddMultiple(p: int, c: int, second: nat, product: int)
    requires second == 2 * c + 1 && product == (2 * p - 1) * c
    ensures (2 * p - 1) * second == 2 * (product + p) - 1
  {
    assert (2 * p - 1) * (2 * c + 1) == 2 * ((2 * p - 1) * c) + (2 * p - 1);
  }

  lemma SameParity(a: int, b: int, p: int)
    requires a % 2 == b % 2
    ensures (a + p) % 2 == (b + p) % 2
  {
  }

  lemma OddInnerMidpoint(t: int, m: int, second: nat, first: nat, both: nat)
    requires t * second == 2 * m - 1 && both == first * second
    ensures (2 * m - 1) * first == t * both
  {
    Regroup(t, second, first);
  }

  /** The inner result from which an odd second stage reaches `p`, and its midpoint. */
  lemma OddMidpoint(p: int, second: nat, first: nat, both: nat) returns (m: int)
    requires second % 2 == 1 && both == first * second
    ensures (2 * p - 1) * second == 2 * m - 1
    ensures (2 * m - 1) * first == (2 * p - 1) * both
    ensures m % 2 == (second / 2 + p) % 2
  {
    var c, t := second / 2, 2 * p - 1;
    var product := t * c;
    m := product + p;
    OddMultiple(p, c, second, product);
    OddInnerMidpoint(t, m, second, first, both);
    OddTimes(p, c, product);
    SameParity(product, c, p);
  }

  lemma HalfUpTwiceReaches(n: nat, first: nat, second: nat, both: nat, p: int, mid: int)
    requires first > 0 && second > 0 && both == first * second && mid == (2 * p - 1) * both
    ensures RoundedMagnitude(RoundedMagnitude(n, first, HalfUp), second, HalfUp) >= p <==>
      2 * n >= mid - if second % 2 == 0 then first else 0
  {
    var inner := RoundedMagnitude(n, first, HalfUp);
    if second % 2 == 0 {
      var m := EvenMidpoint(p, second, first, both, 0);
      HalfUpReaches(inner, second, p, 2 * m);
      HalfUpReaches(n, first, m, mid - first);
    } else {
      var m := OddMidpoint(p, second, first, both);
      HalfUpReaches(inner, second, p, 2 * m - 1);
      HalfUpReaches(n, first, m, mid);
    }
  }

  /** Whether the inner result from which the second stage reaches `p` is even. */
  predicate InnerIsEven(p: int, second: nat) {
    (p % 2 == 0) == if second % 2 == 1 then second % 4 == 1 else second % 4 == 0
  }

  /** By how much the first stage moves the midpoint below `p`. */
  function Moved(p: int, first: nat, second: nat): int {
    if second % 2 == 1 then 0 else if p % 2 == 0 then 0 - first else first
  }

  lemma ThroughEven(x: int, inner: nat, n: nat, p: int, m: int, lift: int, mid: int, second: nat)
    requires x >= p <==> Past(inner, 2 * (m - lift), p % 2 == 0)
    requires inner >= m <==> Past(n, mid, m % 2 == 0)
    requires second % 2 == 0 && (m - lift) % 2 == (second / 2) % 2 && lift == if p % 2 == 0 then 0 else 1
    ensures x >= p <==> Past(n, mid, InnerIsEven(p, second))
  {
    assert (second / 2) % 2 == 0 <==> second % 4 == 0;
  }

  lemma ThroughOdd(x: int, inner: nat, n: nat, p: int, m: int, mid: int, second: nat)
    requires x >= p <==> Past(inner, 2 * m - 1, p % 2 == 0)
    requires inner >= m <==> Past(n, mid, m % 2 == 0)
    requires second % 2 == 1 && m % 2 == (second / 2 + p) % 2
    ensures x >= p <==> Past(n, mid, InnerIsEven(p, second))
  {
    assert (second / 2) % 2 == 0 <==> second % 4 == 1;
  }

  /** Rounding half even in two stages: where the second stage reaches `p`. */
  lemma HalfEvenTwiceReaches(n: nat, first: nat, second: nat, both: nat, p: int, mid: int)
    requires first > 0 && second > 0 && both == first * second && mid == (2 * p - 1) * both
    ensures RoundedMagnitude(RoundedMagnitude(n, first, HalfEven), second, HalfEven) >= p <==>
      Past(n, mid + Moved(p, first, second), InnerIsEven(p, second))
  {
    var inner := RoundedMagnitude(n, first, HalfEven);
    var x := RoundedMagnitude(inner, second, HalfEven);
    if second % 2 == 0 {
      var lift := if p % 2 == 0 then 0 else 1;
      var m := EvenMidpoint(p, second, first, both, lift);
      HalfEvenReaches(inner, second, p, 2 * (m - lift));
      HalfEvenReaches(n, first, m, mid + Moved(p, first, second));
      ThroughEven(x, inner, n, p, m, lift, mid + Moved(p, first, second), second);
    } else {
      var m := OddMidpoint(p, second, first, both);
      HalfEvenReaches(inner, second, p, 2 * m - 1);
      HalfEvenReaches(n, first, m, mid);
      ThroughOdd(x, inner, n, p, m, mid, second);
    }
  }

  /** Two results that lie in {k, k + 1} agree when they agree about reaching k + 1. */
  lemma AgreeByReach(x: int, y: int, k: int)
    requires k <= x < k + 2 && k <= y < k + 2
    ensures x == y <==> (x >= k + 1 <==> y >= k + 1)
  {
  }

  /** The midpoints below k, k + 1 and k + 2, for the integer quotient k. */
  lemma Midpoints(n: nat, both: nat) returns (k: nat, low: int, mid: int, high: int)
    requires 0 < both
    ensures k == n / both && low == (2 * k - 1) * both && mid == (2 * (k + 1) - 1) * both && high == (2 * (k + 2) - 1) * both
    ensures mid == 2 * n + Shortfall(n, both)
    ensures low + both <= 2 * n < high - both
  {
    var r;
    k, r := Remainder(n, both);
    low, mid, high := (2 * k - 1) * both, (2 * (k + 1) - 1) * both, (2 * (k + 2) - 1) * both;
    Bound(k + 1, k, both);
    Bound(k, k, both);
    Bound(k + 2, k, both);
  }

  lemma FactorBounds(first: nat, second: nat, both: nat)
    requires first > 0 && second > 0 && both == first * second
    ensures first <= both
  {
    Nest(1, second, first);
  }

  lemma HalfUpMagnitudeStages(n: nat, first: nat, second: nat, both: nat)
    requires first > 0 && second > 0 && both > 0 && both == first * second
    ensures RoundedMagnitude(RoundedMagnitude(n, first, HalfUp), second, HalfUp) == RoundedMagnitude(n, both, HalfUp)
      <==> !(second % 2 == 0 && 0 < Shortfall(n, both) <= first)
  {
    FactorBounds(first, second, both);
    var k, low, mid, high := Midpoints(n, both);
    HalfUpTwiceReaches(n, first, second, both, k, low);
    HalfUpTwiceReaches(n, first, second, both, k + 1, mid);
    HalfUpTwiceReaches(n, first, second, both, k + 2, high);
    HalfUpReaches(n, both, k + 1, mid);
    AgreeByReach(RoundedMagnitude(RoundedMagnitude(n, first, HalfUp), second, HalfUp), RoundedMagnitude(n, both, HalfUp), k);
  }

  /** When rounding half even in two stages misses the result of one stage. */
  predicate HalfEvenStagesDiffer(n: nat, first: nat, second: nat, both: nat)
    requires both > 0
  {
    var e := Shortfall(n, both);
    if second % 2 == 1 then e == 0 && second % 4 == 3
    else
      && e != 0 && (e > 0 <==> (n / both) % 2 == 1)
      && (Abs(e) < first || (Abs(e) == first && second % 4 == 0))
  }

  /** Reaching k + 1 in one stage and in two differs exactly under the condition. */
  lemma HalfEvenReachesApart(n: nat, first: nat, second: nat, both: nat, k: nat, mid: int)
    requires first > 0 && both > 0 && k == n / both && mid == 2 * n + Shortfall(n, both)
    ensures (Past(n, mid, (k + 1) % 2 == 0) <==> Past(n, mid + Moved(k + 1, first, second), InnerIsEven(k + 1, second)))
      <==> !HalfEvenStagesDiffer(n, first, second, both)
  {
    var e := Shortfall(n, both);
    assert (k + 1) % 2 == 0 <==> k % 2 == 1;
  }

  lemma HalfEvenMagnitudeStages(n: nat, first: nat, second: nat, both: nat)
    requires first > 0 && second > 0 && both > 0 && both == first * second
    ensures RoundedMagnitude(RoundedMagnitude(n, first, HalfEven), second, HalfEven) == RoundedMagnitude(n, both, HalfEven)
      <==> !HalfEvenStagesDiffer(n, first, second, both)
  {
    FactorBounds(first, second, both);
    var k, low, mid, high := Midpoints(n, both);
    HalfEvenTwiceReaches(n, first, second, both, k, low);
    HalfEvenTwiceReaches(n, first, second, both, k + 1, mid);
    HalfEvenTwiceReaches(n, first, second, both, k + 2, high);
    HalfEvenReaches(n, both, k + 1, mid);
    HalfEvenReachesApart(n, first, second, both, k, mid);
    AgreeByReach(RoundedMagnitude(RoundedMagnitude(n, first, HalfEven), second, HalfEven), RoundedMagnitude(n, both, HalfEven), k);
  }

  lemma StagesOfMagnitudes(dividend: int, first: nat, second: nat, both: nat, mode: Mode)
    requires first > 0 && second > 0 && both > 0
    ensures RoundedQuotient(RoundedQuotient(dividend, first, mode), second, mode) == RoundedQuotient(dividend, both, mode) <==>
      RoundedMagnitude(RoundedMagnitude(Abs(dividend), first, mode), second, mode) == RoundedMagnitude(Abs(dividend), both, mode)
  {
    assert Abs(RoundedQuotient(dividend, first, mode)) == RoundedMagnitude(Abs(dividend), first, mode);
    ZeroRounds(second, mode);
  }

  /**
   Rounding half up in two stages misses the result of one stage exactly when the second divisor is even
   and the exact quotient lies short of a tie by no more than half a unit of the first stage.
   */
  lemma HalfUpStages(dividend: int, first: nat, second: nat, both: nat)
    requires first > 0 && second > 0 && both > 0 && both == first * second
    ensures RoundedQuotient(RoundedQuotient(dividend, first, HalfUp), second, HalfUp) == RoundedQuotient(dividend, both, HalfUp)
      <==> !(second % 2 == 0 && 0 < Shortfall(Abs(dividend), both) <= first)
  {
    HalfUpMagnitudeStages(Abs(dividend), first, second, both);
    StagesOfMagnitudes(dividend, first, second, both, HalfUp);
  }

  /**
   Rounding half even in two stages misses the result of one stage exactly at a tie when the second
   divisor is three above a multiple of four, or, when it is even, close enough to a tie that the first
   stage moves onto it and on the side that the tie then leaves.
   */
  lemma HalfEvenStages(dividend: int, first: nat, second: nat, both: nat)
    requires first > 0 && second > 0 && both > 0 && both == first * second
    ensures RoundedQuotient(RoundedQuotient(dividend, first, HalfEven), second, HalfEven) == RoundedQuotient(dividend, both, HalfEven)
      <==> !HalfEvenStagesDiffer(Abs(dividend), first, second, both)
  {
    HalfEvenMagnitudeStages(Abs(dividend), first, second, both);
    StagesOfMagnitudes(dividend, first, second, both, HalfEven);
  }

  /** An instance for each half mode: 0.45 by way of 0.5 becomes 1, directly 0. */
  lemma HalfModesDoNotStage()
    ensures RoundedQuotient(RoundedQuotient(45, 10, HalfUp), 10, HalfUp) != RoundedQuotient(45, 100, HalfUp)
    ensures RoundedQuotient(RoundedQuotient(149, 10, HalfEven), 10, HalfEven) != RoundedQuotient(149, 100, HalfEven)
  {
  }
}
