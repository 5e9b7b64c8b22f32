/**
 Proration by actual days: an amount times the used days over the days of the period, rounded once.
 The main results bound what is gained or lost when a period is split into adjacent intervals.
 */
module Proration {
  import opened Wrappers
  import opened Rounding
  import opened Decimal
  import opened Ordering
  import opened CivilDays

  datatype Refusal = InvalidDate | EndsBeforeStart | EmptyPeriod | OutsidePeriod | TooManyDigits

  datatype Interval = Interval(start: Text, end: Text)

  /** The day numbers of an interval's ends, each absent when its date is refused. */
  datatype Span = Span(start: Option<int>, end: Option<int>)

  ghost function SpanOf(interval: Interval): Span {
    Span(DayNumber(interval.start), DayNumber(interval.end))
  }

  /** Whole days of a half-open interval. */
  function DaysIn(span: Span): Result<nat, Refusal> {
    if span.start.None? || span.end.None? then Err(InvalidDate)
    else if span.end.value < span.start.value then Err(EndsBeforeStart)
    else Ok(span.end.value - span.start.value)
  }

  ghost function DaysBetween(interval: Interval): Result<nat, Refusal> {
    DaysIn(SpanOf(interval))
  }

  /** The amount is at its currency's minor unit, and so is the result. */
  function ProrateSpan(amount: Decimal, used: Span, period: Span, mode: Mode): Result<Decimal, Refusal> {
    var periodDays, usedDays := DaysIn(period), DaysIn(used);
    if periodDays.Err? then Err(periodDays.error)
    else if usedDays.Err? then Err(usedDays.error)
    else if periodDays.value == 0 then Err(EmptyPeriod)
    else if used.start.value < period.start.value || used.end.value > period.end.value then Err(OutsidePeriod)
    else ProrateDays(amount, usedDays.value, periodDays.value, mode)
  }

  /** Multiplied exactly by the used days, then divided by the days of the period. */
  function ProrateDays(amount: Decimal, used: nat, period: nat, mode: Mode): Result<Decimal, Refusal> {
    var exact := MultiplyExact(amount, Decimal(used, 0));
    if exact.Err? then Err(TooManyDigits)
    else
      var rounded := Divide(exact.value, Decimal(period, 0), amount.scale, mode);
      if rounded.Err? then Err(TooManyDigits) else Ok(rounded.value)
  }

  ghost function Prorate(amount: Decimal, used: Interval, period: Interval, mode: Mode): Result<Decimal, Refusal> {
    ProrateSpan(amount, SpanOf(used), SpanOf(period), mode)
  }

  // ----- One rounding of amount * used / period -----

  lemma DivideAtOwnScale(d: Decimal, days: nat, mode: Mode)
    requires d.scale <= MAX_SCALE && days > 0
    ensures Divide(d, Decimal(days, 0), d.scale, mode) == Make(RoundedQuotient(d.units, days, mode), d.scale)
  {
    CommonFactor(d.units, days, Pow10(d.scale), mode);
  }

  lemma AbsTimes(x: int, factor: nat)
    ensures Abs(x * factor) == Abs(x) * factor
  {
    Nest(0, factor, Abs(x));
    assert (-x) * factor == -(x * factor);
  }

  lemma RoundedWithin(n: nat, bound: nat, d: nat, mode: Mode)
    requires d > 0 && n <= bound * d
    ensures RoundedMagnitude(n, d, mode) <= bound
  {
    var q := n / d;
    assert n == q * d + n % d;
    if q >= bound {
      IntScale(bound, q, d);
      IntScale(q, bound, d);
    }
  }

  lemma NoLargerThanAmount(units: int, used: nat, period: nat, mode: Mode, product: int)
    requires 0 < period && used <= period && product == units * used
    ensures Abs(RoundedQuotient(product, period, mode)) <= Abs(units)
  {
    AbsTimes(units, used);
    assert Abs(units) * period - Abs(units) * used == Abs(units) * (period - used) >= 0;
    RoundedWithin(Abs(product), Abs(units), period, mode);
  }

  /**
   Proration rounds the exact share once, from the day counts alone. It is refused only when the
   exact product has more digits than a decimal may have.
   */
  lemma ProratesOnce(amount: Decimal, used: nat, period: nat, mode: Mode, product: int)
    requires Representable(amount) && used <= period && period > 0 && product == amount.units * used
    ensures ProrateDays(amount, used, period, mode) ==
      if Abs(product) < Pow10(MAX_PRECISION)
      then Ok(Decimal(RoundedQuotient(product, period, mode), amount.scale))
      else Err(TooManyDigits)
  {
    MakeFits(product, amount.scale);
    if Abs(product) < Pow10(MAX_PRECISION) {
      DivideAtOwnScale(Decimal(product, amount.scale), period, mode);
      NoLargerThanAmount(amount.units, used, period, mode, product);
      DigitCountFits(Abs(amount.units), MAX_PRECISION);
      MakeFits(RoundedQuotient(product, period, mode), amount.scale);
    }
  }

  predicate Dated(span: Span) {
    span.start.Some? && span.end.Some?
  }

  /** The period runs forward over at least a day, and the used interval runs forward within it. */
  predicate Within(used: Span, period: Span)
    requires Dated(used) && Dated(period)
  {
    period.start.value < period.end.value && period.start.value <= used.start.value <= used.end.value <= period.end.value
  }

  lemma ProratesWithin(amount: Decimal, used: Span, period: Span, mode: Mode, days: nat, product: int)
    requires Representable(amount) && Dated(used) && Dated(period) && Within(used, period)
    requires days == used.end.value - used.start.value && product == amount.units * days
    ensures ProrateSpan(amount, used, period, mode) == ProrateDays(amount, days, period.end.value - period.start.value, mode)
    ensures ProrateSpan(amount, used, period, mode).Ok? <==> Abs(product) < Pow10(MAX_PRECISION)
  {
    ProratesOnce(amount, days, period.end.value - period.start.value, mode, product);
  }

  lemma ProratesOnlyWithin(amount: Decimal, used: Span, period: Span, mode: Mode)
    requires ProrateSpan(amount, used, period, mode).Ok?
    ensures Dated(used) && Dated(period) && Within(used, period)
  {
  }

  /** A proration is accepted exactly for dated intervals, one within the other, unless the product is too long. */
  lemma ProrationAccepted(amount: Decimal, used: Span, period: Span, mode: Mode)
    requires Representable(amount)
    ensures ProrateSpan(amount, used, period, mode).Ok? <==>
      && Dated(used) && Dated(period) && Within(used, period)
      && Abs(amount.units * (used.end.value - used.start.value)) < Pow10(38)
  {
    if Dated(used) && Dated(period) && Within(used, period) {
      var days := used.end.value - used.start.value;
      ProratesWithin(amount, used, period, mode, days, amount.units * days);
    } else if ProrateSpan(amount, used, period, mode).Ok? {
      ProratesOnlyWithin(amount, used, period, mode);
    }
  }

  /** The first fault in this order is reported: the period's dates, the used dates, an empty period, days outside it. */
  lemma ProrationRefused(amount: Decimal, used: Span, period: Span, mode: Mode)
    requires Representable(amount)
    ensures ProrateSpan(amount, used, period, mode) == Err(InvalidDate) <==>
      !Dated(period) || (period.start.value <= period.end.value && !Dated(used))
    ensures Dated(period) && Dated(used) ==>
      (ProrateSpan(amount, used, period, mode) == Err(EndsBeforeStart)
       <==> period.end.value < period.start.value || used.end.value < used.start.value)
    ensures Dated(period) && Dated(used) ==>
      (ProrateSpan(amount, used, period, mode) == Err(EmptyPeriod)
       <==> period.end.value == period.start.value && used.start.value <= used.end.value)
    ensures Dated(period) && Dated(used) ==>
      (ProrateSpan(amount, used, period, mode) == Err(OutsidePeriod)
       <==> period.start.value < period.end.value && used.start.value <= used.end.value
            && (used.start.value < period.start.value || period.end.value < used.end.value))
  {
  }

  /** The same from dates: what an accepted proration returns. */
  lemma ProratesDates(amount: Decimal, used: Span, period: Span, mode: Mode, d: Decimal)
    requires Representable(amount) && ProrateSpan(amount, used, period, mode) == Ok(d)
    ensures DaysIn(used).Ok? && DaysIn(period).Ok? && DaysIn(period).value > 0
    ensures d == Decimal(RoundedQuotient(amount.units * DaysIn(used).value, DaysIn(period).value, mode), amount.scale)
  {
    ProratesOnce(amount, DaysIn(used).value, DaysIn(period).value, mode, amount.units * DaysIn(used).value);
  }

  // ----- Consequences for one part -----

  lemma FullQuotient(units: int, days: nat, mode: Mode)
    requires days > 0
    ensures RoundedQuotient(units * days, days, mode) == units
  {
    assert 1 * days == days;
    CommonFactor(units, 1, days, mode);
  }

  /** Proration over the whole period gives the amount back. */
  lemma FullPeriod(amount: Decimal, period: Interval, mode: Mode, d: Decimal)
    requires Representable(amount) && Prorate(amount, period, period, mode) == Ok(d)
    ensures d == amount
  {
    ProratesDates(amount, SpanOf(period), SpanOf(period), mode, d);
    FullQuotient(amount.units, DaysIn(SpanOf(period)).value, mode);
  }

  lemma SignedMagnitude(x: int, days: nat, mode: Mode)
    requires days > 0
    ensures Abs(RoundedQuotient(x, days, mode)) == RoundedMagnitude(Abs(x), days, mode)
  {
  }

  lemma MagnitudesGrow(units: int, fewer: nat, more: nat, days: nat, mode: Mode)
    requires days > 0 && fewer <= more
    ensures Abs(RoundedQuotient(units * fewer, days, mode)) <= Abs(RoundedQuotient(units * more, days, mode))
  {
    AbsTimes(units, fewer);
    AbsTimes(units, more);
    assert Abs(units) * more - Abs(units) * fewer == Abs(units) * (more - fewer) >= 0;
    Monotone(Abs(units * fewer), Abs(units * more), days, mode);
    SignedMagnitude(units * fewer, days, mode);
    SignedMagnitude(units * more, days, mode);
  }

  /** More used days never prorate to less, in magnitude. */
  lemma MoreDaysNoLess(amount: Decimal, shorter: Span, longer: Span, period: Span, mode: Mode, x: Decimal, y: Decimal)
    requires Representable(amount)
    requires ProrateSpan(amount, shorter, period, mode) == Ok(x) && ProrateSpan(amount, longer, period, mode) == Ok(y)
    requires DaysIn(shorter).Ok? && DaysIn(longer).Ok? && DaysIn(shorter).value <= DaysIn(longer).value
    ensures Abs(x.units) <= Abs(y.units)
  {
    ProratesDates(amount, shorter, period, mode, x);
    ProratesDates(amount, longer, period, mode, y);
    MagnitudesGrow(amount.units, DaysIn(shorter).value, DaysIn(longer).value, DaysIn(period).value, mode);
  }

  // ----- Splitting a period -----

  /** Part `i` is the proration of the interval from day `i` to the next, over the period from the first day to the last. */
  predicate SpanProrated(amount: Decimal, days: seq<Option<int>>, mode: Mode, parts: seq<Decimal>, i: nat)
    requires |days| == |parts| + 1 && i < |parts|
  {
    ProrateSpan(amount, Span(days[i], days[i + 1]), Span(days[0], days[|parts|]), mode) == Ok(parts[i])
  }

  predicate SplitSpans(amount: Decimal, days: seq<Option<int>>, mode: Mode, parts: seq<Decimal>) {
    |days| == |parts| + 1 >= 2 && forall i :: 0 <= i < |parts| ==> SpanProrated(amount, days, mode, parts, i)
  }

  /** The same for dates as written. */
  ghost predicate DateProrated(amount: Decimal, dates: seq<Text>, mode: Mode, parts: seq<Decimal>, i: nat)
    requires |dates| == |parts| + 1 && i < |parts|
  {
    Prorate(amount, Interval(dates[i], dates[i + 1]), Interval(dates[0], dates[|parts|]), mode) == Ok(parts[i])
  }

  ghost predicate SplitDates(amount: Decimal, dates: seq<Text>, mode: Mode, parts: seq<Decimal>) {
    |dates| == |parts| + 1 >= 2 && forall i :: 0 <= i < |parts| ==> DateProrated(amount, dates, mode, parts, i)
  }

  function Units(parts: seq<Decimal>): int {
    if parts == [] then 0 else Units(parts[..|parts| - 1]) + parts[|parts| - 1].units
  }

  /** One rounding of `amount * used / length`. */
  predicate OneRounding(amount: int, used: int, length: int, mode: Mode, q: int) {
    used >= 0 && length > 0 && q == RoundedQuotient(amount * used, length, mode)
  }

  predicate PartRounds(amount: int, n: seq<int>, mode: Mode, parts: seq<Decimal>, i: nat)
    requires |n| == |parts| + 1 && i < |parts|
  {
    OneRounding(amount, n[i + 1] - n[i], n[|parts|] - n[0], mode, parts[i].units)
  }

  /** Day numbers `n` along which every part rounds its own share of the length from the first to the last. */
  predicate RoundsAlong(amount: int, n: seq<int>, mode: Mode, parts: seq<Decimal>) {
    |n| == |parts| + 1 >= 2 && forall i :: 0 <= i < |parts| ==> PartRounds(amount, n, mode, parts, i)
  }

  lemma SpanRounds(amount: Decimal, days: seq<Option<int>>, mode: Mode, parts: seq<Decimal>, i: nat)
    requires Representable(amount) && |days| == |parts| + 1 && i < |parts| && SpanProrated(amount, days, mode, parts, i)
    ensures days[i].Some? && days[i + 1].Some? && days[0].Some? && days[|parts|].Some?
    ensures OneRounding(amount.units, days[i + 1].value - days[i].value, days[|parts|].value - days[0].value, mode, parts[i].units)
  {
    ProratesDates(amount, Span(days[i], days[i + 1]), Span(days[0], days[|parts|]), mode, parts[i]);
  }

  lemma SplitRounds(amount: Decimal, days: seq<Option<int>>, mode: Mode, parts: seq<Decimal>) returns (n: seq<int>)
    requires Representable(amount) && SplitSpans(amount, days, mode, parts)
    ensures RoundsAlong(amount.units, n, mode, parts)
  {
    forall i | 0 <= i < |days|
      ensures days[i].Some?
    {
      SpanRounds(amount, days, mode, parts, if i < |parts| then i else i - 1);
    }
    n := seq(|days|, i requires 0 <= i < |days| => days[i].value);
    forall i | 0 <= i < |parts|
      ensures PartRounds(amount.units, n, mode, parts, i)
    {
      SpanRounds(amount, days, mode, parts, i);
    }
  }

  lemma HalfError(dividend: int, divisor: nat, mode: Mode, q: int)
    requires divisor > 0 && (mode.HalfUp? || mode.HalfEven?) && q == RoundedQuotient(dividend, divisor, mode)
    ensures Abs(2 * (q * divisor - dividend)) <= divisor
  {
    var m, n := RoundedMagnitude(Abs(dividend), divisor, mode), Abs(dividend);
    assert n == (n / divisor) * divisor + n % divisor;
    assert (n / divisor + 1) * divisor == (n / divisor) * divisor + divisor;
    assert m * divisor - n == -(-m * divisor + n);
  }

  lemma DownError(dividend: nat, divisor: nat, q: int)
    requires divisor > 0 && q == RoundedQuotient(dividend, divisor, Down)
    ensures 0 <= dividend - q * divisor < divisor
  {
    assert dividend == (dividend / divisor) * divisor + dividend % divisor;
  }

  /** What parts summing to `sum` gain over their exact share of `used` days, times the length. */
  function Gain(sum: int, length: int, amount: int, used: int): int {
    sum * length - amount * used
  }

  lemma GainAdds(sum: int, q: int, length: int, amount: int, before: int, used: int)
    ensures Gain(sum + q, length, amount, before + used) == Gain(sum, length, amount, before) + Gain(q, length, amount, used)
  {
    assert (sum + q) * length == sum * length + q * length && amount * (before + used) == amount * before + amount * used;
  }

  /** The gain of the first k parts, and of one part. */
  function GainUpTo(amount: int, n: seq<int>, parts: seq<Decimal>, length: int, k: nat): int
    requires |n| == |parts| + 1 && k <= |parts|
  {
    Gain(Units(parts[..k]), length, amount, n[k] - n[0])
  }

  function PartGain(amount: int, n: seq<int>, parts: seq<Decimal>, length: int, i: nat): int
    requires |n| == |parts| + 1 && i < |parts|
  {
    Gain(parts[i].units, length, amount, n[i + 1] - n[i])
  }

  lemma GainStep(amount: int, n: seq<int>, parts: seq<Decimal>, length: int, k: nat)
    requires |n| == |parts| + 1 && k < |parts|
    ensures GainUpTo(amount, n, parts, length, k + 1) == GainUpTo(amount, n, parts, length, k) + PartGain(amount, n, parts, length, k)
  {
    assert parts[..k + 1][..k] == parts[..k];
    GainAdds(Units(parts[..k]), parts[k].units, length, amount, n[k] - n[0], n[k + 1] - n[k]);
  }

  /** At most one half of a unit, either way, for each of k parts. */
  predicate WithinHalves(gain: int, k: int, length: int) {
    Abs(2 * gain) <= k * length
  }

  lemma HalvesAdd(gain: int, next: int, k: int, length: int)
    requires WithinHalves(gain, k - 1, length) && Abs(2 * next) <= length
    ensures WithinHalves(gain + next, k, length)
  {
    assert k * length == (k - 1) * length + length;
  }

  lemma PartHalfError(amount: int, n: seq<int>, mode: Mode, parts: seq<Decimal>, i: nat, length: nat)
    requires RoundsAlong(amount, n, mode, parts) && (mode.HalfUp? || mode.HalfEven?)
    requires i < |parts| && length == n[|parts|] - n[0]
    ensures Abs(2 * PartGain(amount, n, parts, length, i)) <= length
  {
    assert PartRounds(amount, n, mode, parts, i);
    HalfError(amount * (n[i + 1] - n[i]), length, mode, parts[i].units);
  }

  lemma {:induction false} HalfErrors(amount: int, n: seq<int>, mode: Mode, parts: seq<Decimal>, k: nat, length: nat)
    requires RoundsAlong(amount, n, mode, parts) && (mode.HalfUp? || mode.HalfEven?)
    requires k <= |parts| && length == n[|parts|] - n[0]
    ensures WithinHalves(GainUpTo(amount, n, parts, length, k), k, length)
  {
    if k > 0 {
      HalfErrors(amount, n, mode, parts, k - 1, length);
      PartHalfError(amount, n, mode, parts, k - 1, length);
      GainStep(amount, n, parts, length, k - 1);
      HalvesAdd(GainUpTo(amount, n, parts, length, k - 1), PartGain(amount, n, parts, length, k - 1), k, length);
    }
  }

  lemma GainOfAll(sum: int, length: int, amount: int)
    ensures Gain(sum, length, amount, length) == (sum - amount) * length
  {
  }

  lemma BoundScales(difference: int, length: nat, k: nat)
    requires length > 0 && WithinHalves(difference * length, k, length)
    ensures Abs(2 * difference) <= k
  {
    assert (2 * difference) * length == 2 * (difference * length);
    AbsTimes(2 * difference, length);
    IntScale(k, Abs(2 * difference), length);
  }

  lemma HalvesOfSplit(amount: int, n: seq<int>, mode: Mode, parts: seq<Decimal>)
    requires RoundsAlong(amount, n, mode, parts) && (mode.HalfUp? || mode.HalfEven?)
    ensures Abs(2 * (Units(parts) - amount)) <= |parts|
  {
    var length := n[|parts|] - n[0];
    assert PartRounds(amount, n, mode, parts, 0);
    HalfErrors(amount, n, mode, parts, |parts|, length);
    assert parts[..|parts|] == parts;
    GainOfAll(Units(parts), length, amount);
    BoundScales(Units(parts) - amount, length, |parts|);
  }

  /** With a half mode the parts of any split into k intervals sum to within k / 2 units of the amount. */
  lemma SplitNearAmount(amount: Decimal, dates: seq<Text>, mode: Mode, parts: seq<Decimal>)
    requires Representable(amount) && SplitDates(amount, dates, mode, parts) && (mode.HalfUp? || mode.HalfEven?)
    ensures Abs(2 * (Units(parts) - amount.units)) <= |parts|
  {
    var n := DatesRound(amount, dates, mode, parts);
    HalvesOfSplit(amount.units, n, mode, parts);
  }

  lemma DatesRound(amount: Decimal, dates: seq<Text>, mode: Mode, parts: seq<Decimal>) returns (n: seq<int>)
    requires Representable(amount) && SplitDates(amount, dates, mode, parts)
    ensures RoundsAlong(amount.units, n, mode, parts)
  {
    var days := seq(|dates|, i requires 0 <= i < |dates| => DayNumber(dates[i]));
    forall i | 0 <= i < |parts|
      ensures SpanProrated(amount, days, mode, parts, i)
    {
      assert DateProrated(amount, dates, mode, parts, i);
    }
    n := SplitRounds(amount, days, mode, parts);
  }

  /** Nothing gained, and less than one unit lost for each of k parts. */
  predicate FallsShort(gain: int, k: int, length: int) {
    gain <= 0 && (k > 0 ==> gain > -(k * length))
  }

  lemma ShortfallsAdd(gain: int, next: int, k: int, length: int)
    requires k > 0 && FallsShort(gain, k - 1, length) && 0 - length < next <= 0
    requires k == 1 ==> gain == 0
    ensures FallsShort(gain + next, k, length)
  {
    assert k * length == (k - 1) * length + length;
  }

  lemma PartDownError(amount: nat, n: seq<int>, parts: seq<Decimal>, i: nat, length: nat)
    requires RoundsAlong(amount, n, Down, parts) && i < |parts| && length == n[|parts|] - n[0]
    ensures 0 >= PartGain(amount, n, parts, length, i) > 0 - length
  {
    assert PartRounds(amount, n, Down, parts, i);
    Nest(0, n[i + 1] - n[i], amount);
    DownError(amount * (n[i + 1] - n[i]), length, parts[i].units);
  }

  lemma {:induction false} DownErrors(amount: nat, n: seq<int>, parts: seq<Decimal>, k: nat, length: nat)
    requires RoundsAlong(amount, n, Down, parts)
    requires k <= |parts| && length == n[|parts|] - n[0]
    ensures FallsShort(GainUpTo(amount, n, parts, length, k), k, length)
    ensures k == 0 ==> GainUpTo(amount, n, parts, length, k) == 0
  {
    if k > 0 {
      DownErrors(amount, n, parts, k - 1, length);
      PartDownError(amount, n, parts, k - 1, length);
      GainStep(amount, n, parts, length, k - 1);
      ShortfallsAdd(GainUpTo(amount, n, parts, length, k - 1), PartGain(amount, n, parts, length, k - 1), k, length);
    }
  }

  lemma ShortfallOfSplit(amount: nat, n: seq<int>, parts: seq<Decimal>)
    requires RoundsAlong(amount, n, Down, parts)
    ensures 0 <= amount - Units(parts) < |parts|
  {
    var length := n[|parts|] - n[0];
    assert PartRounds(amount, n, Down, parts, 0);
    DownErrors(amount, n, parts, |parts|, length);
    assert parts[..|parts|] == parts;
    GainOfAll(Units(parts), length, amount);
    ShortfallScales(Units(parts) - amount, length, |parts|);
  }

  /** Truncating a non-negative amount over k intervals loses less than k units and gains none. */
  lemma SplitDownFallsShort(amount: Decimal, dates: seq<Text>, parts: seq<Decimal>)
    requires Representable(amount) && SplitDates(amount, dates, Down, parts) && amount.units >= 0
    ensures 0 <= amount.units - Units(parts) < |parts|
  {
    var n := DatesRound(amount, dates, Down, parts);
    ShortfallOfSplit(amount.units, n, parts);
  }

  lemma ShortfallScales(gain: int, length: nat, k: nat)
    requires length > 0 && k > 0 && FallsShort(gain * length, k, length)
    ensures 0 <= -gain < k
  {
    assert (-gain) * length == -(gain * length);
    IntScale(-gain, k, length);
    IntScale(-gain, 0, length);
  }

  /** Days add up: an interval's days are those up to a day within it and those from there. */
  lemma DaysAdd(start: Option<int>, middle: Option<int>, end: Option<int>)
    requires DaysIn(Span(start, middle)).Ok? && DaysIn(Span(middle, end)).Ok?
    ensures DaysIn(Span(start, end)) == Ok(DaysIn(Span(start, middle)).value + DaysIn(Span(middle, end)).value)
  {
  }

  /** An interval of one date to the next on the calendar is one day. */
  lemma NextDateIsOneDay(start: Text, end: Text)
    requires DayNumber(start).Some? && DayNumber(end).Some? && Spelled(end) == Tomorrow(Spelled(start))
    ensures DaysBetween(Interval(start, end)) == Ok(1)
  {
    AcceptedDates(start);
    AcceptedDates(end);
    TomorrowIsNext(Spelled(start));
  }
}
