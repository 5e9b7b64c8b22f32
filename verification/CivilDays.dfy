/**
 Civil dates and their day numbers, as section 21.4.1 of ECMA-262 computes them, and the check by
 which the program refuses an impossible date: the day number must read back as the date written.
 */
module CivilDays {
  import opened Wrappers
  import opened Ordering
  import opened Digits

  /** A year, a month from 1 and a day of the month from 1. */
  datatype Civil = Civil(year: int, month: int, day: int)

  predicate Leap(year: int) {
    year % 4 == 0 && (year % 100 != 0 || year % 400 == 0)
  }

  function DayFromYear(year: int): int {
    365 * (year - 1970) + (year - 1969) / 4 - (year - 1901) / 100 + (year - 1601) / 400
  }

  function DaysInYear(year: int): int {
    if Leap(year) then 366 else 365
  }

  function DaysInMonth(year: int, month: int): int {
    if month == 2 then (if Leap(year) then 29 else 28)
    else if month in {4, 6, 9, 11} then 30
    else 31
  }

  /** The first day of a month, counted from the start of its year. */
  function MonthStart(year: int, month: int): int
    requires 1 <= month <= 13
    decreases month
  {
    if month == 1 then 0 else MonthStart(year, month - 1) + DaysInMonth(year, month - 1)
  }

  predicate Valid(c: Civil) {
    1 <= c.month <= 12 && 1 <= c.day <= DaysInMonth(c.year, c.month)
  }

  function DayOf(c: Civil): int
    requires 1 <= c.month <= 12
  {
    DayFromYear(c.year) + MonthStart(c.year, c.month) + c.day - 1
  }

  // ----- Reading a day number back -----

  function Divides(d: nat, year: int): int
    requires d > 0
  {
    if year % d == 0 then 1 else 0
  }

  lemma FourthYear(year: int, before: int, after: int)
    requires before == (year - 1969) / 4 && after == (year + 1 - 1969) / 4
    ensures after == before + Divides(4, year)
  {
  }

  lemma HundredthYear(year: int, before: int, after: int)
    requires before == (year - 1901) / 100 && after == (year + 1 - 1901) / 100
    ensures after == before + Divides(100, year)
  {
  }

  lemma FourHundredthYear(year: int, before: int, after: int)
    requires before == (year - 1601) / 400 && after == (year + 1 - 1601) / 400
    ensures after == before + Divides(400, year)
  {
  }

  lemma LeapDay(year: int, fourth: int, hundredth: int, fourHundredth: int)
    requires fourth == Divides(4, year) && hundredth == Divides(100, year) && fourHundredth == Divides(400, year)
    ensures DaysInYear(year) == 365 + fourth - hundredth + fourHundredth
  {
    if year % 400 == 0 {
      assert year % 100 == 0;
    }
    if year % 100 == 0 {
      assert year % 4 == 0;
    }
  }

  /** Years are 365 days, or 366 when leap. */
  lemma YearLength(year: int)
    ensures DayFromYear(year + 1) - DayFromYear(year) == DaysInYear(year)
  {
    FourthYear(year, (year - 1969) / 4, (year + 1 - 1969) / 4);
    HundredthYear(year, (year - 1901) / 100, (year + 1 - 1901) / 100);
    FourHundredthYear(year, (year - 1601) / 400, (year + 1 - 1601) / 400);
    LeapDay(year, Divides(4, year), Divides(100, year), Divides(400, year));
  }

  lemma {:induction false} YearsGrow(a: int, b: int)
    requires a <= b
    ensures DayFromYear(b) - DayFromYear(a) >= 365 * (b - a)
    decreases b - a
  {
    if a < b {
      YearsGrow(a, b - 1);
      YearLength(b - 1);
    }
  }

  lemma YearLengthIsMonths(year: int)
    ensures MonthStart(year, 13) == DaysInYear(year)
  {
    assert MonthStart(year, 5) == MonthStart(year, 3) + 61;
    assert MonthStart(year, 7) == MonthStart(year, 5) + 61;
    assert MonthStart(year, 9) == MonthStart(year, 7) + 62;
    assert MonthStart(year, 11) == MonthStart(year, 9) + 61;
  }

  /** The day numbers within a year at which the months start, and the one after the last. */
  lemma MonthStarts(year: int)
    ensures var leap := if year % 4 == 0 && (year % 100 != 0 || year % 400 == 0) then 1 else 0;
      && MonthStart(year, 1) == 0 && MonthStart(year, 2) == 31 && MonthStart(year, 3) == 59 + leap
      && MonthStart(year, 4) == 90 + leap && MonthStart(year, 5) == 120 + leap && MonthStart(year, 6) == 151 + leap
      && MonthStart(year, 7) == 181 + leap && MonthStart(year, 8) == 212 + leap && MonthStart(year, 9) == 243 + leap
      && MonthStart(year, 10) == 273 + leap && MonthStart(year, 11) == 304 + leap && MonthStart(year, 12) == 334 + leap
      && MonthStart(year, 13) == 365 + leap
  {
  }

  /** Days are counted from the first of January 1970. */
  lemma EpochIsZero()
    ensures DayOf(Civil(1970, 1, 1)) == 0
  {
  }

  lemma {:induction false} MonthsGrow(year: int, m: int, n: int)
    requires 1 <= m < n <= 13
    ensures MonthStart(year, n) >= MonthStart(year, m) + DaysInMonth(year, m)
    decreases n - m
  {
    if m + 1 < n {
      MonthsGrow(year, m, n - 1);
    }
  }

  /** The year a day lies in: the last one that starts no later. */
  ghost predicate InYear(day: int, year: int) {
    DayFromYear(year) <= day < DayFromYear(year + 1)
  }

  ghost predicate Reads(day: int, c: Civil) {
    Valid(c) && InYear(day, c.year) && MonthStart(c.year, c.month) <= day - DayFromYear(c.year) < MonthStart(c.year, c.month + 1)
    && c.day == day - DayFromYear(c.year) - MonthStart(c.year, c.month) + 1
  }

  lemma YearBelow(day: int, year: int) returns (found: int)
    requires day < DayFromYear(year + 1)
    ensures InYear(day, found)
    decreases DayFromYear(year + 1) - day
  {
    if DayFromYear(year) <= day {
      found := year;
    } else {
      YearLength(year);
      found := YearBelow(day, year - 1);
    }
  }

  lemma YearFound(day: int) returns (year: int)
    ensures InYear(day, year)
  {
    var late := if day < 0 then 1970 else 1970 + day;
    YearsGrow(1970, late + 1);
    year := YearBelow(day, late);
  }

  lemma MonthFound(year: int, offset: int) returns (month: int)
    requires 0 <= offset < DaysInYear(year)
    ensures 1 <= month <= 12 && MonthStart(year, month) <= offset < MonthStart(year, month + 1)
  {
    YearLengthIsMonths(year);
    month := 12;
    while MonthStart(year, month) > offset
      invariant 1 <= month <= 12 && offset < MonthStart(year, month + 1)
    {
      month := month - 1;
    }
  }

  /** Every day number reads as a valid date. */
  lemma EveryDayReads(day: int)
    ensures exists c :: Reads(day, c)
  {
    var year := YearFound(day);
    YearLength(year);
    var month := MonthFound(year, day - DayFromYear(year));
    assert Reads(day, Civil(year, month, day - DayFromYear(year) - MonthStart(year, month) + 1));
  }

  lemma OneYear(day: int, year: int, other: int)
    requires InYear(day, year) && InYear(day, other)
    ensures year == other
  {
    if year < other {
      YearsGrow(year + 1, other);
    } else if other < year {
      YearsGrow(other + 1, year);
    }
  }

  lemma OneMonth(year: int, offset: int, month: int, other: int)
    requires 1 <= month <= 12 && MonthStart(year, month) <= offset < MonthStart(year, month + 1)
    requires 1 <= other <= 12 && MonthStart(year, other) <= offset < MonthStart(year, other + 1)
    ensures month == other
  {
    if month < other {
      MonthsGrow(year, month, other);
    } else if other < month {
      MonthsGrow(year, other, month);
    }
  }

  /** And as one date only. */
  lemma ReadsOnce(day: int, c: Civil, d: Civil)
    requires Reads(day, c) && Reads(day, d)
    ensures c == d
  {
    OneYear(day, c.year, d.year);
    OneMonth(c.year, day - DayFromYear(c.year), c.month, d.month);
  }

  /** The date a day number reads as. */
  ghost function CivilOf(day: int): (c: Civil)
    ensures Reads(day, c)
  {
    EveryDayReads(day);
    var c :| Reads(day, c);
    c
  }

  lemma DayFits(c: Civil)
    requires Valid(c)
    ensures Reads(DayOf(c), c)
  {
    YearLength(c.year);
    YearLengthIsMonths(c.year);
    MonthsGrow(c.year, c.month, 13);
    MonthStartNonNegative(c.year, c.month);
  }

  lemma {:induction false} MonthStartNonNegative(year: int, month: int)
    requires 1 <= month <= 13
    ensures MonthStart(year, month) >= 0
    decreases month
  {
    if month > 1 {
      MonthStartNonNegative(year, month - 1);
    }
  }

  /** Day numbers and valid dates correspond one to one. */
  lemma CivilRoundTrip(c: Civil, day: int)
    ensures Valid(c) ==> CivilOf(DayOf(c)) == c
    ensures Valid(CivilOf(day)) && DayOf(CivilOf(day)) == day
  {
    if Valid(c) {
      DayFits(c);
      ReadsOnce(DayOf(c), CivilOf(DayOf(c)), c);
    }
  }

  /** The date after a valid date on the calendar. */
  function Tomorrow(c: Civil): Civil {
    if c.day < DaysInMonth(c.year, c.month) then Civil(c.year, c.month, c.day + 1)
    else if c.month < 12 then Civil(c.year, c.month + 1, 1)
    else Civil(c.year + 1, 1, 1)
  }

  /** Consecutive dates have consecutive numbers, across months, years and leap days. */
  lemma TomorrowIsNext(c: Civil)
    requires Valid(c)
    ensures Valid(Tomorrow(c)) && DayOf(Tomorrow(c)) == DayOf(c) + 1
  {
    YearLength(c.year);
    YearLengthIsMonths(c.year);
  }

  // ----- Dates as written -----

  /** Four digits, a hyphen, two digits, a hyphen, two digits. */
  predicate CivilShape(text: Text) {
    |text| == 10 && text[4] == '-' as int && text[7] == '-' as int
    && forall i :: 0 <= i < 10 && i != 4 && i != 7 ==> IsDigit(text[i])
  }

  function Written(text: Text): Civil
    requires CivilShape(text)
  {
    Civil(Number(text[..4]), Number(text[5..7]), Number(text[8..]))
  }

  /** The UTC date function: years below 100 mean the twentieth century, months carry into years. */
  function UtcDay(year: int, month: int, day: int): int {
    var full := if 0 <= year <= 99 then 1900 + year else year;
    var months := month - 1;
    DayFromYear(full + months / 12) + MonthStart(full + months / 12, months % 12 + 1) + day - 1
  }

  ghost function DayNumber(text: Text): Option<int> {
    if !CivilShape(text) then None
    else
      var c := Written(text);
      var day := UtcDay(c.year, c.month, c.day);
      if CivilOf(day) == c then Some(day) else None
  }

  lemma UtcOfValid(c: Civil)
    requires Valid(c)
    ensures UtcDay(c.year, c.month, c.day) == DayOf(if 0 <= c.year <= 99 then Civil(1900 + c.year, c.month, c.day) else c)
  {
    assert (c.month - 1) / 12 == 0 && (c.month - 1) % 12 == c.month - 1;
  }

  /** A valid date before the year 100 reads back in the twentieth century. */
  lemma ShiftedCentury(c: Civil, day: int)
    requires 1 <= c.month <= 12 && 1 <= c.day && 0 <= c.year < 100 && day == DayOf(Civil(1900 + c.year, c.month, c.day))
    ensures !InYear(day, c.year)
  {
    YearsGrow(c.year + 1, 1900 + c.year);
    MonthStartNonNegative(1900 + c.year, c.month);
  }

  lemma ReadsBack(c: Civil)
    ensures CivilOf(UtcDay(c.year, c.month, c.day)) == c <==> Valid(c) && !(0 <= c.year < 100)
    ensures Valid(c) && !(0 <= c.year < 100) ==> UtcDay(c.year, c.month, c.day) == DayOf(c)
  {
    var day := UtcDay(c.year, c.month, c.day);
    if Valid(c) {
      UtcOfValid(c);
      if 0 <= c.year < 100 {
        ShiftedCentury(c, day);
      } else {
        CivilRoundTrip(c, day);
      }
    }
  }

  lemma TwoDigits(a: CodeUnit, b: CodeUnit)
    requires IsDigit(a) && IsDigit(b)
    ensures AllDigits([a, b]) && Number([a, b]) == DigitValue(a) * 10 + DigitValue(b)
  {
    assert [a, b][..1] == [a] && [a][..0] == [];
    assert Number([a]) == DigitValue(a);
  }

  lemma FourDigits(a: CodeUnit, b: CodeUnit, c: CodeUnit, d: CodeUnit)
    requires IsDigit(a) && IsDigit(b) && IsDigit(c) && IsDigit(d)
    ensures AllDigits([a, b, c, d])
    ensures Number([a, b, c, d]) == ((DigitValue(a) * 10 + DigitValue(b)) * 10 + DigitValue(c)) * 10 + DigitValue(d)
  {
    TwoDigits(a, b);
    assert [a, b, c, d][..3] == [a, b, c] && [a, b, c][..2] == [a, b];
    assert Number([a, b, c]) == Number([a, b]) * 10 + DigitValue(c);
  }

  function DigitAt(text: Text, i: nat): int
    requires i < |text|
  {
    text[i] - '0' as int
  }

  /** The year, month and day that the digits of a date spell. */
  function Spelled(text: Text): Civil
    requires CivilShape(text)
  {
    Civil(1000 * DigitAt(text, 0) + 100 * DigitAt(text, 1) + 10 * DigitAt(text, 2) + DigitAt(text, 3),
          10 * DigitAt(text, 5) + DigitAt(text, 6), 10 * DigitAt(text, 8) + DigitAt(text, 9))
  }

  lemma WrittenIsSpelled(text: Text)
    requires CivilShape(text)
    ensures Written(text) == Spelled(text)
  {
    FourDigits(text[0], text[1], text[2], text[3]);
    TwoDigits(text[5], text[6]);
    TwoDigits(text[8], text[9]);
    assert text[..4] == [text[0], text[1], text[2], text[3]];
    assert text[5..7] == [text[5], text[6]] && text[8..] == [text[8], text[9]];
  }

  /** A date is accepted exactly when it is a calendar date of the year 100 or later; its number is then the day's. */
  lemma AcceptedDates(text: Text)
    ensures DayNumber(text).Some? <==> CivilShape(text) && Valid(Spelled(text)) && Spelled(text).year >= 100
    ensures DayNumber(text).Some? ==> DayNumber(text).value == DayOf(Spelled(text))
  {
    if CivilShape(text) {
      ReadsBack(Written(text));
      WrittenIsSpelled(text);
    }
  }

  /** The text 0050-01-01 as code units. */
  const YEAR_FIFTY: Text := [0x30, 0x30, 0x35, 0x30, 0x2D, 0x30, 0x31, 0x2D, 0x30, 0x31]

  lemma YearFiftySpelled()
    ensures CivilShape(YEAR_FIFTY) && Spelled(YEAR_FIFTY) == Civil(50, 1, 1)
  {
  }

  /** A well-formed text of a calendar date that is refused: the first of January of the year 50. */
  lemma YearFiftyIsRefused()
    ensures CivilShape(YEAR_FIFTY) && Spelled(YEAR_FIFTY) == Civil(50, 1, 1) && Valid(Spelled(YEAR_FIFTY))
    ensures DayNumber(YEAR_FIFTY).None?
  {
    YearFiftySpelled();
    AcceptedDates(YEAR_FIFTY);
  }
}
