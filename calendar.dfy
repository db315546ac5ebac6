/**
 * The proleptic Gregorian calendar as Python's `datetime.date` implements it:
 * years 1 to 9999, day ordinals counted from 0001-01-01 (ordinal 1, a Monday),
 * weekday 0 = Monday ... 6 = Sunday, and the YYYYMMDD integer form of a date
 * (the basic-format complete calendar date of ISO 8601:2004, section 4.1.2.2).
 */
module Calendar {
  import opened Outcome

  const MinYear := 1
  const MaxYear := 9999

  datatype Date = Date(year: int, month: int, day: int)

  /** The last date `datetime.date` can represent; stepping past it overflows. */
  const MaxDate := Date(9999, 12, 31)

  /** The day ordinal of `MaxDate` (`date.max.toordinal()`). */
  const MaxOrdinal := 3652059

  predicate IsLeapYear(y: int) {
    y % 4 == 0 && (y % 100 != 0 || y % 400 == 0)
  }

  function DaysInYear(y: int): int {
    if IsLeapYear(y) then 366 else 365
  }

  function DaysInMonth(y: int, m: int): int
    requires 1 <= m <= 12
  {
    if m == 2 then (if IsLeapYear(y) then 29 else 28)
    else if m == 4 || m == 6 || m == 9 || m == 11 then 30
    else 31
  }

  /** What `datetime.date(y, m, d)` accepts without raising. */
  predicate IsValid(dt: Date)
    ensures IsValid(dt) ==> 1 <= dt.year <= 9999 && 1 <= dt.month <= 12 && 1 <= dt.day <= 31
    ensures IsValid(dt) && dt.month == 2 ==> dt.day <= 29
  {
    MinYear <= dt.year <= MaxYear && 1 <= dt.month <= 12 && 1 <= dt.day <= DaysInMonth(dt.year, dt.month)
  }

  /** Days in the years before `y`, counted from year 1. */
  function DaysBeforeYear(y: int): int
    decreases y
  {
    if y <= 1 then 0 else DaysBeforeYear(y - 1) + DaysInYear(y - 1)
  }

  /** Days in the months of year `y` before month `m`. */
  function DaysBeforeMonth(y: int, m: int): int
    requires 1 <= m <= 13
  {
    var leapDay := if m > 2 && IsLeapYear(y) then 1 else 0;
    leapDay +
    (if m == 1 then 0 else if m == 2 then 31 else if m == 3 then 59
     else if m == 4 then 90 else if m == 5 then 120 else if m == 6 then 151
     else if m == 7 then 181 else if m == 8 then 212 else if m == 9 then 243
     else if m == 10 then 273 else if m == 11 then 304 else if m == 12 then 334
     else 365)
  }

  /** `date.toordinal()`: 0001-01-01 is day 1. */
  function ToOrdinal(dt: Date): int
    requires 1 <= dt.month <= 12
  {
    DaysBeforeYear(dt.year) + DaysBeforeMonth(dt.year, dt.month) + dt.day
  }

  /** The weekday of day ordinal `o`: Monday is 0 and Sunday is 6. */
  function WeekdayOfOrdinal(o: int): int {
    (o + 6) % 7
  }

  /** `date.weekday()`. */
  function Weekday(dt: Date): (r: int)
    requires 1 <= dt.month <= 12
    ensures 0 <= r < 7
    ensures r == 0 <==> ToOrdinal(dt) % 7 == 1
  {
    WeekdayOfOrdinal(ToOrdinal(dt))
  }

  /** `date + timedelta(days=1)` for every date but the last representable one. */
  function NextDay(dt: Date): (r: Date)
    requires IsValid(dt) && dt != MaxDate
    ensures IsValid(r) && ToOrdinal(r) == ToOrdinal(dt) + 1
  {
    if dt.day < DaysInMonth(dt.year, dt.month) then
      Date(dt.year, dt.month, dt.day + 1)
    else if dt.month < 12 then
      Date(dt.year, dt.month + 1, 1)
    else
      YearStep(dt.year);
      Date(dt.year + 1, 1, 1)
  }

  /**
   * `dt + timedelta(days=1)`, which raises OverflowError (here: `None`) on the
   * last representable date.
   */
  method AddDay(dt: Date) returns (r: Option<Date>)
    requires IsValid(dt)
    ensures r.None? <==> ToOrdinal(dt) == MaxOrdinal
    ensures r.Some? ==> IsValid(r.value) && ToOrdinal(r.value) == ToOrdinal(dt) + 1 <= MaxOrdinal
  {
    OrdinalIsMax(dt);
    if dt == MaxDate {
      return None;
    }
    r := Some(NextDay(dt));
    OrdinalIsMax(r.value);
  }

  /** The integer that `int(dt.strftime("%Y%m%d"))` produces. */
  function Format(dt: Date): (r: int)
    ensures IsValid(dt) ==> 10101 <= r <= 99991231
  {
    dt.year * 10000 + dt.month * 100 + dt.day
  }

  /** `generate_dates`' split of a YYYYMMDD integer into (year, month, day): month and day are two digits each. */
  function Split(v: int): (r: Date)
    ensures 0 <= r.month < 100 && 0 <= r.day < 100
  {
    Date(v / 10000, (v / 100) % 100, v % 100)
  }

  // ---------------------------------------------------------------------------
  // Lemmas

  /** Each year adds its own length to the running day count. */
  lemma YearStep(y: int)
    requires y >= 1
    ensures DaysBeforeYear(y + 1) == DaysBeforeYear(y) + DaysInYear(y)
  {
  }

  /**
   * The running day count agrees with the closed form Python's `datetime`
   * uses: 365 days a year plus one for every fourth year, less one for every
   * hundredth, plus one for every four-hundredth.
   */
  lemma {:induction false} DaysBeforeYearClosedForm(y: int)
    requires y >= 1
    ensures var p := y - 1; DaysBeforeYear(y) == p * 365 + p / 4 - p / 100 + p / 400
    decreases y
  {
    if y > 1 {
      DaysBeforeYearClosedForm(y - 1);
      var p := y - 2;
      DivStep4(p);
      DivStep100(p);
      DivStep400(p);
      LeapCount(y - 1);
    }
  }

  /** A year is a leap year when divisible by 4, unless by 100, unless by 400. */
  lemma LeapCount(y: int)
    ensures DaysInYear(y) - 365
      == (if y % 4 == 0 then 1 else 0) - (if y % 100 == 0 then 1 else 0) + (if y % 400 == 0 then 1 else 0)
  {
    if y % 400 == 0 {
      assert y == 100 * (4 * (y / 400));
    }
    if y % 100 == 0 {
      assert y == 4 * (25 * (y / 100));
    }
  }

  lemma DivStep4(p: int)
    ensures (p + 1) / 4 == p / 4 + (if (p + 1) % 4 == 0 then 1 else 0)
  {
  }

  lemma DivStep100(p: int)
    ensures (p + 1) / 100 == p / 100 + (if (p + 1) % 100 == 0 then 1 else 0)
  {
  }

  lemma DivStep400(p: int)
    ensures (p + 1) / 400 == p / 400 + (if (p + 1) % 400 == 0 then 1 else 0)
  {
  }

  /** Formatting a valid date as YYYYMMDD and splitting it again gives the date back. */
  lemma SplitFormat(dt: Date)
    requires IsValid(dt)
    ensures Split(Format(dt)) == dt
  {
    var v := Format(dt);
    assert v == (dt.year * 100 + dt.month) * 100 + dt.day;
    assert v / 100 == dt.year * 100 + dt.month;
    assert v % 100 == dt.day;
    assert (v / 100) / 100 == dt.year;
    assert (v / 100) % 100 == dt.month;
    assert v / 10000 == (v / 100) / 100;
  }

  /** Splitting any integer and formatting the parts gives the integer back. */
  lemma FormatSplit(v: int)
    ensures Format(Split(v)) == v
  {
    var h := v / 100;
    assert v == h * 100 + v % 100;
    assert h == (h / 100) * 100 + h % 100;
    assert v / 10000 == h / 100;
  }

  /** Day ordinals run with calendar order: a later date has a larger ordinal. */
  lemma OrdinalMonotone(a: Date, b: Date)
    requires IsValid(a) && IsValid(b)
    ensures Format(a) < Format(b) <==> ToOrdinal(a) < ToOrdinal(b)
    ensures Format(a) == Format(b) <==> a == b
  {
    if a.year < b.year {
      OrdinalWithinYear(a);
      YearsMonotone(a.year + 1, b.year);
      YearStep(a.year);
    } else if b.year < a.year {
      OrdinalWithinYear(b);
      YearsMonotone(b.year + 1, a.year);
      YearStep(b.year);
    }
  }

  /** The next day has a larger YYYYMMDD form, and none exceeds that of the last representable date. */
  lemma NextDayFormat(dt: Date)
    requires IsValid(dt) && dt != MaxDate
    ensures Format(dt) < Format(NextDay(dt)) <= Format(MaxDate)
  {
  }

  /**
   * No valid date lies after the last representable one, and only that one
   * has the largest ordinal.
   */
  lemma OrdinalIsMax(dt: Date)
    requires IsValid(dt)
    ensures ToOrdinal(dt) <= MaxOrdinal
    ensures ToOrdinal(dt) == MaxOrdinal <==> dt == MaxDate
  {
    OrdinalMonotone(dt, MaxDate);
    MaxDateOrdinal();
  }

  /** No valid date lies after the last representable one. */
  lemma MaxDateOrdinal()
    ensures ToOrdinal(MaxDate) == MaxOrdinal
  {
    DaysBeforeYearClosedForm(MaxYear);
  }

  lemma OrdinalWithinYear(dt: Date)
    requires IsValid(dt)
    ensures DaysBeforeMonth(dt.year, dt.month) + dt.day <= DaysInYear(dt.year)
  {
  }

  lemma {:induction false} YearsMonotone(y: int, z: int)
    requires 1 <= y <= z
    ensures DaysBeforeYear(y) <= DaysBeforeYear(z)
    decreases z - y
  {
    if y < z {
      YearStep(y);
      YearsMonotone(y + 1, z);
    }
  }
}
