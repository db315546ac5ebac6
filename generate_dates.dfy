/**
 * `generate_dates` from the synthetic PnL data generator: starting from a
 * YYYYMMDD integer, walk the calendar one day at a time and collect the first
 * `n` dates that fall on Monday to Friday, each as a YYYYMMDD integer.
 *
 * The walk is specified against `Weekdays`, a reference definition on day
 * ordinals that jumps straight to the next weekday instead of stepping.
 */
module PnlDataGenerator {
  import opened Outcome
  import opened Calendar

  datatype DateError =
    | InvalidDate   // `datetime.date(year, month, day)` raises ValueError
    | Overflow      // `cur_date += timedelta(days=1)` past 9999-12-31 raises OverflowError

  /** Day ordinal `o` is a Monday..Friday (Python's `weekday() < 5`). */
  predicate IsWeekdayOrdinal(o: int) {
    WeekdayOfOrdinal(o) < 5
  }

  /** The first weekday ordinal on or after `o`. */
  function FirstWeekdayFrom(o: int): (r: int)
    ensures o <= r <= o + 2 && IsWeekdayOrdinal(r)
    ensures forall x :: o <= x < r ==> !IsWeekdayOrdinal(x)
  {
    var w := WeekdayOfOrdinal(o);
    if w == 5 then o + 2 else if w == 6 then o + 1 else o
  }

  /** Reference definition: the first `n` weekday ordinals on or after `o`. */
  function Weekdays(o: int, n: nat): (r: seq<int>)
    ensures |r| == n
    decreases n
  {
    if n == 0 then [] else
      var f := FirstWeekdayFrom(o);
      [f] + Weekdays(f + 1, n - 1)
  }

  /** Every entry of the reference list is a weekday on or after `o`. */
  lemma {:induction false} WeekdaysAreWeekdays(o: int, n: nat)
    ensures forall i :: 0 <= i < n ==> IsWeekdayOrdinal(Weekdays(o, n)[i]) && o <= Weekdays(o, n)[i]
    decreases n
  {
    if n > 0 {
      var f := FirstWeekdayFrom(o);
      var r := Weekdays(o, n);
      var rest := Weekdays(f + 1, n - 1);
      WeekdaysAreWeekdays(f + 1, n - 1);
      assert r == [f] + rest;
      forall i | 1 <= i < n ensures IsWeekdayOrdinal(r[i]) && o <= r[i] {
        assert r[i] == rest[i - 1];
      }
    }
  }

  /** The reference list is strictly increasing. */
  lemma {:induction false} WeekdaysIncreasing(o: int, n: nat)
    ensures forall i, j :: 0 <= i < j < n ==> Weekdays(o, n)[i] < Weekdays(o, n)[j]
    decreases n
  {
    if n > 0 {
      var f := FirstWeekdayFrom(o);
      var r := Weekdays(o, n);
      var rest := Weekdays(f + 1, n - 1);
      WeekdaysIncreasing(f + 1, n - 1);
      WeekdaysAreWeekdays(f + 1, n - 1);
      assert r == [f] + rest;
      forall i, j | 0 <= i < j < n ensures r[i] < r[j] {
        assert r[j] == rest[j - 1];
        if i > 0 { assert r[i] == rest[i - 1]; }
      }
    }
  }

  /**
   * The reference list starts at the first weekday on or after `o` and skips
   * no weekday: every weekday from `o` up to its last entry is in it.
   */
  lemma {:induction false} WeekdaysComplete(o: int, n: nat, x: int)
    requires n > 0 && o <= x <= Weekdays(o, n)[n - 1] && IsWeekdayOrdinal(x)
    ensures Weekdays(o, n)[0] == FirstWeekdayFrom(o)
    ensures x in Weekdays(o, n)
    decreases n
  {
    var f := FirstWeekdayFrom(o);
    var r := Weekdays(o, n);
    var rest := Weekdays(f + 1, n - 1);
    assert r == [f] + rest;
    if x != f {
      assert n > 1 && r[n - 1] == rest[n - 2];
      WeekdaysComplete(f + 1, n - 1, x);
    }
  }

  /** Consecutive entries are consecutive weekdays: only weekend days lie between them. */
  lemma NoWeekdaySkipped(o: int, n: nat, i: nat, x: int)
    requires i + 1 < n
    requires Weekdays(o, n)[i] < x < Weekdays(o, n)[i + 1]
    ensures !IsWeekdayOrdinal(x)
  {
    var r := Weekdays(o, n);
    WeekdaysIncreasing(o, n);
    WeekdaysAreWeekdays(o, n);
    if IsWeekdayOrdinal(x) {
      assert r[i + 1] <= r[n - 1];
      WeekdaysComplete(o, n, x);
      assert false;
    }
  }

  /**
   * One day of the day-by-day walk, with the first `m` entries of the
   * reference list `w` collected and the rest due from ordinal `o` on: a
   * weekday is the next entry due, a weekend day is passed over.
   */
  lemma WalkStep(o: int, w: seq<int>, m: nat)
    requires m <= |w| && Weekdays(o, |w| - m) == w[m..]
    ensures IsWeekdayOrdinal(o) && m < |w| ==> w[m] == o && Weekdays(o + 1, |w| - m - 1) == w[m + 1..]
    ensures !IsWeekdayOrdinal(o) ==> Weekdays(o + 1, |w| - m) == w[m..]
  {
    var k := |w| - m;
    if IsWeekdayOrdinal(o) && k > 0 {
      assert Weekdays(o, k) == [o] + Weekdays(o + 1, k - 1);
      assert w[m + 1..] == w[m..][1..];
    }
    if !IsWeekdayOrdinal(o) && k > 0 {
      assert FirstWeekdayFrom(o) == FirstWeekdayFrom(o + 1);
    }
  }

  /** `d` is the YYYYMMDD form of the valid date with day ordinal `o`. */
  ghost predicate Encodes(d: int, o: int) {
    IsValid(Split(d)) && ToOrdinal(Split(d)) == o
  }

  /** YYYYMMDD integers of dates in increasing ordinal order are increasing. */
  lemma EncodedIncreasing(dates: seq<int>, ords: seq<int>)
    requires |dates| == |ords|
    requires forall i :: 0 <= i < |dates| ==> Encodes(dates[i], ords[i])
    requires forall i, j :: 0 <= i < j < |ords| ==> ords[i] < ords[j]
    ensures forall i, j :: 0 <= i < j < |dates| ==> dates[i] < dates[j]
  {
    forall i, j | 0 <= i < j < |dates| ensures dates[i] < dates[j] {
      OrdinalMonotone(Split(dates[i]), Split(dates[j]));
      FormatSplit(dates[i]);
      FormatSplit(dates[j]);
    }
  }

  /** `d` is the YYYYMMDD form of the valid date `dt`, whose day ordinal is `x`. */
  ghost predicate Entry(d: int, dt: Date, x: int) {
    IsValid(dt) && d == Format(dt) && ToOrdinal(dt) == x
  }

  /**
   * Each of `dates` is the YYYYMMDD form of the matching date of `ds`, valid
   * and with the matching ordinal of `w`, stated entry by entry from the last.
   */
  ghost predicate Listed(dates: seq<int>, ds: seq<Date>, w: seq<int>)
    decreases |dates|
  {
    |dates| == |ds| <= |w| &&
    (|dates| == 0 ||
      var m := |dates| - 1;
      Listed(dates[..m], ds[..m], w) && Entry(dates[m], ds[m], w[m]))
  }

  /** Listing one more entry. */
  lemma ListedAppend(dates: seq<int>, ds: seq<Date>, w: seq<int>, dt: Date)
    requires Listed(dates, ds, w) && |dates| < |w| && Entry(Format(dt), dt, w[|dates|])
    ensures Listed(dates + [Format(dt)], ds + [dt], w)
  {
    assert (dates + [Format(dt)])[..|dates|] == dates;
    assert (ds + [dt])[..|ds|] == ds;
  }

  /** What `Listed` states, entry by entry. */
  lemma {:induction false} ListedEntries(dates: seq<int>, ds: seq<Date>, w: seq<int>)
    requires Listed(dates, ds, w)
    ensures forall i :: 0 <= i < |dates| ==> Entry(dates[i], ds[i], w[i])
    decreases |dates|
  {
    if |dates| > 0 {
      var m := |dates| - 1;
      ListedEntries(dates[..m], ds[..m], w);
      assert forall i :: 0 <= i < m ==> dates[..m][i] == dates[i] && ds[..m][i] == ds[i];
    }
  }

  /**
   * The state of the walk at the top of the loop: the current date `cur` is
   * valid with ordinal `o`; the first `|dates|` entries of the reference list
   * `w` are listed, all before `o`; the rest are the weekdays due from `o` on.
   */
  ghost predicate Walking(w: seq<int>, cur: Date, o: int, dates: seq<int>, ds: seq<Date>) {
    && IsValid(cur) && o == ToOrdinal(cur) <= MaxOrdinal
    && |dates| <= |w| && Listed(dates, ds, w)
    && Weekdays(o, |w| - |dates|) == w[|dates|..]
    && (|dates| > 0 ==> w[|dates| - 1] < o)
  }

  /** The state once the current date has been examined: the rest are due from the next day on. */
  ghost predicate Examined(w: seq<int>, cur: Date, o: int, dates: seq<int>, ds: seq<Date>) {
    && IsValid(cur) && o == ToOrdinal(cur) <= MaxOrdinal
    && |dates| <= |w| && Listed(dates, ds, w)
    && Weekdays(o + 1, |w| - |dates|) == w[|dates|..]
    && (|dates| > 0 ==> w[|dates| - 1] <= o)
  }

  /**
   * Examining the current date while entries are still due: a weekday is the
   * next entry of the reference list and is listed; a weekend day is passed over.
   */
  lemma ExamineDay(w: seq<int>, cur: Date, o: int, dates: seq<int>, ds: seq<Date>)
    requires Walking(w, cur, o, dates, ds) && |dates| < |w|
    ensures Weekday(cur) < 5 ==> w[|dates|] == o && Examined(w, cur, o, dates + [Format(cur)], ds + [cur])
    ensures Weekday(cur) >= 5 ==> Examined(w, cur, o, dates, ds)
  {
    WalkStep(o, w, |dates|);
    if Weekday(cur) < 5 {
      ListedAppend(dates, ds, w, cur);
    }
  }

  /** Stepping to the next day after examining the current one resumes the walk. */
  lemma Advance(w: seq<int>, cur: Date, o: int, dates: seq<int>, ds: seq<Date>, next: Date)
    requires Examined(w, cur, o, dates, ds)
    requires IsValid(next) && ToOrdinal(next) == o + 1 <= MaxOrdinal
    ensures Walking(w, next, o + 1, dates, ds)
  {
  }

  /**
   * Collecting `count` weekdays from ordinal `o` steps past the last
   * representable date: the last of them is 9999-12-31 or later.
   */
  ghost predicate Overflows(o: int, count: nat) {
    var w := Weekdays(o, count);
    |w| > 0 && w[|w| - 1] >= MaxOrdinal
  }

  /**
   * `dates` are the YYYYMMDD forms of the first `|dates|` weekdays on or after
   * ordinal `o`, in order: each is a valid date falling Monday..Friday, and
   * they strictly increase.
   */
  ghost predicate WeekdayListing(dates: seq<int>, o: int) {
    var w := Weekdays(o, |dates|);
    && (forall i :: 0 <= i < |dates| ==> Encodes(dates[i], w[i]) && Weekday(Split(dates[i])) < 5)
    && (forall i, j :: 0 <= i < j < |dates| ==> dates[i] < dates[j])
  }

  /**
   * Having examined 9999-12-31 with entries still due, or having just listed
   * it, the walk overflows: the reference list reaches that date.
   */
  lemma WalkOverflows(o0: int, w: seq<int>, cur: Date, o: int, dates: seq<int>, ds: seq<Date>)
    requires w == Weekdays(o0, |w|) && o == MaxOrdinal
    requires Examined(w, cur, o, dates, ds)
    requires |dates| < |w| || (0 < |dates| && w[|dates| - 1] == o)
    ensures Overflows(o0, |w|)
  {
    var m := |dates|;
    if m < |w| {
      WeekdaysAreWeekdays(o + 1, |w| - m);
      assert w[|w| - 1] == w[m..][|w| - m - 1];
    }
  }

  /**
   * A walk that listed every entry of the reference list lists the weekdays
   * from `o0` in YYYYMMDD form and does not overflow.
   */
  lemma WalkComplete(o0: int, w: seq<int>, cur: Date, o: int, dates: seq<int>, ds: seq<Date>)
    requires w == Weekdays(o0, |w|) && |dates| == |w|
    requires Walking(w, cur, o, dates, ds)
    ensures WeekdayListing(dates, o0) && !Overflows(o0, |w|)
  {
    ListedEntries(dates, ds, w);
    WeekdaysAreWeekdays(o0, |w|);
    forall i | 0 <= i < |w| ensures Encodes(dates[i], w[i]) && Weekday(Split(dates[i])) < 5 {
      assert Entry(dates[i], ds[i], w[i]);
      SplitFormat(ds[i]);
      assert IsWeekdayOrdinal(w[i]);
    }
    WeekdaysIncreasing(o0, |w|);
    EncodedIncreasing(dates, w);
  }

  /**
   * `generate_dates`: split the YYYYMMDD start into day, month and year, fail
   * as `datetime.date` does when they do not form a valid date, and otherwise
   * walk the calendar from there (see `WalkWeekdays`).
   */
  method GenerateDates(start: int, n: int) returns (r: Result<seq<int>, DateError>)
    ensures !IsValid(Split(start)) <==> r == Err(InvalidDate)
    ensures IsValid(Split(start)) ==>
      (r == Err(Overflow) <==> Overflows(ToOrdinal(Split(start)), if n < 0 then 0 else n))
    ensures r.Ok? ==>
      |r.value| == (if n < 0 then 0 else n) && WeekdayListing(r.value, ToOrdinal(Split(start)))
  {
    var first := Split(start);
    if !IsValid(first) {
      return Err(InvalidDate);
    }
    r := WalkWeekdays(first, n);
  }

  /**
   * The loop of `generate_dates`: from a valid date, step one day at a time
   * and collect each Monday..Friday as YYYYMMDD until `n` are collected. Fails
   * exactly when the walk steps past 9999-12-31 (`generate_dates` advances the date
   * once more after collecting the last entry). Otherwise the result has `n`
   * entries (none for `n <= 0`): the first `n` weekdays on or after the start.
   */
  method WalkWeekdays(first: Date, n: int) returns (r: Result<seq<int>, DateError>)
    requires IsValid(first)
    ensures r.Err? ==> r.error == Overflow
    ensures r.Err? <==> Overflows(ToOrdinal(first), if n < 0 then 0 else n)
    ensures r.Ok? ==> |r.value| == (if n < 0 then 0 else n) && WeekdayListing(r.value, ToOrdinal(first))
  {
    var count: nat := if n < 0 then 0 else n;
    ghost var w := Weekdays(ToOrdinal(first), count);
    ghost var ds: seq<Date> := [];
    var cur := first;
    ghost var o := ToOrdinal(first);
    var dates: seq<int> := [];
    OrdinalIsMax(first);
    while |dates| < n
      invariant |w| == count && Walking(w, cur, o, dates, ds)
      decreases MaxOrdinal - o
    {
      ExamineDay(w, cur, o, dates, ds);
      if Weekday(cur) < 5 {
        ds := ds + [cur];
        dates := dates + [Format(cur)];
      }
      var next := AddDay(cur);
      if next.None? {
        WalkOverflows(ToOrdinal(first), w, cur, o, dates, ds);
        return Err(Overflow);
      }
      Advance(w, cur, o, dates, ds, next.value);
      cur := next.value;
      o := o + 1;
    }
    WalkComplete(ToOrdinal(first), w, cur, o, dates, ds);
    r := Ok(dates);
  }

  /** Only one list of a given length meets `WeekdayListing`: the contract of `GenerateDates` fixes its result. */
  lemma ListingUnique(a: seq<int>, b: seq<int>, o: int)
    requires |a| == |b| && WeekdayListing(a, o) && WeekdayListing(b, o)
    ensures a == b
  {
    var w := Weekdays(o, |a|);
    forall i | 0 <= i < |a| ensures a[i] == b[i] {
      assert Encodes(a[i], w[i]) && Encodes(b[i], w[i]);
      SameOrdinalSameDate(a[i], b[i], w[i]);
    }
  }

  /** Two YYYYMMDD integers naming valid dates with the same ordinal are equal. */
  lemma SameOrdinalSameDate(x: int, y: int, o: int)
    requires Encodes(x, o) && Encodes(y, o)
    ensures x == y
  {
    OrdinalMonotone(Split(x), Split(y));
    OrdinalMonotone(Split(y), Split(x));
    FormatSplit(x);
    FormatSplit(y);
  }

  /**
   * Within one month, `k` days after the YYYYMMDD integer `d` is `d + k`, and
   * its ordinal is `k` more.
   */
  lemma DayShift(d: int, k: nat)
    requires IsValid(Split(d))
    requires Split(d).day + k <= DaysInMonth(Split(d).year, Split(d).month)
    ensures Encodes(d + k, ToOrdinal(Split(d)) + k)
  {
    var dt := Split(d);
    var later := Date(dt.year, dt.month, dt.day + k);
    FormatSplit(d);
    assert Format(later) == d + k;
    SplitFormat(later);
  }

  /**
   * 2020-01-01, the start date of `tests/test_generate_pnl_data.py`, is valid, is written
   * 20200101 and is a Wednesday; with `FiveFromWednesday` and `DayShift`, five
   * dates from it are 20200101, 20200102, 20200103, 20200106 and 20200107.
   */
  lemma NewYear2020(dt: Date)
    requires dt == Date(2020, 1, 1)
    ensures IsValid(dt) && Format(dt) == 20200101 && Weekday(dt) == 2
  {
    DaysBeforeYearClosedForm(dt.year);
    assert ToOrdinal(dt) == 737425 == 7 * 105346 + 3;
  }

  /** The weekday `k` days after ordinal `o`, for `k` within a week. */
  lemma WeekdayShift(o: int, k: int)
    requires 0 <= k < 7
    ensures WeekdayOfOrdinal(o + k) == (WeekdayOfOrdinal(o) + k) % 7
  {
    var q := (o + 6) / 7;
    assert o + 6 == 7 * q + WeekdayOfOrdinal(o);
    if WeekdayOfOrdinal(o) + k < 7 {
      assert o + k + 6 == 7 * q + (WeekdayOfOrdinal(o) + k);
    } else {
      assert o + k + 6 == 7 * (q + 1) + (WeekdayOfOrdinal(o) + k - 7);
    }
  }

  /** The reference list starting on a weekday begins with that day. */
  lemma WeekdaysFromWeekday(o: int, n: nat)
    requires n > 0 && IsWeekdayOrdinal(o)
    ensures Weekdays(o, n) == [o] + Weekdays(o + 1, n - 1)
  {
  }

  /** From a Friday, the next three weekdays are that Friday, Monday and Tuesday. */
  lemma ThreeFromFriday(o: int)
    requires WeekdayOfOrdinal(o) == 4
    ensures Weekdays(o, 3) == [o, o + 3, o + 4]
  {
    WeekdayShift(o, 1);
    WeekdayShift(o, 3);
    WeekdayShift(o, 4);
    assert FirstWeekdayFrom(o + 1) == o + 3;
    WeekdaysFromWeekday(o + 4, 1);
    WeekdaysFromWeekday(o + 3, 2);
    WeekdaysFromWeekday(o, 3);
  }

  /** From a Wednesday, the next five weekdays skip the weekend after Friday. */
  lemma FiveFromWednesday(o: int)
    requires WeekdayOfOrdinal(o) == 2
    ensures Weekdays(o, 5) == [o, o + 1, o + 2, o + 5, o + 6]
  {
    WeekdayShift(o, 1);
    WeekdayShift(o, 2);
    ThreeFromFriday(o + 2);
    WeekdaysFromWeekday(o + 1, 4);
    WeekdaysFromWeekday(o, 5);
  }

  /** From a Saturday the first weekday is the Monday after it. */
  lemma FirstFromSaturday(o: int)
    requires WeekdayOfOrdinal(o) == 5
    ensures Weekdays(o, 1) == [o + 2]
  {
    assert FirstWeekdayFrom(o) == o + 2;
  }

  /** 20200106 alone is the one-entry weekday listing from 2020-01-04, a Saturday. */
  lemma SaturdayListing()
    ensures WeekdayListing([20200106], ToOrdinal(Date(2020, 1, 4)))
  {
    NewYear2020(Date(2020, 1, 1));
    var o := ToOrdinal(Date(2020, 1, 1));
    WeekdayShift(o, 3);
    FirstFromSaturday(o + 3);
    DayShift(20200101, 3);
    DayShift(20200101, 5);
    FormatSplit(20200106);
  }

  /**
   * `tests/test_generate_pnl_data.py`'s Saturday case: the one date listed
   * from 20200104, three days after the Wednesday 2020-01-01, is 20200106.
   * The requires is what the contract of `GenerateDates(20200104, 1)`
   * promises of an `Ok` result.
   */
  lemma SaturdayTest(r: seq<int>)
    requires |r| == 1 && WeekdayListing(r, ToOrdinal(Split(20200104)))
    ensures r == [20200106]
  {
    SplitFormat(Date(2020, 1, 4));
    SaturdayListing();
    ListingUnique(r, [20200106], ToOrdinal(Date(2020, 1, 4)));
  }

  /** A list whose entries encode the reference weekdays, in order, is a weekday listing. */
  lemma ListingFromEncodings(dates: seq<int>, o: int)
    requires forall i :: 0 <= i < |dates| ==> Encodes(dates[i], Weekdays(o, |dates|)[i])
    ensures WeekdayListing(dates, o)
  {
    var w := Weekdays(o, |dates|);
    WeekdaysAreWeekdays(o, |dates|);
    WeekdaysIncreasing(o, |dates|);
    EncodedIncreasing(dates, w);
  }

  /** Within a month, `d + k` names the date `k` days after `d`, for the offsets of a week starting on Wednesday. */
  lemma WeekOffsets(d: int, o: int)
    requires Encodes(d, o)
    requires Split(d).day + 6 <= DaysInMonth(Split(d).year, Split(d).month)
    ensures Encodes(d + 1, o + 1) && Encodes(d + 2, o + 2) && Encodes(d + 5, o + 5) && Encodes(d + 6, o + 6)
  {
    DayShift(d, 1);
    DayShift(d, 2);
    DayShift(d, 5);
    DayShift(d, 6);
  }

  /** From a Wednesday `d` with at least six more days in its month, five weekdays are `d`, `d + 1`, `d + 2`, `d + 5` and `d + 6`. */
  lemma WednesdayListing(d: int, o: int)
    requires Encodes(d, o) && WeekdayOfOrdinal(o) == 2
    requires Split(d).day + 6 <= DaysInMonth(Split(d).year, Split(d).month)
    ensures WeekdayListing([d, d + 1, d + 2, d + 5, d + 6], o)
  {
    var dates := [d, d + 1, d + 2, d + 5, d + 6];
    FiveFromWednesday(o);
    WeekOffsets(d, o);
    assert forall i :: 0 <= i < |dates| ==> Encodes(dates[i], Weekdays(o, |dates|)[i]);
    ListingFromEncodings(dates, o);
  }

  /**
   * `tests/test_generate_pnl_data.py`'s five-day case: from the Wednesday
   * 20200101, five weekdays are 20200101, 20200102, 20200103, 20200106 and
   * 20200107. The requires is what the contract of `GenerateDates(20200101, 5)`
   * promises of an `Ok` result.
   */
  lemma WednesdayTest(r: seq<int>)
    requires |r| == 5 && WeekdayListing(r, ToOrdinal(Split(20200101)))
    ensures r == [20200101, 20200102, 20200103, 20200106, 20200107]
  {
    NewYear2020(Date(2020, 1, 1));
    SplitFormat(Date(2020, 1, 1));
    var o := ToOrdinal(Date(2020, 1, 1));
    WednesdayListing(20200101, o);
    ListingUnique(r, [20200101, 20200102, 20200103, 20200106, 20200107], o);
  }

  /** From a Monday, four weekdays are that day and the three after it. */
  lemma FourFromMonday(o: int)
    requires WeekdayOfOrdinal(o) == 0
    ensures Weekdays(o, 4) == [o, o + 1, o + 2, o + 3]
  {
    WeekdayShift(o, 1);
    WeekdayShift(o, 2);
    WeekdayShift(o, 3);
    WeekdaysFromWeekday(o + 3, 1);
    WeekdaysFromWeekday(o + 2, 2);
    WeekdaysFromWeekday(o + 1, 3);
    WeekdaysFromWeekday(o, 4);
  }

  /** The YYYYMMDD integers 8871 and 8870 below a January 1st name December 30th and 31st of the year before, one and two days earlier. */
  lemma YearEnd(d: int, o: int)
    requires Encodes(d, o) && Split(d).month == 1 && Split(d).day == 1 && Split(d).year > 1
    ensures Encodes(d - 8871, o - 2) && Encodes(d - 8870, o - 1)
  {
    var y := Split(d).year;
    FormatSplit(d);
    var eve := Date(y - 1, 12, 31);
    var before := Date(y - 1, 12, 30);
    assert NextDay(eve) == Split(d);
    assert NextDay(before) == eve;
    SplitFormat(eve);
    SplitFormat(before);
  }

  /** The four days from December 30th to January 2nd, named from January 1st `d`. */
  lemma YearTurn(d: int, n: int)
    requires Encodes(d, n) && Split(d).month == 1 && Split(d).day == 1 && Split(d).year > 1
    ensures Encodes(d - 8871, n - 2) && Encodes(d - 8870, n - 1) && Encodes(d + 1, n + 1)
  {
    YearEnd(d, n);
    DayShift(d, 1);
  }

  /** Two days before a Wednesday is a Monday. */
  lemma MondayBeforeWednesday(n: int)
    requires WeekdayOfOrdinal(n) == 2
    ensures WeekdayOfOrdinal(n - 2) == 0
  {
    var q := (n + 6) / 7;
    assert n + 6 == 7 * q + 2;
    assert (n - 2) + 6 == 7 * q;
  }

  /** Four YYYYMMDD integers naming a Monday and the three days after it are the four weekdays from that Monday. */
  lemma FourListing(dates: seq<int>, o: int)
    requires |dates| == 4 && WeekdayOfOrdinal(o) == 0
    requires Encodes(dates[0], o) && Encodes(dates[1], o + 1) && Encodes(dates[2], o + 2) && Encodes(dates[3], o + 3)
    ensures WeekdayListing(dates, o)
  {
    FourFromMonday(o);
    assert forall i :: 0 <= i < |dates| ==> Encodes(dates[i], Weekdays(o, |dates|)[i]);
    ListingFromEncodings(dates, o);
  }

  /** From the Monday two days before a Wednesday January 1st `d`, four weekdays are December 30th and 31st, `d` and `d + 1`. */
  lemma YearBoundaryListing(d: int, n: int)
    requires Encodes(d, n) && WeekdayOfOrdinal(n) == 2
    requires Split(d).month == 1 && Split(d).day == 1 && Split(d).year > 1
    ensures Encodes(d - 8871, n - 2)
    ensures WeekdayListing([d - 8871, d - 8870, d, d + 1], n - 2)
  {
    YearTurn(d, n);
    MondayBeforeWednesday(n);
    FourListing([d - 8871, d - 8870, d, d + 1], n - 2);
  }

  /**
   * `tests/test_generate_pnl_data.py`'s year-boundary case: from the Monday
   * 20191230, four weekdays are 20191230, 20191231, 20200101 and 20200102.
   * The requires is what the contract of `GenerateDates(20191230, 4)`
   * promises of an `Ok` result.
   */
  lemma YearBoundaryTest(r: seq<int>)
    requires |r| == 4 && WeekdayListing(r, ToOrdinal(Split(20191230)))
    ensures r == [20191230, 20191231, 20200101, 20200102]
  {
    NewYear2020(Date(2020, 1, 1));
    SplitFormat(Date(2020, 1, 1));
    var n := ToOrdinal(Date(2020, 1, 1));
    YearBoundaryListing(20200101, n);
    ListingUnique(r, [20191230, 20191231, 20200101, 20200102], n - 2);
  }
}
