/**
 * Review-marker timestamps: the fields of a marker line as its pattern
 * captures them, turned into a point in time, and the sorted list of
 * markers. A point in time is a whole number of microseconds since the
 * start of 1 January of year 1 (the proleptic Gregorian calendar, as
 * Python's `datetime` counts), so that adding and subtracting durations is
 * integer arithmetic.
 */
module ReviewTimes {
  import opened Wrappers
  import opened Strings
  import Sorting

  // ---------------------------------------------------------------------------
  // two-digit years and fractions

  /** The two-digit year pivot: "00" to "49" are 2000 to 2049, "50" to "99" are 1950 to 1999. */
  function PivotYear(yy: string): (year: nat)
    requires |yy| == 2 && AllDigits(yy)
  {
    if ParseNat(yy) < 50 then ParseNat("20" + yy) else ParseNat("19" + yy)
  }

  lemma PivotYearRange(yy: string)
    requires |yy| == 2 && AllDigits(yy)
    ensures var y := PivotYear(yy);
      1950 <= y <= 2049 && y % 100 == ParseNat(yy) && (y >= 2000 <==> ParseNat(yy) < 50)
  {
    assert ParseNat("20") == 20 && ParseNat("19") == 19;
    assert Pow10(2) == 100;
    ParseNatAppend("20", yy);
    ParseNatAppend("19", yy);
  }

  lemma Pow10Monotone(a: nat, b: nat)
    requires a <= b
    ensures Pow10(a) <= Pow10(b)
    decreases b
  {
    if a < b {
      Pow10Monotone(a, b - 1);
    }
  }

  /** The microsecond field: its digits when there are at most six, otherwise its first six digits. */
  function Microseconds(digits: string): (us: nat)
    requires AllDigits(digits)
    ensures us < 1000000
  {
    var kept := if |digits| <= 6 then digits else digits[..6];
    Pow10Monotone(|kept|, 6);
    assert Pow10(6) == 1000000;
    ParseNat(kept)
  }

  /** Only the first six digits of the field count. */
  lemma MicrosecondsFirstSix(digits: string, extra: string)
    requires AllDigits(digits) && AllDigits(extra) && |digits| == 6
    ensures Microseconds(digits + extra) == ParseNat(digits)
  {
    if extra != [] {
      assert (digits + extra)[..6] == digits;
    } else {
      assert digits + extra == digits;
    }
  }

  // ---------------------------------------------------------------------------
  // the calendar

  predicate IsLeap(y: int) {
    y % 4 == 0 && (y % 100 != 0 || y % 400 == 0)
  }

  function DaysInMonth(y: int, m: int): (n: nat)
    requires 1 <= m <= 12
    ensures 28 <= n <= 31
  {
    if m == 2 then (if IsLeap(y) then 29 else 28)
    else if m == 4 || m == 6 || m == 9 || m == 11 then 30
    else 31
  }

  /** The days of year `y` before the first of month `m`. */
  function DaysBeforeMonth(y: int, m: int): nat
    requires 1 <= m <= 13
  {
    if m == 1 then 0 else DaysBeforeMonth(y, m - 1) + DaysInMonth(y, m - 1)
  }

  function DaysInYear(y: int): nat {
    if IsLeap(y) then 366 else 365
  }

  /** The days before 1 January of year `y`. */
  function DaysBeforeYear(y: nat): nat
    requires y >= 1
  {
    var p := y - 1;
    p * 365 + p / 4 - p / 100 + p / 400
  }

  /** A calendar date and time of day as `datetime(...)` accepts them. */
  datatype DateTime = DateTime(year: nat, month: nat, day: nat, hour: nat, minute: nat, second: nat, microsecond: nat)

  /** The checks `datetime(...)` makes of its arguments before it builds a value. */
  predicate Valid(d: DateTime) {
    1 <= d.year <= 9999 && 1 <= d.month <= 12 && 1 <= d.day <= DaysInMonth(d.year, d.month)
    && d.hour < 24 && d.minute < 60 && d.second < 60 && d.microsecond < 1000000
  }

  /** Day number 1 is 1 January of year 1, as `date.toordinal()` counts. */
  function Ordinal(d: DateTime): nat
    requires Valid(d)
  {
    DaysBeforeYear(d.year) + DaysBeforeMonth(d.year, d.month) + d.day
  }

  const MicrosPerDay: nat := 86400000000

  /** The point in time of a valid date and time. */
  function Instant(d: DateTime): int
    requires Valid(d)
  {
    (((Ordinal(d) * 24 + d.hour) * 60 + d.minute) * 60 + d.second) * 1000000 + d.microsecond
  }

  /** Lexicographic order on the fields, the order `datetime` compares in. */
  predicate Before(a: DateTime, b: DateTime) {
    a.year < b.year
    || (a.year == b.year && (a.month < b.month
    || (a.month == b.month && (a.day < b.day
    || (a.day == b.day && (a.hour < b.hour
    || (a.hour == b.hour && (a.minute < b.minute
    || (a.minute == b.minute && (a.second < b.second
    || (a.second == b.second && a.microsecond < b.microsecond)))))))))))
  }

  lemma DaysBeforeMonthGrows(y: int, m: int, m': int)
    requires 1 <= m <= m' <= 13
    ensures DaysBeforeMonth(y, m) + 28 * (m' - m) <= DaysBeforeMonth(y, m')
    decreases m'
  {
    if m < m' {
      DaysBeforeMonthGrows(y, m, m' - 1);
    }
  }

  lemma DaysBeforeYearStep(y: nat)
    requires y >= 1
    ensures DaysBeforeYear(y + 1) == DaysBeforeYear(y) + DaysInYear(y)
  {
    var p := y - 1;
    DivStep(p);
    var a, b, c := y % 4 == 0, y % 100 == 0, y % 400 == 0;
    assert (p + 1) / 4 - (p + 1) / 100 + (p + 1) / 400
        == p / 4 - p / 100 + p / 400 + (if a then 1 else 0) - (if b then 1 else 0) + (if c then 1 else 0);
    assert IsLeap(y) <==> a && (!b || c);
  }

  /** Counting multiples of 4, 100 and 400 one number further, and how the three divide each other. */
  lemma DivStep(p: nat)
    ensures (p + 1) / 4 == p / 4 + (if (p + 1) % 4 == 0 then 1 else 0)
    ensures (p + 1) / 100 == p / 100 + (if (p + 1) % 100 == 0 then 1 else 0)
    ensures (p + 1) / 400 == p / 400 + (if (p + 1) % 400 == 0 then 1 else 0)
    ensures (p + 1) % 100 == 0 ==> (p + 1) % 4 == 0
    ensures (p + 1) % 400 == 0 ==> (p + 1) % 100 == 0
  {
  }

  lemma DaysBeforeYearGrows(y: nat, y': nat)
    requires 1 <= y <= y'
    ensures DaysBeforeYear(y) + 365 * (y' - y) <= DaysBeforeYear(y')
    decreases y'
  {
    if y < y' {
      DaysBeforeYearGrows(y, y' - 1);
      DaysBeforeYearStep(y' - 1);
    }
  }

  /** The leap-year rule gives February 29 days exactly in leap years, so a year has `DaysInYear` days. */
  lemma DaysBeforeMonthYear(y: int)
    ensures DaysBeforeMonth(y, 13) == DaysInYear(y)
  {
    assert DaysBeforeMonth(y, 2) == 31;
    assert DaysBeforeMonth(y, 3) == 31 + DaysInMonth(y, 2);
    assert DaysBeforeMonth(y, 4) == 62 + DaysInMonth(y, 2);
    assert DaysBeforeMonth(y, 5) == 92 + DaysInMonth(y, 2);
    assert DaysBeforeMonth(y, 6) == 123 + DaysInMonth(y, 2);
    assert DaysBeforeMonth(y, 7) == 153 + DaysInMonth(y, 2);
    assert DaysBeforeMonth(y, 8) == 184 + DaysInMonth(y, 2);
    assert DaysBeforeMonth(y, 9) == 215 + DaysInMonth(y, 2);
    assert DaysBeforeMonth(y, 10) == 245 + DaysInMonth(y, 2);
    assert DaysBeforeMonth(y, 11) == 276 + DaysInMonth(y, 2);
    assert DaysBeforeMonth(y, 12) == 306 + DaysInMonth(y, 2);
    assert DaysBeforeMonth(y, 13) == 337 + DaysInMonth(y, 2);
  }

  /** A later calendar day has a larger day number. */
  lemma OrdinalMonotone(a: DateTime, b: DateTime)
    requires Valid(a) && Valid(b)
    requires a.year < b.year || (a.year == b.year && (a.month < b.month || (a.month == b.month && a.day < b.day)))
    ensures Ordinal(a) < Ordinal(b)
  {
    if a.year < b.year {
      DaysBeforeMonthGrows(a.year, a.month + 1, 13);
      DaysBeforeMonthYear(a.year);
      DaysBeforeYearStep(a.year);
      DaysBeforeYearGrows(a.year + 1, b.year);
    } else if a.month < b.month {
      DaysBeforeMonthGrows(a.year, a.month + 1, b.month);
    }
  }

  /** The point in time orders dates as `datetime` does. */
  lemma InstantMonotone(a: DateTime, b: DateTime)
    requires Valid(a) && Valid(b) && Before(a, b)
    ensures Instant(a) < Instant(b)
  {
    if a.year < b.year || (a.year == b.year && (a.month < b.month || (a.month == b.month && a.day < b.day))) {
      OrdinalMonotone(a, b);
      var oa, ob := Ordinal(a), Ordinal(b);
      assert Instant(a) == oa * MicrosPerDay + ((a.hour * 60 + a.minute) * 60 + a.second) * 1000000 + a.microsecond;
      assert Instant(b) == ob * MicrosPerDay + ((b.hour * 60 + b.minute) * 60 + b.second) * 1000000 + b.microsecond;
      assert oa * MicrosPerDay + MicrosPerDay <= ob * MicrosPerDay;
    }
  }

  /** The hour, minute and second of a point in time. */
  function TimeOfDay(t: int): (r: (nat, nat, nat))
    ensures r.0 < 24 && r.1 < 60 && r.2 < 60
  {
    var secs := (t % MicrosPerDay) / 1000000;
    (secs / 3600, (secs % 3600) / 60, secs % 60)
  }

  /** Reading the time of day back from a point in time gives the fields it was built from. */
  lemma TimeOfDayOfInstant(d: DateTime)
    requires Valid(d)
    ensures TimeOfDay(Instant(d)) == (d.hour, d.minute, d.second)
  {
    var o := Ordinal(d);
    var secs := (d.hour * 60 + d.minute) * 60 + d.second;
    var rest := secs * 1000000 + d.microsecond;
    assert Instant(d) == o * MicrosPerDay + rest;
    DayRemainder(o, rest);
    SecondOfDay(secs, d.microsecond);
    ClockFields(d.hour, d.minute, d.second);
  }

  lemma DayRemainder(o: int, rest: int)
    requires 0 <= rest < MicrosPerDay
    ensures (o * MicrosPerDay + rest) % MicrosPerDay == rest
  {
  }

  lemma SecondOfDay(secs: nat, us: nat)
    requires secs < 86400 && us < 1000000
    ensures 0 <= secs * 1000000 + us < MicrosPerDay
    ensures (secs * 1000000 + us) / 1000000 == secs
  {
  }

  lemma ClockFields(h: nat, m: nat, s: nat)
    requires h < 24 && m < 60 && s < 60
    ensures var secs := (h * 60 + m) * 60 + s;
      secs < 86400 && secs / 3600 == h && (secs % 3600) / 60 == m && secs % 60 == s
  {
  }

  /** `strftime('%H:%M:%S')`: two digits each, separated by colons. */
  function Clock(t: int): (r: string)
    ensures |r| == 8
  {
    var (h, m, s) := TimeOfDay(t);
    TwoDigits(h) + ":" + TwoDigits(m) + ":" + TwoDigits(s)
  }

  /** The clock text of a date's point in time reads back as the date's hour, minute and second. */
  lemma ClockOfInstant(d: DateTime)
    requires Valid(d)
    ensures var r := Clock(Instant(d));
      r[2] == ':' && r[5] == ':'
      && AllDigits(r[..2]) && AllDigits(r[3..5]) && AllDigits(r[6..])
      && ParseNat(r[..2]) == d.hour && ParseNat(r[3..5]) == d.minute && ParseNat(r[6..]) == d.second
  {
    TimeOfDayOfInstant(d);
    var hh, mm, ss := TwoDigits(d.hour), TwoDigits(d.minute), TwoDigits(d.second);
    var r := Clock(Instant(d));
    assert r == hh + ":" + mm + ":" + ss;
    assert r[..2] == hh && r[3..5] == mm && r[6..] == ss;
  }

  function TwoDigits(n: nat): (r: string)
    requires n < 100
    ensures |r| == 2 && AllDigits(r) && ParseNat(r) == n
  {
    var r := [DigitChar(n / 10), DigitChar(n % 10)];
    assert r[..1] == [DigitChar(n / 10)];
    r
  }

  // ---------------------------------------------------------------------------
  // parse_review_timestamps

  /**
   * The groups a review-marker line's pattern captures: month, day, year,
   * hour, minute and second as two digits each, the microsecond digits,
   * and the review segment after the colon.
   */
  datatype MarkerFields = MarkerFields(month: string, day: string, year: string, hour: string, minute: string,
                                       second: string, microsec: string, segment: string)

  predicate WellFormed(f: MarkerFields) {
    |f.month| == 2 && AllDigits(f.month) && |f.day| == 2 && AllDigits(f.day)
    && |f.year| == 2 && AllDigits(f.year) && |f.hour| == 2 && AllDigits(f.hour)
    && |f.minute| == 2 && AllDigits(f.minute) && |f.second| == 2 && AllDigits(f.second)
    && |f.microsec| >= 1 && AllDigits(f.microsec)
  }

  /** The date and time the fields name. */
  function DateOf(f: MarkerFields): (d: DateTime)
    requires WellFormed(f)
    ensures d.microsecond < 1000000 && 1950 <= d.year <= 2049
  {
    PivotYearRange(f.year);
    DateTime(PivotYear(f.year), ParseNat(f.month), ParseNat(f.day), ParseNat(f.hour), ParseNat(f.minute),
             ParseNat(f.second), Microseconds(f.microsec))
  }

  /** A review marker: its point in time and its review segment. */
  datatype Review = Review(time: int, segment: string)

  /** `datetime(...)` raises ValueError on a date or time out of range. */
  datatype DateError = DateOutOfRange(fields: MarkerFields)

  function MarkerOf(f: MarkerFields): (r: Result<Review, DateError>)
    requires WellFormed(f)
    ensures r.Success? <==> Valid(DateOf(f))
  {
    var d := DateOf(f);
    if Valid(d) then Success(Review(Instant(d), f.segment)) else Failure(DateOutOfRange(f))
  }

  /** Lines are read in order; one whose pattern does not match is `None` and is skipped. */
  predicate AllWellFormed(lines: seq<Option<MarkerFields>>) {
    forall i :: 0 <= i < |lines| && lines[i].Some? ==> WellFormed(lines[i].value)
  }

  /** The markers of the lines in file order, or the first error. */
  function Collected(lines: seq<Option<MarkerFields>>): (r: Result<seq<Review>, DateError>)
    requires AllWellFormed(lines)
  {
    if lines == [] then Success([])
    else
      var init := lines[..|lines| - 1];
      assert AllWellFormed(init) by {
        assert forall i :: 0 <= i < |init| ==> init[i] == lines[i];
      }
      match Collected(init)
      case Failure(e) => Failure(e)
      case Success(rs) =>
        match lines[|lines| - 1]
        case None => Success(rs)
        case Some(f) =>
          match MarkerOf(f)
          case Failure(e) => Failure(e)
          case Success(v) => Success(rs + [v])
  }

  function TimeKey(r: Review): int {
    r.time
  }

  /** `parse_review_timestamps` over the lines of the file: the markers sorted by time. */
  method ParseReviewTimestamps(lines: seq<Option<MarkerFields>>) returns (r: Result<seq<Review>, DateError>)
    requires AllWellFormed(lines)
    ensures Collected(lines).Failure? ==> r == Collected(lines)
    ensures Collected(lines).Success? ==> r == Success(Sorting.SortBy(Collected(lines).value, TimeKey))
  {
    var segments: seq<Review> := [];
    for i := 0 to |lines|
      invariant AllWellFormed(lines[..i])
      invariant Collected(lines[..i]) == Success(segments)
    {
      assert lines[..i + 1][..i] == lines[..i];
      assert lines[..i + 1][i] == lines[i];
      match lines[i]
      case None =>
      case Some(f) =>
        var d := DateOf(f);
        if !Valid(d) {
          r := Failure(DateOutOfRange(f));
          FailureStays(lines, i + 1);
          assert lines[..|lines|] == lines;
          return;
        }
        segments := segments + [Review(Instant(d), f.segment)];
    }
    assert lines[..|lines|] == lines;
    r := Success(Sorting.SortBy(segments, TimeKey));
  }

  /** Once a line fails, the whole file fails with that line's error. */
  lemma {:induction false} FailureStays(lines: seq<Option<MarkerFields>>, k: nat)
    requires AllWellFormed(lines) && 1 <= k <= |lines|
    requires Collected(lines[..k]).Failure?
    ensures Collected(lines) == Collected(lines[..k])
    decreases |lines| - k
  {
    if k < |lines| {
      assert lines[..k + 1][..k] == lines[..k];
      FailureStays(lines, k + 1);
    } else {
      assert lines[..k] == lines;
    }
  }

  /** The pattern-matching lines, in order. */
  function Matched(lines: seq<Option<MarkerFields>>): (m: seq<MarkerFields>)
    requires AllWellFormed(lines)
    ensures |m| <= |lines|
    ensures forall i :: 0 <= i < |m| ==> WellFormed(m[i])
  {
    if lines == [] then []
    else
      var init := lines[..|lines| - 1];
      assert AllWellFormed(init) by {
        assert forall i :: 0 <= i < |init| ==> init[i] == lines[i];
      }
      Matched(init) + (if lines[|lines| - 1].Some? then [lines[|lines| - 1].value] else [])
  }

  /**
   * Collecting succeeds exactly when every matching line names a valid date,
   * and then gives one marker per matching line, in file order.
   */
  lemma {:induction false} CollectedSpec(lines: seq<Option<MarkerFields>>)
    requires AllWellFormed(lines)
    ensures var m := Matched(lines);
      (Collected(lines).Success? <==> forall i :: 0 <= i < |m| ==> Valid(DateOf(m[i])))
      && (Collected(lines).Success? ==>
            Collected(lines).value == seq(|m|, i requires 0 <= i < |m| && Valid(DateOf(m[i])) => Review(Instant(DateOf(m[i])), m[i].segment)))
  {
    if lines != [] {
      var init := lines[..|lines| - 1];
      assert AllWellFormed(init) by {
        assert forall i :: 0 <= i < |init| ==> init[i] == lines[i];
      }
      CollectedSpec(init);
      var m0 := Matched(init);
      var m := Matched(lines);
      var last := lines[|lines| - 1];
      if last.None? {
        assert m == m0;
      } else {
        assert m == m0 + [last.value];
        assert forall i :: 0 <= i < |m0| ==> m[i] == m0[i];
        assert m[|m0|] == last.value;
        if Collected(init).Success? && Valid(DateOf(last.value)) {
          var rs := Collected(init).value;
          assert Collected(lines).value == rs + [Review(Instant(DateOf(last.value)), last.value.segment)];
        } else if Collected(init).Success? {
          assert !Valid(DateOf(m[|m0|]));
        } else {
          var i :| 0 <= i < |m0| && !Valid(DateOf(m0[i]));
          assert !Valid(DateOf(m[i]));
        }
      }
    }
  }

  /** The returned markers are sorted by time and are the collected ones, ties in file order. */
  lemma ParsedSorted(rs: seq<Review>, k: int)
    ensures Sorting.SortedBy(Sorting.SortBy(rs, TimeKey), TimeKey)
    ensures multiset(Sorting.SortBy(rs, TimeKey)) == multiset(rs)
    ensures Sorting.WithKey(Sorting.SortBy(rs, TimeKey), TimeKey, k) == Sorting.WithKey(rs, TimeKey, k)
  {
    Sorting.SortByStable(rs, TimeKey, k);
  }
}
