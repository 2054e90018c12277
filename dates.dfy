/**
 * The session clock and the date helpers of lib/dates.ts.
 *
 * The current time of day ("HH:MM") and today's date ("yyyy-MM-dd") are
 * parameters: reading the clock and converting it to the user's timezone is
 * not part of this model. Times and dates are compared as strings, as the
 * source does; for well-formed, zero-padded values that order is proved to be
 * the order of the minutes since midnight and of the calendar day number.
 */
module Dates {
  import opened Types
  import opened StringOrder
  import opened Decimal
  import opened SeqFacts

  // ---------------------------------------------------------------------------
  // Times of day, "HH:MM"

  predicate WellFormedTime(t: string) {
    |t| == 5 && AllDigits(t[..2]) && t[2] == ':' && AllDigits(t[3..])
  }

  function Hours(t: string): nat
    requires WellFormedTime(t)
  {
    DigitsValue(t[..2])
  }

  function Minutes(t: string): nat
    requires WellFormedTime(t)
  {
    DigitsValue(t[3..])
  }

  predicate ValidTime(t: string) {
    WellFormedTime(t) && Hours(t) < 24 && Minutes(t) < 60
  }

  function MinuteOfDay(t: string): (m: nat)
    requires ValidTime(t)
    ensures m < 24 * 60
  {
    60 * Hours(t) + Minutes(t)
  }

  /** Splitting a string of length at least k after its k-th character. */
  lemma SplitAt(s: string, k: nat)
    requires k < |s|
    ensures s == s[..k] + ([s[k]] + s[k + 1..])
  {
  }

  /** Comparing "HH:MM" strings as strings compares them as clock times. */
  lemma TimeOrder(a: string, b: string)
    requires ValidTime(a) && ValidTime(b)
    ensures Lt(a, b) <==> MinuteOfDay(a) < MinuteOfDay(b)
    ensures a == b <==> MinuteOfDay(a) == MinuteOfDay(b)
  {
    SplitAt(a, 2);
    SplitAt(b, 2);
    LtAppend(a[..2], a[2..], b[..2], b[2..]);
    assert a[2..] == [a[2]] + a[3..] && b[2..] == [b[2]] + b[3..];
    LtAppend([a[2]], a[3..], [b[2]], b[3..]);
    LtIrreflexive([a[2]]);
    DigitsOrder(a[..2], b[..2]);
    DigitsOrder(a[3..], b[3..]);
  }

  // ---------------------------------------------------------------------------
  // Calendar dates, "yyyy-MM-dd"

  predicate WellFormedDate(d: string) {
    && |d| == 10
    && AllDigits(d[..4]) && d[4] == '-'
    && AllDigits(d[5..7]) && d[7] == '-'
    && AllDigits(d[8..])
  }

  function Year(d: string): nat
    requires WellFormedDate(d)
  {
    DigitsValue(d[..4])
  }

  function Month(d: string): (m: nat)
    requires WellFormedDate(d)
    ensures m < 100
  {
    DigitsValueBound(d[5..7]);
    DigitsValue(d[5..7])
  }

  function Day(d: string): (n: nat)
    requires WellFormedDate(d)
    ensures n < 100
  {
    DigitsValueBound(d[8..]);
    DigitsValue(d[8..])
  }

  /** The three fields of a date packed into one number, year first. */
  function DateKey(d: string): nat
    requires WellFormedDate(d)
  {
    10000 * Year(d) + 100 * Month(d) + Day(d)
  }

  /** Comparing "yyyy-MM-dd" strings as strings compares year, then month, then day. */
  lemma DateOrder(a: string, b: string)
    requires WellFormedDate(a) && WellFormedDate(b)
    ensures Lt(a, b) <==> DateKey(a) < DateKey(b)
    ensures a == b <==> DateKey(a) == DateKey(b)
  {
    // a == a[..4] + "-" + a[5..7] + "-" + a[8..], and the same for b
    SplitAt(a, 4);
    SplitAt(b, 4);
    LtAppend(a[..4], a[4..], b[..4], b[4..]);
    assert a[4..] == [a[4]] + a[5..] && b[4..] == [b[4]] + b[5..];
    LtAppend([a[4]], a[5..], [b[4]], b[5..]);
    LtIrreflexive([a[4]]);
    assert a[5..] == a[5..7] + a[7..] && b[5..] == b[5..7] + b[7..];
    LtAppend(a[5..7], a[7..], b[5..7], b[7..]);
    assert a[7..] == [a[7]] + a[8..] && b[7..] == [b[7]] + b[8..];
    LtAppend([a[7]], a[8..], [b[7]], b[8..]);
    LtIrreflexive([a[7]]);
    DigitsOrder(a[..4], b[..4]);
    DigitsOrder(a[5..7], b[5..7]);
    DigitsOrder(a[8..], b[8..]);
    assert a == a[..4] + a[4..] && b == b[..4] + b[4..];
  }

  predicate IsLeapYear(y: nat) {
    y % 4 == 0 && (y % 100 != 0 || y % 400 == 0)
  }

  function DaysInMonth(y: nat, m: nat): (n: nat)
    requires 1 <= m <= 12
    ensures 28 <= n <= 31
  {
    if m == 2 then (if IsLeapYear(y) then 29 else 28)
    else if m == 4 || m == 6 || m == 9 || m == 11 then 30
    else 31
  }

  function YearLength(y: nat): nat {
    if IsLeapYear(y) then 366 else 365
  }

  /** A "yyyy-MM-dd" string naming a real calendar day: the only form of date this model reads. */
  predicate ValidDate(d: string) {
    WellFormedDate(d) && 1 <= Month(d) <= 12 && 1 <= Day(d) <= DaysInMonth(Year(d), Month(d))
  }

  function DaysBeforeMonth(y: nat, m: nat): nat
    requires 1 <= m <= 12
  {
    [0, 31, 59, 90, 120, 151, 181, 212, 243, 273, 304, 334][m - 1]
      + (if m > 2 && IsLeapYear(y) then 1 else 0)
  }

  function DaysBeforeYear(y: nat): nat {
    if y == 0 then 0 else DaysBeforeYear(y - 1) + YearLength(y - 1)
  }

  /** Days since 0000-01-01 of the proleptic Gregorian calendar. */
  function DayNumber(d: string): nat
    requires ValidDate(d)
  {
    DaysBeforeYear(Year(d)) + DaysBeforeMonth(Year(d), Month(d)) + Day(d) - 1
  }

  lemma {:induction false} MonthsAccumulate(y: nat, m1: nat, m2: nat)
    requires 1 <= m1 < m2 <= 12
    ensures DaysBeforeMonth(y, m1) + DaysInMonth(y, m1) <= DaysBeforeMonth(y, m2)
    decreases m2
  {
    if m1 < m2 - 1 {
      MonthsAccumulate(y, m1, m2 - 1);
    }
  }

  lemma {:induction false} YearsAccumulate(y1: nat, y2: nat)
    requires y1 < y2
    ensures DaysBeforeYear(y1) + YearLength(y1) <= DaysBeforeYear(y2)
    decreases y2
  {
    if y1 < y2 - 1 {
      YearsAccumulate(y1, y2 - 1);
    }
  }

  /** A valid day lies inside its year. */
  lemma DayWithinYear(d: string)
    requires ValidDate(d)
    ensures DaysBeforeMonth(Year(d), Month(d)) + Day(d) <= YearLength(Year(d))
  {
    var y, m := Year(d), Month(d);
    if m < 12 {
      MonthsAccumulate(y, m, 12);
    }
  }

  /** The day number orders valid dates as their strings do. */
  lemma DayNumberOrder(a: string, b: string)
    requires ValidDate(a) && ValidDate(b)
    ensures Lt(a, b) <==> DayNumber(a) < DayNumber(b)
    ensures a == b <==> DayNumber(a) == DayNumber(b)
  {
    DateOrder(a, b);
    if Year(a) < Year(b) {
      DayWithinYear(a);
      YearsAccumulate(Year(a), Year(b));
    } else if Year(b) < Year(a) {
      DayWithinYear(b);
      YearsAccumulate(Year(b), Year(a));
    } else if Month(a) < Month(b) {
      MonthsAccumulate(Year(a), Month(a), Month(b));
    } else if Month(b) < Month(a) {
      MonthsAccumulate(Year(b), Month(b), Month(a));
    }
  }

  // ---------------------------------------------------------------------------
  // Sessions

  /**
   * getCurrentSessionNumber: the 1-based number of the last boundary, in the
   * sorted copy of the configured times, that the current time has reached;
   * None before the first boundary of the day.
   */
  method CurrentSessionNumber(checkInTimes: seq<string>, currentTime: string) returns (r: Option<nat>)
    ensures var sorted := Sort(checkInTimes);
      && (r.None? <==> forall j :: 0 <= j < |sorted| ==> Lt(currentTime, sorted[j]))
      && (r.Some? ==> 1 <= r.value <= |sorted| && Le(sorted[r.value - 1], currentTime))
      && (r.Some? ==> forall j :: r.value <= j < |sorted| ==> Lt(currentTime, sorted[j]))
    ensures r.None? <==> forall b :: b in checkInTimes ==> Lt(currentTime, b)
    ensures forall k :: 0 <= k < |Sort(checkInTimes)| && Sort(checkInTimes)[k] == currentTime ==>
      r.Some? && k < r.value
  {
    var sorted := Sort(checkInTimes);
    SortSameElements(checkInTimes, currentTime);
    var i := |sorted| - 1;
    while i >= 0
      invariant -1 <= i < |sorted|
      invariant forall j :: i < j < |sorted| ==> Lt(currentTime, sorted[j])
    {
      LeIffNotLt(sorted[i], currentTime);
      if Le(sorted[i], currentTime) {
        SortSameElements(checkInTimes, sorted[i]);
        assert !Lt(currentTime, sorted[i]);
        r := Some(i + 1);
        forall k | 0 <= k < |sorted| && sorted[k] == currentTime ensures k < i + 1 {
          LtIrreflexive(currentTime);
        }
        return;
      }
      i := i - 1;
    }
    forall b | b in checkInTimes ensures Lt(currentTime, b) {
      SortSameElements(checkInTimes, b);
    }
    forall k | 0 <= k < |sorted| ensures sorted[k] != currentTime {
      LtIrreflexive(currentTime);
    }
    r := None;
  }

  /**
   * The session found by CurrentSessionNumber, read as clock times: the
   * current time lies in the window [boundary k, boundary k+1), the last
   * window running to the end of the day.
   */
  lemma SessionWindowInMinutes(sorted: seq<string>, t: string, k: nat)
    requires forall j :: 0 <= j < |sorted| ==> ValidTime(sorted[j])
    requires ValidTime(t)
    requires 1 <= k <= |sorted| && Le(sorted[k - 1], t)
    requires forall j :: k <= j < |sorted| ==> Lt(t, sorted[j])
    ensures MinuteOfDay(sorted[k - 1]) <= MinuteOfDay(t)
    ensures k < |sorted| ==> MinuteOfDay(t) < MinuteOfDay(sorted[k])
  {
    TimeOrder(sorted[k - 1], t);
    if k < |sorted| {
      TimeOrder(t, sorted[k]);
    }
  }

  /**
   * getNextSessionTime: the earliest configured time strictly after the
   * current time, or None when every session of the day has begun.
   */
  method NextSessionTime(checkInTimes: seq<string>, currentTime: string) returns (r: Option<string>)
    ensures r.None? <==> forall b :: b in checkInTimes ==> Le(b, currentTime)
    ensures r.Some? ==> r.value in checkInTimes && Lt(currentTime, r.value)
    ensures r.Some? ==> forall b :: b in checkInTimes && Lt(currentTime, b) ==> Le(r.value, b)
  {
    var sorted := Sort(checkInTimes);
    SortCorrect(checkInTimes);
    var i := 0;
    while i < |sorted|
      invariant 0 <= i <= |sorted|
      invariant forall j :: 0 <= j < i ==> Le(sorted[j], currentTime)
    {
      LeIffNotLt(sorted[i], currentTime);
      if Lt(currentTime, sorted[i]) {
        r := Some(sorted[i]);
        SortSameElements(checkInTimes, sorted[i]);
        forall b | b in checkInTimes && Lt(currentTime, b) ensures Le(sorted[i], b) {
          SortSameElements(checkInTimes, b);
          var j :| 0 <= j < |sorted| && sorted[j] == b;
          if j < i {
            LeIffNotLt(b, currentTime);
          }
        }
        assert !Le(sorted[i], currentTime);
        return;
      }
      i := i + 1;
    }
    forall b | b in checkInTimes ensures Le(b, currentTime) {
      SortSameElements(checkInTimes, b);
    }
    r := None;
  }

  const SessionLabels: seq<string> := ["Morning", "Midday", "Evening"]

  /** getSessionLabel: the names of the first three sessions, "Session n" otherwise. */
  function SessionLabel(sessionNumber: int): (r: string)
    ensures sessionNumber == 1 ==> r == "Morning"
    ensures sessionNumber == 2 ==> r == "Midday"
    ensures sessionNumber == 3 ==> r == "Evening"
    ensures !(1 <= sessionNumber <= 3) ==> |r| > 8 && r[..8] == "Session " && r[8..] == IntToString(sessionNumber)
  {
    if 1 <= sessionNumber <= 3 then SessionLabels[sessionNumber - 1]
    else "Session " + IntToString(sessionNumber)
  }

  /** Different session numbers get different labels. */
  lemma SessionLabelInjective(m: int, n: int)
    requires m != n
    ensures SessionLabel(m) != SessionLabel(n)
  {
    if !(1 <= m <= 3) && !(1 <= n <= 3) {
      NumberedLabelsDiffer(m, n);
    } else if 1 <= m <= 3 && 1 <= n <= 3 {
      assert |SessionLabels[0]| == 7 && |SessionLabels[1]| == 6 && |SessionLabels[2]| == 7;
      assert SessionLabels[0][0] == 'M' && SessionLabels[2][0] == 'E';
    } else if 1 <= m <= 3 {
      NamedAndNumberedDiffer(m, n);
    } else {
      NamedAndNumberedDiffer(n, m);
    }
  }

  lemma NumberedLabelsDiffer(m: int, n: int)
    requires m != n && !(1 <= m <= 3) && !(1 <= n <= 3)
    ensures SessionLabel(m) != SessionLabel(n)
  {
    DropPrefix("Session ", IntToString(m));
    DropPrefix("Session ", IntToString(n));
    if IntToString(m) == IntToString(n) {
      IntToStringInjective(m, n);
    }
  }

  lemma NamedAndNumberedDiffer(m: int, n: int)
    requires 1 <= m <= 3 && !(1 <= n <= 3)
    ensures SessionLabel(m) != SessionLabel(n)
  {
    assert SessionLabels[0][0] == 'M' && SessionLabels[1][0] == 'M' && SessionLabels[2][0] == 'E';
    assert SessionLabel(n)[0] == 'S';
  }

  /** The hour shown on a 12-hour clock: 0 and 12 are shown as 12. */
  function Hour12(h: nat): (r: nat)
    ensures 1 <= r <= 12
    ensures r % 12 == h % 12
  {
    if h % 12 == 0 then 12 else h % 12
  }

  /**
   * formatTime12h: "h:MM AM" or "h:MM PM". The minutes are parsed as a number
   * and padded back to two digits, which reproduces them exactly.
   */
  function FormatTime12h(time24: string): (r: string)
    requires WellFormedTime(time24)
    ensures r == NatToString(Hour12(Hours(time24))) + ":" + time24[3..] + " "
                 + (if Hours(time24) >= 12 then "PM" else "AM")
  {
    var hours := Hours(time24);
    var minutes := Minutes(time24);
    var ampm := if hours >= 12 then "PM" else "AM";
    TwoDigitsRoundTrip(time24[3..]);
    NatToString(Hour12(hours)) + ":" + PadStart2(NatToString(minutes)) + " " + ampm
  }

  /**
   * The rendering reads back: the hour is everything before the last six
   * characters, then come the two minute digits of the input and the suffix.
   */
  lemma FormatTime12hParts(t: string)
    requires WellFormedTime(t)
    ensures var r := FormatTime12h(t);
      && |r| >= 7
      && r[..|r| - 6] == NatToString(Hour12(Hours(t)))
      && r[|r| - 5..|r| - 3] == t[3..]
      && r[|r| - 2..] == (if Hours(t) >= 12 then "PM" else "AM")
  {
    ClockLayout(NatToString(Hour12(Hours(t))), t[3..], if Hours(t) >= 12 then "PM" else "AM");
  }

  /** Where the pieces of "h:MM XM" sit. */
  lemma ClockLayout(h: string, m: string, x: string)
    requires |h| >= 1 && |m| == 2 && |x| == 2
    ensures var r := h + ":" + m + " " + x;
      && |r| == |h| + 6
      && r[..|r| - 6] == h
      && r[|r| - 5..|r| - 3] == m
      && r[|r| - 2..] == x
  {
  }

  /** The 12-hour rendering loses nothing: different valid times render differently. */
  lemma FormatTime12hInjective(a: string, b: string)
    requires ValidTime(a) && ValidTime(b)
    requires FormatTime12h(a) == FormatTime12h(b)
    ensures a == b
  {
    FormatTime12hParts(a);
    FormatTime12hParts(b);
    NatToStringInjective(Hour12(Hours(a)), Hour12(Hours(b)));
    assert (Hours(a) >= 12) == (Hours(b) >= 12) by {
      assert "PM"[0] != "AM"[0];
    }
    Hour12Recovers(Hours(a), Hours(b));
    SameTime(a, b);
  }

  /** The 12-hour clock hour and the AM/PM half determine the 24-hour hour. */
  lemma Hour12Recovers(h: nat, k: nat)
    requires h < 24 && k < 24
    requires Hour12(h) == Hour12(k) && (h >= 12) == (k >= 12)
    ensures h == k
  {
  }

  lemma SameTime(a: string, b: string)
    requires WellFormedTime(a) && WellFormedTime(b)
    requires Hours(a) == Hours(b) && a[3..] == b[3..]
    ensures a == b
  {
    DigitsOrder(a[..2], b[..2]);
    assert a == a[..2] + [':'] + a[3..] && b == b[..2] + [':'] + b[3..];
  }

  /** isDateInRange: inclusive at both ends; false when a date is not a valid "yyyy-MM-dd" date. */
  function IsDateInRange(date: string, start: string, end: string): (r: bool)
    ensures r <==> ValidDate(date) && ValidDate(start) && ValidDate(end) && Le(start, date) && Le(date, end)
  {
    if ValidDate(date) && ValidDate(start) && ValidDate(end) then
      DayNumberOrder(start, date);
      DayNumberOrder(date, end);
      DayNumber(start) <= DayNumber(date) <= DayNumber(end)
    else false
  }

  /**
   * getDaysUntilSummer with today as a parameter: the whole days from today
   * to the summer date, clamped at 0. None stands for the NaN the source
   * produces when a date is not valid; only "yyyy-MM-dd" is read.
   */
  function DaysUntilSummer(summerDate: string, today: string): (r: Option<int>)
    ensures r.Some? <==> ValidDate(summerDate) && ValidDate(today)
    ensures r.Some? ==> r.value >= 0
    ensures r.Some? ==> (r.value == 0 <==> Le(summerDate, today))
    ensures r.Some? && Lt(today, summerDate) ==> r.value == DayNumber(summerDate) - DayNumber(today)
  {
    if ValidDate(summerDate) && ValidDate(today) then
      DayNumberOrder(summerDate, today);
      LeIffNotLt(summerDate, today);
      Some(Max0(DayNumber(summerDate) - DayNumber(today)))
    else None
  }

  /** getDaysSinceStart with today as a parameter: whole days since the start date, clamped at 0. */
  function DaysSinceStart(startDate: string, today: string): (r: Option<int>)
    ensures r.Some? <==> ValidDate(startDate) && ValidDate(today)
    ensures r.Some? ==> r.value >= 0
    ensures r.Some? ==> (r.value == 0 <==> Le(today, startDate))
    ensures r.Some? && Lt(startDate, today) ==> r.value == DayNumber(today) - DayNumber(startDate)
  {
    if ValidDate(startDate) && ValidDate(today) then
      DayNumberOrder(today, startDate);
      LeIffNotLt(today, startDate);
      Some(Max0(DayNumber(today) - DayNumber(startDate)))
    else None
  }

  /** Math.max(0, x) */
  function Max0(x: int): int {
    if x > 0 then x else 0
  }
}
