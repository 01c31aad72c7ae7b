/** The calendar helper of the dashboard server: weekend and holiday tests and
    the search for the next school day. Dates are whole days counted from
    1970-01-01; a point in time (what the server holds as a `moment`) is a day
    together with the milliseconds elapsed since its local midnight. */
module Calendar {
  import opened Outcomes

  /** A calendar day: the number of days since 1970-01-01, which was a Thursday. */
  type Day = int

  const MsPerHour: nat := 3_600_000
  const MsPerDay: nat := 24 * MsPerHour

  /** After this hour the current day is no longer shown. */
  const CutoffHour: nat := 18

  /** The milliseconds elapsed since local midnight: less than one day. */
  type MsOfDay = n: nat | n < 86_400_000

  /** A point in local time: a day and the milliseconds since that day's midnight. */
  datatype Moment = Moment(day: Day, msOfDay: MsOfDay)

  /** moment's `hour()`. */
  function Hour(m: Moment): nat
  {
    m.msOfDay / MsPerHour
  }

  /** The instant of `m` in milliseconds since 1970-01-01 00:00 local time. */
  function Instant(m: Moment): int
  {
    m.day * MsPerDay + m.msOfDay
  }

  /** moment's `day()`: 0 is Sunday, 6 is Saturday. */
  function Weekday(d: Day): (w: nat)
    ensures w < 7
  {
    (d + 4) % 7
  }

  /** The day number of a proleptic Gregorian date, which is what parsing a
      `YYYY-MM-DD` string gives. */
  function DaysFromCivil(year: int, month: int, dayOfMonth: int): Day
    requires 1 <= month <= 12
  {
    var y := if month <= 2 then year - 1 else year;
    var era := y / 400;
    var yearOfEra := y - era * 400;
    var shiftedMonth := (month + 9) % 12;
    var dayOfYear := (153 * shiftedMonth + 2) / 5 + dayOfMonth - 1;
    var dayOfEra := yearOfEra * 365 + yearOfEra / 4 - yearOfEra / 100 + dayOfYear;
    era * 146097 + dayOfEra - 719468
  }

  predicate IsWeekend(d: Day)
  {
    Weekday(d) == 0 || Weekday(d) == 6
  }

  /** The weekday pattern repeats every seven days. */
  lemma {:induction false} WeekendPeriodic(d: Day, weeks: int)
    ensures IsWeekend(d + 7 * weeks) == IsWeekend(d)
  {
    assert Weekday(d + 7 * weeks) == Weekday(d) by {
      assert d + 7 * weeks + 4 == (d + 4) + 7 * weeks;
    }
  }

  /** Weekends are two days long: of any three consecutive days one is a weekday.
      This is what makes the search for the next school day end once it has
      passed every holiday. */
  lemma {:induction false} WeekdayWithinThreeDays(d: Day)
    ensures !IsWeekend(d) || !IsWeekend(d + 1) || !IsWeekend(d + 2)
  {
    var w := Weekday(d);
    assert Weekday(d + 1) == (w + 1) % 7 && Weekday(d + 2) == (w + 2) % 7 by {
      var q := (d + 4) / 7;
      assert d + 4 == 7 * q + w;
      assert d + 5 == 7 * q + (w + 1);
      assert d + 6 == 7 * q + (w + 2);
    }
  }

  /** One holiday period as the server keeps it: a name and the first and last day. */
  datatype Holiday = Holiday(name: string, start: Day, end: Day)

  /** The holidays returned when the holiday fetch fails: two periods, each
      ending no earlier than it starts. */
  function FallbackHolidays(): (h: seq<Holiday>)
    ensures |h| == 2
    ensures forall i :: 0 <= i < |h| ==> h[i].start <= h[i].end
  {
    FallbackDayNumbers();
    [ Holiday("Sommerferien", DaysFromCivil(2025, 7, 1), DaysFromCivil(2025, 8, 31)),
      Holiday("Weihnachtsferien", DaysFromCivil(2025, 12, 23), DaysFromCivil(2026, 1, 6)) ]
  }

  /** Fetching the holidays: when no API client object exists and creating one
      and logging in fails, the fetch throws (`None`); otherwise an API error
      is replaced by the two fallback periods. */
  function FetchHolidays(clientReady: bool, response: Fetch<seq<Holiday>>): (r: Option<seq<Holiday>>)
    ensures r.None? <==> !clientReady
    ensures clientReady && response.Fetched? ==> r == Some(response.data)
    ensures clientReady && response.FetchFailed? ==> r == Some(FallbackHolidays())
  {
    if !clientReady then None
    else if response.Fetched? then Some(response.data)
    else Some(FallbackHolidays())
  }

  /** The two fallback periods, in calendar terms: the summer break runs for 62
      days from Tuesday 2025-07-01, the winter break for 15 days from Tuesday
      2025-12-23 across the turn of the year. */
  lemma FallbackPeriods()
    ensures var h := FallbackHolidays();
      |h| == 2 &&
      h[0].start == DaysFromCivil(2025, 7, 1) && h[1].start == DaysFromCivil(2025, 12, 23) &&
      h[0].name == "Sommerferien" && h[0].end - h[0].start + 1 == 62 && Weekday(h[0].start) == 2 &&
      h[1].name == "Weihnachtsferien" && h[1].end - h[1].start + 1 == 15 && Weekday(h[1].start) == 2 &&
      h[1].start < DaysFromCivil(2026, 1, 1) <= h[1].end
  {
    FallbackDayNumbers();
  }

  /** The day numbers of the dates the fallback periods are written with. */
  lemma FallbackDayNumbers()
    ensures DaysFromCivil(2025, 7, 1) == 20270 && DaysFromCivil(2025, 8, 31) == 20331
    ensures DaysFromCivil(2025, 12, 23) == 20445 && DaysFromCivil(2026, 1, 6) == 20459
    ensures DaysFromCivil(2026, 1, 1) == 20454
  {
    CivilDaysOf2025(7, 1, 122);
    CivilDaysOf2025(8, 31, 183);
    CivilDaysOf2025(12, 23, 297);
    assert DaysFromCivil(2026, 1, 1) == 20454 by {
      assert (2026 - 1) / 400 == 5;
    }
    assert DaysFromCivil(2026, 1, 6) == 20459 by {
      assert (2026 - 1) / 400 == 5;
    }
  }

  /** A date of 2025 from March on: its day number follows from its position in the
      March-based year that `DaysFromCivil` counts with. */
  lemma CivilDaysOf2025(month: int, dayOfMonth: int, dayOfYear: int)
    requires 3 <= month <= 12
    requires dayOfYear == (153 * ((month + 9) % 12) + 2) / 5 + dayOfMonth - 1
    ensures DaysFromCivil(2025, month, dayOfMonth) == 20148 + dayOfYear
  {
    assert 2025 / 400 == 5;
  }

  /** With a ready client and a failed fetch, exactly the days of the two
      fallback periods are holidays. */
  lemma FallbackHolidayDays(d: Day)
    ensures IsHoliday(d, FetchHolidays(true, FetchFailed)) <==>
      (DaysFromCivil(2025, 7, 1) <= d <= DaysFromCivil(2025, 8, 31)) ||
      (DaysFromCivil(2025, 12, 23) <= d <= DaysFromCivil(2026, 1, 6))
  {
    var h := FallbackHolidays();
    if Covers(h[0], d) {
      assert 0 < |h|;
    } else if Covers(h[1], d) {
      assert 1 < |h|;
    }
  }

  // ---------------------------------------------------------------------------
  // Holiday membership, as intended: whole days, both ends included.

  /** Day `d` lies in the period `h`, first and last day included. */
  predicate Covers(h: Holiday, d: Day)
  {
    h.start <= d <= h.end
  }

  /** `d` is a holiday: the lookup succeeded and some period covers `d`.
      A failed lookup makes every day a non-holiday. */
  predicate IsHoliday(d: Day, lookup: Option<seq<Holiday>>)
  {
    lookup.Some? && exists i :: 0 <= i < |lookup.value| && Covers(lookup.value[i], d)
  }

  /** The holiday test: scan the periods, stop at the first one covering `d`. */
  method CheckHoliday(d: Day, lookup: Option<seq<Holiday>>) returns (r: bool)
    ensures r <==> IsHoliday(d, lookup)
  {
    if lookup.None? {
      return false;
    }
    var holidays := lookup.value;
    for i := 0 to |holidays|
      invariant forall j :: 0 <= j < i ==> !Covers(holidays[j], d)
    {
      if holidays[i].start <= d <= holidays[i].end {
        return true;
      }
    }
    return false;
  }

  /** A day later than every period's end, and no earlier than `floor`. */
  function LastHolidayDay(holidays: seq<Holiday>, floor: Day): (last: Day)
    ensures floor <= last
    ensures forall i :: 0 <= i < |holidays| ==> holidays[i].end <= last
    decreases |holidays|
  {
    if holidays == [] then floor
    else
      var rest := LastHolidayDay(holidays[1..], floor);
      if holidays[0].end <= rest then rest else holidays[0].end
  }

  /** No period covers a day after `LastHolidayDay`. */
  lemma AfterLastHoliday(d: Day, lookup: Option<seq<Holiday>>, floor: Day)
    requires lookup.Some? ==> LastHolidayDay(lookup.value, floor) < d
    ensures !IsHoliday(d, lookup)
  {
  }

  /** A school day is neither a weekend day nor a holiday. */
  predicate IsSchoolDay(d: Day, lookup: Option<seq<Holiday>>)
  {
    !IsWeekend(d) && !IsHoliday(d, lookup)
  }

  /** Whether the reference moment itself is still shown: a school day before the cutoff hour. */
  predicate ShowsSameDay(reference: Moment, lookup: Option<seq<Holiday>>)
  {
    IsSchoolDay(reference.day, lookup) && Hour(reference) < CutoffHour
  }

  /** `next` is the next school day for `reference`: the reference moment itself
      when it is a school day before the cutoff hour, and otherwise the first
      school day after it, at the same time of day. */
  predicate IsNextSchoolDay(reference: Moment, lookup: Option<seq<Holiday>>, next: Moment)
  {
    next.msOfDay == reference.msOfDay &&
    (ShowsSameDay(reference, lookup) ==> next == reference) &&
    (!ShowsSameDay(reference, lookup) ==>
      reference.day < next.day && IsSchoolDay(next.day, lookup) &&
      forall d :: reference.day < d < next.day ==> !IsSchoolDay(d, lookup))
  }

  /** The next school day, found by stepping forward one day at a time. */
  method NextSchoolDay(reference: Moment, lookup: Option<seq<Holiday>>) returns (next: Moment)
    ensures IsNextSchoolDay(reference, lookup, next)
  {
    var holiday := false;
    var weekend := IsWeekend(reference.day);
    if !weekend {
      holiday := CheckHoliday(reference.day, lookup);
    }
    if !weekend && !holiday && Hour(reference) < CutoffHour {
      return reference;
    }
    // Past the last holiday only weekends are skipped, and they last two days.
    ghost var last := if lookup.Some? then LastHolidayDay(lookup.value, reference.day) else reference.day;
    var day := reference.day;
    var found := false;
    while !found
      invariant reference.day <= day <= last + 3
      invariant found ==> reference.day < day && IsSchoolDay(day, lookup)
      invariant forall d :: reference.day < d < day ==> !IsSchoolDay(d, lookup)
      invariant !found && reference.day < day ==> !IsSchoolDay(day, lookup)
      decreases last + 3 - day, !found
    {
      if day >= last + 3 {
        forall d | last < d
          ensures !IsHoliday(d, lookup)
        {
          AfterLastHoliday(d, lookup, reference.day);
        }
        assert !IsSchoolDay(last + 1, lookup) && !IsSchoolDay(last + 2, lookup) && !IsSchoolDay(last + 3, lookup);
        WeekdayWithinThreeDays(last + 1);
        assert false;
      }
      day := day + 1;
      weekend := IsWeekend(day);
      holiday := false;
      if !weekend {
        holiday := CheckHoliday(day, lookup);
      }
      found := !weekend && !holiday;
    }
    next := Moment(day, reference.msOfDay);
  }

  // ---------------------------------------------------------------------------
  // Holiday membership as the server writes it: moment's
  // `isBetween(start, end, null, '[]')`, compared to the millisecond, with the
  // period's first and last day parsed as their local midnight.

  /** `m` lies between the midnights that begin `start` and `end`, both included. */
  predicate BetweenMidnights(m: Moment, start: Day, end: Day)
  {
    start * MsPerDay <= Instant(m) <= end * MsPerDay
  }

  predicate IsHolidayAtMoment(m: Moment, lookup: Option<seq<Holiday>>)
  {
    lookup.Some? &&
    exists i :: 0 <= i < |lookup.value| && BetweenMidnights(m, lookup.value[i].start, lookup.value[i].end)
  }

  /** The holiday test as written: the same scan, comparing the moment itself. */
  method CheckHolidayAtMoment(m: Moment, lookup: Option<seq<Holiday>>) returns (r: bool)
    ensures r <==> IsHolidayAtMoment(m, lookup)
  {
    if lookup.None? {
      return false;
    }
    var holidays := lookup.value;
    for i := 0 to |holidays|
      invariant forall j :: 0 <= j < i ==> !BetweenMidnights(m, holidays[j].start, holidays[j].end)
    {
      if holidays[i].start * MsPerDay <= Instant(m) <= holidays[i].end * MsPerDay {
        return true;
      }
    }
    return false;
  }

  /** What the test as written decides, in whole days: a covered day counts,
      except the last day of a period, which counts only at exactly midnight. */
  lemma MomentTestInDays(m: Moment, h: Holiday)
    ensures BetweenMidnights(m, h.start, h.end) <==>
      h.start <= m.day && (m.day < h.end || (m.day == h.end && m.msOfDay == 0))
  {
    if h.start <= m.day {
      assert h.start * MsPerDay <= m.day * MsPerDay;
    } else {
      assert m.day + 1 <= h.start;
      assert (m.day + 1) * MsPerDay <= h.start * MsPerDay;
    }
    if m.day < h.end {
      assert (m.day + 1) * MsPerDay <= h.end * MsPerDay;
    } else if m.day > h.end {
      assert (h.end + 1) * MsPerDay <= m.day * MsPerDay;
    }
  }

  /** The test as written never reports more than the intended one, and agrees
      with it at midnight. */
  lemma MomentTestAgreesAtMidnight(m: Moment, lookup: Option<seq<Holiday>>)
    ensures IsHolidayAtMoment(m, lookup) ==> IsHoliday(m.day, lookup)
    ensures m.msOfDay == 0 ==> (IsHolidayAtMoment(m, lookup) <==> IsHoliday(m.day, lookup))
  {
    if lookup.Some? {
      forall i | 0 <= i < |lookup.value|
        ensures BetweenMidnights(m, lookup.value[i].start, lookup.value[i].end) ==> Covers(lookup.value[i], m.day)
        ensures m.msOfDay == 0 ==> (BetweenMidnights(m, lookup.value[i].start, lookup.value[i].end) <==> Covers(lookup.value[i], m.day))
      {
        MomentTestInDays(m, lookup.value[i]);
      }
    }
  }

  /** The discrepancy: at 10:00 on 2026-01-06, the last day of the fallback winter
      break, the test as written says "no holiday" although the day is covered. */
  lemma LastHolidayDayMissed()
    ensures var m := Moment(DaysFromCivil(2026, 1, 6), 10 * MsPerHour);
      !IsHolidayAtMoment(m, Some(FallbackHolidays())) && IsHoliday(m.day, Some(FallbackHolidays()))
  {
    var m := Moment(DaysFromCivil(2026, 1, 6), 10 * MsPerHour);
    var h := FallbackHolidays();
    MomentTestInDays(m, h[0]);
    MomentTestInDays(m, h[1]);
    assert Covers(h[1], m.day);
  }

  /** No period contains a moment of a day after `LastHolidayDay`, whatever its time. */
  lemma AfterLastHolidayAtMoment(m: Moment, lookup: Option<seq<Holiday>>, floor: Day)
    requires lookup.Some? ==> LastHolidayDay(lookup.value, floor) < m.day
    ensures !IsHolidayAtMoment(m, lookup)
  {
    if lookup.Some? {
      forall i | 0 <= i < |lookup.value|
        ensures !BetweenMidnights(m, lookup.value[i].start, lookup.value[i].end)
      {
        assert (lookup.value[i].end + 1) * MsPerDay <= m.day * MsPerDay;
      }
    }
  }

  /** A school day as the search written in the server tests it: not a weekend
      day, and the moment itself (at the reference's time of day) is in no period. */
  predicate IsSchoolMomentAsWritten(m: Moment, lookup: Option<seq<Holiday>>)
  {
    !IsWeekend(m.day) && !IsHolidayAtMoment(m, lookup)
  }

  /** `next` is what the search as written returns for `reference`: the
      reference moment itself when it passes both tests before the cutoff hour,
      and otherwise the first later day whose moment at the same time of day
      passes both tests. */
  predicate IsNextSchoolDayAsWritten(reference: Moment, lookup: Option<seq<Holiday>>, next: Moment)
  {
    next.msOfDay == reference.msOfDay &&
    (IsSchoolMomentAsWritten(reference, lookup) && Hour(reference) < CutoffHour ==> next == reference) &&
    (!(IsSchoolMomentAsWritten(reference, lookup) && Hour(reference) < CutoffHour) ==>
      reference.day < next.day && IsSchoolMomentAsWritten(next, lookup) &&
      forall d :: reference.day < d < next.day ==> !IsSchoolMomentAsWritten(Moment(d, reference.msOfDay), lookup))
  }

  /** The search as written: the same steps as `NextSchoolDay`, with every
      holiday test made on the moment, as `isBetween` does. */
  method NextSchoolDayAsWritten(reference: Moment, lookup: Option<seq<Holiday>>) returns (next: Moment)
    ensures IsNextSchoolDayAsWritten(reference, lookup, next)
  {
    var holiday := false;
    var weekend := IsWeekend(reference.day);
    if !weekend {
      holiday := CheckHolidayAtMoment(reference, lookup);
    }
    if !weekend && !holiday && Hour(reference) < CutoffHour {
      return reference;
    }
    ghost var last := if lookup.Some? then LastHolidayDay(lookup.value, reference.day) else reference.day;
    var day := reference.day;
    var found := false;
    while !found
      invariant reference.day <= day <= last + 3
      invariant found ==> reference.day < day && IsSchoolMomentAsWritten(Moment(day, reference.msOfDay), lookup)
      invariant forall d :: reference.day < d < day ==> !IsSchoolMomentAsWritten(Moment(d, reference.msOfDay), lookup)
      invariant !found && reference.day < day ==> !IsSchoolMomentAsWritten(Moment(day, reference.msOfDay), lookup)
      decreases last + 3 - day, !found
    {
      if day >= last + 3 {
        AfterLastHolidayAtMoment(Moment(last + 1, reference.msOfDay), lookup, reference.day);
        AfterLastHolidayAtMoment(Moment(last + 2, reference.msOfDay), lookup, reference.day);
        AfterLastHolidayAtMoment(Moment(last + 3, reference.msOfDay), lookup, reference.day);
        assert !IsSchoolMomentAsWritten(Moment(last + 1, reference.msOfDay), lookup);
        assert !IsSchoolMomentAsWritten(Moment(last + 2, reference.msOfDay), lookup);
        assert !IsSchoolMomentAsWritten(Moment(last + 3, reference.msOfDay), lookup);
        WeekdayWithinThreeDays(last + 1);
        assert false;
      }
      day := day + 1;
      weekend := IsWeekend(day);
      holiday := false;
      if !weekend {
        holiday := CheckHolidayAtMoment(Moment(day, reference.msOfDay), lookup);
      }
      found := !weekend && !holiday;
    }
    next := Moment(day, reference.msOfDay);
  }

  /** The discrepancy in the search: asked at 19:00 on Monday 2026-01-05, inside
      the fallback winter break, the search as written stops at Tuesday
      2026-01-06, the break's last day. */
  lemma WrittenSearchStopsOnLastHolidayDay(next: Moment)
    requires IsNextSchoolDayAsWritten(Moment(DaysFromCivil(2026, 1, 5), 19 * MsPerHour), Some(FallbackHolidays()), next)
    ensures next.day == DaysFromCivil(2026, 1, 6)
  {
    FallbackDayNumbers();
    assert DaysFromCivil(2026, 1, 5) == 20458 by {
      assert (2026 - 1) / 400 == 5;
    }
    var lookup := Some(FallbackHolidays());
    var reference := Moment(20458, 19 * MsPerHour);
    var h := FallbackHolidays();
    assert BetweenMidnights(reference, h[1].start, h[1].end);
    var candidate := Moment(20459, 19 * MsPerHour);
    assert Weekday(20459) == 2;
    assert !BetweenMidnights(candidate, 20270, 20331);
    assert !BetweenMidnights(candidate, 20445, 20459);
    assert IsSchoolMomentAsWritten(candidate, lookup);
  }

  /** The same question to the corrected search: 2026-01-06 is still a holiday,
      so it answers Wednesday 2026-01-07. */
  lemma CorrectedSearchSkipsLastHolidayDay(next: Moment)
    requires IsNextSchoolDay(Moment(DaysFromCivil(2026, 1, 5), 19 * MsPerHour), Some(FallbackHolidays()), next)
    ensures next.day == DaysFromCivil(2026, 1, 7)
  {
    FallbackDayNumbers();
    assert DaysFromCivil(2026, 1, 5) == 20458 && DaysFromCivil(2026, 1, 7) == 20460 by {
      assert (2026 - 1) / 400 == 5;
    }
    var lookup := Some(FallbackHolidays());
    var h := FallbackHolidays();
    assert Covers(h[1], 20458) && Covers(h[1], 20459);
    assert !IsSchoolDay(20458, lookup) && !IsSchoolDay(20459, lookup);
    assert Weekday(20460) == 3;
    assert !Covers(h[0], 20460) && !Covers(h[1], 20460);
    assert IsSchoolDay(20460, lookup);
  }

}
