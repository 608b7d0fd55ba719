/**
 * `useWorkingCalendar` (App.jsx, lines 144-178) and the pacing figures derived
 * from it (lines 539-550).
 *
 * dayjs is replaced by an abstract month: its Gregorian year and month, the
 * weekday of its first day (0 = Sunday, as dayjs `day()` numbers them) and
 * today's day of the month. Holidays are ISO 8601 calendar dates in extended
 * format, `YYYY-MM-DD`.
 */
module WorkingCalendar {
  import opened Text

  predicate IsLeapYear(year: nat) {
    year % 4 == 0 && (year % 100 != 0 || year % 400 == 0)
  }

  /** Days in a month of the Gregorian calendar. */
  function DaysInMonth(year: nat, month: nat): (n: nat)
    requires 1 <= month <= 12
    ensures 28 <= n <= 31
    ensures n == 29 <==> month == 2 && IsLeapYear(year)
  {
    if month == 2 then (if IsLeapYear(year) then 29 else 28)
    else if month == 4 || month == 6 || month == 9 || month == 11 then 30
    else 31
  }

  /**
   * The current month as dayjs sees it: its year, its month (1-12) and the
   * weekday of its first day.
   */
  datatype Month = Month(year: nat, month: nat, firstWeekday: nat) {
    predicate Valid() {
      1 <= month <= 12 && firstWeekday < 7
    }

    function Length(): (n: nat)
      requires Valid()
      ensures 28 <= n <= 31
    {
      DaysInMonth(year, month)
    }

    /** The dates the loop visits, from `startOf("month")` to `endOf("month")`. */
    function Days(): (days: seq<Day>)
      requires Valid()
      ensures |days| == Length()
    {
      DaysThrough(this, Length())
    }
  }

  /** One date of the month: its `day()` and its `format("YYYY-MM-DD")`. */
  datatype Day = Day(weekday: nat, date: string)

  /** Day `d` of month `m`. */
  function DayOf(m: Month, d: nat): (day: Day)
    requires m.Valid() && 1 <= d
    ensures day.weekday < 7
  {
    Day((m.firstWeekday + d - 1) % 7, DateString(m.year, m.month, d))
  }

  /** Days 1..k of month `m`. */
  function DaysThrough(m: Month, k: nat): (days: seq<Day>)
    requires m.Valid()
    ensures |days| == k
  {
    if k == 0 then [] else DaysThrough(m, k - 1) + [DayOf(m, k)]
  }

  /** The `i`-th date visited is day `i + 1`. */
  lemma {:induction false} DaysThroughAt(m: Month, k: nat, i: nat)
    requires m.Valid() && i < k
    ensures DaysThrough(m, k)[i] == DayOf(m, i + 1)
  {
    if i < k - 1 {
      DaysThroughAt(m, k - 1, i);
    }
  }

  lemma WeekdayAt(m: Month, i: nat)
    requires m.Valid() && i < m.Length()
    ensures m.Days()[i].weekday == (m.firstWeekday + i) % 7
  {
    DaysThroughAt(m, m.Length(), i);
  }

  lemma NextWeekday(a: nat)
    ensures (a + 1) % 7 == (a % 7 + 1) % 7
  {
  }

  lemma FirstWeekday(m: Month)
    requires m.Valid()
    ensures m.Days()[0].weekday == m.firstWeekday
  {
    var w := m.Days()[0].weekday;
    assert w == (m.firstWeekday + 0) % 7 by {
      WeekdayAt(m, 0);
    }
    SmallRemainder(m.firstWeekday);
  }

  lemma SmallRemainder(a: nat)
    requires a < 7
    ensures (a + 0) % 7 == a
  {
  }

  lemma WeekdayStep(m: Month, i: nat)
    requires m.Valid() && i + 1 < m.Length()
    ensures m.Days()[i + 1].weekday == (m.Days()[i].weekday + 1) % 7
  {
    var a := m.firstWeekday + i;
    var w, w' := m.Days()[i].weekday, m.Days()[i + 1].weekday;
    assert w == a % 7 by {
      WeekdayAt(m, i);
    }
    assert w' == (a + 1) % 7 by {
      WeekdayAt(m, i + 1);
    }
    NextWeekday(a);
  }

  /** The first date falls on the month's first weekday, each later one on the next weekday. */
  lemma WeekdaysAdvance(m: Month, i: nat)
    requires m.Valid() && i + 1 < m.Length()
    ensures m.Days()[0].weekday == m.firstWeekday
    ensures m.Days()[i + 1].weekday == (m.Days()[i].weekday + 1) % 7
  {
    FirstWeekday(m);
    WeekdayStep(m, i);
  }

  /** A number as dayjs writes it in a date: at least `width` digits, zero-padded. */
  function Padded(n: nat, width: nat): (s: string)
    ensures AllDigits(s) && |s| >= width
  {
    PadZeros(NatToString(n), width)
  }

  /** `format("YYYY-MM-DD")`. */
  function DateString(year: nat, month: nat, day: nat): (s: string)
    ensures |s| >= 10
  {
    Padded(year, 4) + "-" + Padded(month, 2) + "-" + Padded(day, 2)
  }

  /** The same digits, read back. */
  lemma PaddedValue(n: nat, width: nat)
    ensures DecimalValue(Padded(n, width)) == n
  {
    PadZerosValue(NatToString(n), width);
    DecimalValueOfNatToString(n);
  }

  /** Two digit strings followed by texts that start with a dash split the same way. */
  lemma SplitAtDash(x1: string, y1: string, x2: string, y2: string)
    requires AllDigits(x1) && AllDigits(x2) && x1 + y1 == x2 + y2
    requires y1 != [] && y1[0] == '-' && y2 != [] && y2[0] == '-'
    ensures x1 == x2 && y1 == y2
  {
    LeadingDigitsOf(x1, y1);
    LeadingDigitsOf(x2, y2);
    assert x1 == (x1 + y1)[..|x1|] && x2 == (x2 + y2)[..|x2|];
    assert y1 == (x1 + y1)[|x1|..] && y2 == (x2 + y2)[|x2|..];
  }

  function LeadingDigits(s: string): nat {
    if s != [] && IsDigit(s[0]) then 1 + LeadingDigits(s[1..]) else 0
  }

  lemma {:induction false} LeadingDigitsOf(x: string, y: string)
    requires AllDigits(x) && y != [] && !IsDigit(y[0])
    ensures LeadingDigits(x + y) == |x|
  {
    if x != [] {
      assert (x + y)[1..] == x[1..] + y;
      LeadingDigitsOf(x[1..], y);
    } else {
      assert x + y == y;
    }
  }

  /** Three dash-separated digit strings are read back unambiguously. */
  lemma SplitDate(a1: string, b1: string, c1: string, a2: string, b2: string, c2: string)
    requires AllDigits(a1) && AllDigits(b1) && AllDigits(c1) && AllDigits(a2) && AllDigits(b2) && AllDigits(c2)
    requires a1 + "-" + b1 + "-" + c1 == a2 + "-" + b2 + "-" + c2
    ensures a1 == a2 && b1 == b2 && c1 == c2
  {
    var r1 := "-" + b1 + "-" + c1;
    var r2 := "-" + b2 + "-" + c2;
    assert a1 + "-" + b1 + "-" + c1 == a1 + r1;
    assert a2 + "-" + b2 + "-" + c2 == a2 + r2;
    SplitAtDash(a1, r1, a2, r2);
    var t1 := "-" + c1;
    var t2 := "-" + c2;
    assert r1[1..] == b1 + t1 && r2[1..] == b2 + t2;
    SplitAtDash(b1, t1, b2, t2);
    assert c1 == t1[1..] && c2 == t2[1..];
  }

  /** Different dates never share an ISO 8601 calendar date string. */
  lemma DateStringInjective(y1: nat, m1: nat, d1: nat, y2: nat, m2: nat, d2: nat)
    requires DateString(y1, m1, d1) == DateString(y2, m2, d2)
    ensures y1 == y2 && m1 == m2 && d1 == d2
  {
    SplitDate(Padded(y1, 4), Padded(m1, 2), Padded(d1, 2), Padded(y2, 4), Padded(m2, 2), Padded(d2, 2));
    PaddedValue(y1, 4);
    PaddedValue(y2, 4);
    PaddedValue(m1, 2);
    PaddedValue(m2, 2);
    PaddedValue(d1, 2);
    PaddedValue(d2, 2);
  }

  /** Neither a weekend day nor a listed holiday. */
  predicate IsWorkingDay(weekendDays: seq<int>, holidays: seq<string>, day: Day) {
    !(day.weekday in weekendDays) && !(day.date in holidays)
  }

  /** The working days among `days`, counted one day at a time. */
  function WorkingDays(days: seq<Day>, weekendDays: seq<int>, holidays: seq<string>): (count: nat)
    ensures count <= |days|
  {
    if days == [] then 0
    else WorkingDays(days[..|days| - 1], weekendDays, holidays)
         + (if IsWorkingDay(weekendDays, holidays, days[|days| - 1]) then 1 else 0)
  }

  /** One more day adds one exactly when it is a working day. */
  lemma CountStep(days: seq<Day>, weekendDays: seq<int>, holidays: seq<string>, i: nat)
    requires i < |days|
    ensures WorkingDays(days[..i + 1], weekendDays, holidays)
         == WorkingDays(days[..i], weekendDays, holidays) + (if IsWorkingDay(weekendDays, holidays, days[i]) then 1 else 0)
  {
    assert days[..i + 1][..i] == days[..i];
  }

  function Min(a: nat, b: nat): nat {
    if a <= b then a else b
  }

  /** Past today, one more day adds nothing to the days up to today. */
  lemma ToDateStep(days: seq<Day>, weekendDays: seq<int>, holidays: seq<string>, i: nat, today: nat)
    requires i < |days| && today <= |days|
    ensures WorkingDays(days[..Min(i + 1, today)], weekendDays, holidays)
         == WorkingDays(days[..Min(i, today)], weekendDays, holidays)
            + (if i + 1 <= today && IsWorkingDay(weekendDays, holidays, days[i]) then 1 else 0)
  {
    if i + 1 <= today {
      CountStep(days, weekendDays, holidays, i);
    }
  }

  /** The positions of the working days in `days`, from position `from` on. */
  ghost function WorkingDaySet(days: seq<Day>, weekendDays: seq<int>, holidays: seq<string>, from: nat): set<nat> {
    set i: nat | from <= i < |days| && IsWorkingDay(weekendDays, holidays, days[i])
  }

  /** The count is the size of the set of working days. */
  lemma {:induction false} CountIsSetSize(days: seq<Day>, weekendDays: seq<int>, holidays: seq<string>)
    ensures WorkingDays(days, weekendDays, holidays) == |WorkingDaySet(days, weekendDays, holidays, 0)|
  {
    if days != [] {
      var n := |days| - 1;
      var init := days[..n];
      CountIsSetSize(init, weekendDays, holidays);
      var prev := WorkingDaySet(init, weekendDays, holidays, 0);
      var all := WorkingDaySet(days, weekendDays, holidays, 0);
      assert forall i :: 0 <= i < n ==> init[i] == days[i];
      if IsWorkingDay(weekendDays, holidays, days[n]) {
        assert all == prev + {n};
      } else {
        assert all == prev;
      }
    }
  }

  /** A longer prefix never has fewer working days. */
  lemma {:induction false} CountMonotone(days: seq<Day>, weekendDays: seq<int>, holidays: seq<string>, j: nat)
    requires j <= |days|
    ensures WorkingDays(days[..j], weekendDays, holidays) <= WorkingDays(days, weekendDays, holidays)
  {
    if j < |days| {
      var init := days[..|days| - 1];
      assert init[..j] == days[..j];
      CountMonotone(init, weekendDays, holidays, j);
    } else {
      assert days[..j] == days;
    }
  }

  /** Two holiday lists that agree on every date in `days` give the same count. */
  lemma {:induction false} CountDependsOnListedDates(days: seq<Day>, weekendDays: seq<int>, h1: seq<string>, h2: seq<string>)
    requires forall i :: 0 <= i < |days| ==> (days[i].date in h1 <==> days[i].date in h2)
    ensures WorkingDays(days, weekendDays, h1) == WorkingDays(days, weekendDays, h2)
  {
    if days != [] {
      var init := days[..|days| - 1];
      assert forall i :: 0 <= i < |init| ==> init[i] == days[i];
      CountDependsOnListedDates(init, weekendDays, h1, h2);
    }
  }

  /** No date of the month is a date of another month or year. */
  lemma DateOutsideMonth(m: Month, i: nat, year: nat, month: nat, day: nat)
    requires m.Valid() && i < m.Length() && (year != m.year || month != m.month)
    ensures m.Days()[i].date != DateString(year, month, day)
  {
    assert m.Days()[i].date == DateString(m.year, m.month, i + 1) by {
      DaysThroughAt(m, m.Length(), i);
    }
    if m.Days()[i].date == DateString(year, month, day) {
      DateStringInjective(m.year, m.month, i + 1, year, month, day);
    }
  }

  /** A holiday in another month, or another year, changes no count. */
  lemma HolidayOutsideMonthIgnored(m: Month, weekendDays: seq<int>, holidays: seq<string>,
                                   year: nat, month: nat, day: nat, k: nat)
    requires m.Valid() && k <= m.Length() && (year != m.year || month != m.month)
    ensures WorkingDays(m.Days()[..k], weekendDays, holidays + [DateString(year, month, day)])
         == WorkingDays(m.Days()[..k], weekendDays, holidays)
  {
    var h := DateString(year, month, day);
    var days := m.Days()[..k];
    forall i | 0 <= i < |days|
      ensures days[i].date in holidays + [h] <==> days[i].date in holidays
    {
      assert days[i] == m.Days()[i];
      DateOutsideMonth(m, i, year, month, day);
    }
    CountDependsOnListedDates(days, weekendDays, holidays + [h], holidays);
  }

  /** Hours expected over `days` working days: `days * dailyTargetHours`. */
  function TargetHours(days: nat, dailyTargetHours: real): (hours: real)
    ensures dailyTargetHours >= 0.0 ==> hours >= 0.0
  {
    days as real * dailyTargetHours
  }

  /** What `useWorkingCalendar` returns. */
  datatype CalendarSummary = CalendarSummary(
    totalWorkingDays: nat,
    workingDaysToDate: nat,
    totalTargetHours: real,
    expectedHoursByToday: real)

  /**
   * The loop of `useWorkingCalendar` over `days`, the dates from the start of
   * the month to its end (`Month.Days` builds them): skip weekend days and
   * holidays, count the rest and, among them, those up to and including
   * `today`, the day of the month today is.
   */
  method UseWorkingCalendar(days: seq<Day>, today: nat, weekendDays: seq<int>, holidays: seq<string>,
                            dailyTargetHours: real)
    returns (c: CalendarSummary)
    requires today <= |days|
    ensures c.totalWorkingDays == WorkingDays(days, weekendDays, holidays)
    ensures c.workingDaysToDate == WorkingDays(days[..today], weekendDays, holidays)
    ensures c.totalTargetHours == TargetHours(c.totalWorkingDays, dailyTargetHours)
    ensures c.expectedHoursByToday == TargetHours(c.workingDaysToDate, dailyTargetHours)
  {
    var workingDaysThisMonth: nat := 0;
    var workingDaysUntilToday: nat := 0;
    var i := 0;
    while i < |days|
      invariant 0 <= i <= |days|
      invariant workingDaysThisMonth == WorkingDays(days[..i], weekendDays, holidays)
      invariant workingDaysUntilToday == WorkingDays(days[..Min(i, today)], weekendDays, holidays)
    {
      var date := days[i];
      CountStep(days, weekendDays, holidays, i);
      ToDateStep(days, weekendDays, holidays, i, today);
      var isWeekend := date.weekday in weekendDays;
      var isHoliday := date.date in holidays;
      if isWeekend || isHoliday {
        i := i + 1;
        continue;
      }
      workingDaysThisMonth := workingDaysThisMonth + 1;
      if i + 1 <= today {
        workingDaysUntilToday := workingDaysUntilToday + 1;
      }
      i := i + 1;
    }
    assert days[..|days|] == days;
    c := CalendarSummary(workingDaysThisMonth, workingDaysUntilToday,
                         TargetHours(workingDaysThisMonth, dailyTargetHours),
                         TargetHours(workingDaysUntilToday, dailyTargetHours));
  }

  /** `0 <= workingDaysToDate <= totalWorkingDays <= daysInMonth`. */
  lemma CalendarBounds(days: seq<Day>, today: nat, weekendDays: seq<int>, holidays: seq<string>)
    requires today <= |days|
    ensures WorkingDays(days[..today], weekendDays, holidays)
         <= WorkingDays(days, weekendDays, holidays)
         <= |days|
  {
    CountMonotone(days, weekendDays, holidays, today);
  }

  /** As today advances within the month, `workingDaysToDate` never decreases. */
  lemma ToDateMonotone(days: seq<Day>, today: nat, later: nat, weekendDays: seq<int>, holidays: seq<string>)
    requires today <= later <= |days|
    ensures WorkingDays(days[..today], weekendDays, holidays)
         <= WorkingDays(days[..later], weekendDays, holidays)
  {
    assert days[..later][..today] == days[..today];
    CountMonotone(days[..later], weekendDays, holidays, today);
  }

  /** With no weekend days and no holidays, every day of the month is a working day. */
  lemma {:induction false} EveryDayWorks(days: seq<Day>)
    ensures WorkingDays(days, [], []) == |days|
  {
    if days != [] {
      EveryDayWorks(days[..|days| - 1]);
    }
  }

  // ------------------------------------------------------------- pacing

  /** `Math.max(totalWorkingDays - workingDaysToDate, 0)`. */
  function WorkingDaysRemaining(totalWorkingDays: nat, workingDaysToDate: nat): (r: nat)
    ensures r >= totalWorkingDays - workingDaysToDate
    ensures r == 0 || r == totalWorkingDays - workingDaysToDate
  {
    if totalWorkingDays >= workingDaysToDate then totalWorkingDays - workingDaysToDate else 0
  }

  /** `Math.max(totalTargetHours - parsedLoggedHours, 0)`. */
  function HoursToTarget(totalTargetHours: real, loggedHours: real): (r: real)
    ensures r >= 0.0 && r >= totalTargetHours - loggedHours
    ensures r == 0.0 || r == totalTargetHours - loggedHours
  {
    if totalTargetHours - loggedHours >= 0.0 then totalTargetHours - loggedHours else 0.0
  }

  /** `parsedLoggedHours - expectedHoursByToday`: ahead of pace when non-negative. */
  function HourDelta(loggedHours: real, expectedHoursByToday: real): (r: real)
    ensures r >= 0.0 <==> loggedHours >= expectedHoursByToday
    ensures loggedHours == expectedHoursByToday + r
  {
    loggedHours - expectedHoursByToday
  }

  /** The remaining working days are exactly the working days after today. */
  lemma RemainingAreAfterToday(days: seq<Day>, today: nat, weekendDays: seq<int>, holidays: seq<string>)
    requires today <= |days|
    ensures WorkingDaysRemaining(WorkingDays(days, weekendDays, holidays),
                                 WorkingDays(days[..today], weekendDays, holidays))
         == |WorkingDaySet(days, weekendDays, holidays, today)|
  {
    var before := WorkingDaySet(days[..today], weekendDays, holidays, 0);
    var after := WorkingDaySet(days, weekendDays, holidays, today);
    var all := WorkingDaySet(days, weekendDays, holidays, 0);
    assert all == before + after;
    assert before * after == {};
    CountIsSetSize(days[..today], weekendDays, holidays);
    CountIsSetSize(days, weekendDays, holidays);
  }

  lemma TargetHoursAdd(a: nat, b: nat, daily: real)
    ensures TargetHours(a + b, daily) == TargetHours(a, daily) + TargetHours(b, daily)
  {
  }

  /** The month's target hours are the hours expected by today plus those of the remaining days. */
  lemma TargetSplitsAtToday(days: seq<Day>, today: nat, weekendDays: seq<int>, holidays: seq<string>, daily: real)
    requires today <= |days|
    ensures TargetHours(WorkingDays(days, weekendDays, holidays), daily)
         == TargetHours(WorkingDays(days[..today], weekendDays, holidays), daily)
          + TargetHours(|WorkingDaySet(days, weekendDays, holidays, today)|, daily)
  {
    var toDate := WorkingDays(days[..today], weekendDays, holidays);
    var rest := |WorkingDaySet(days, weekendDays, holidays, today)|;
    RemainingAreAfterToday(days, today, weekendDays, holidays);
    CalendarBounds(days, today, weekendDays, holidays);
    TargetHoursAdd(toDate, rest, daily);
  }
}
