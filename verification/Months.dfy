/**
 The calendar months a scheduled report goes back over: stepping back by whole months, the first and last day of
 a month, and the window each row of the report asks utilization for.
 */
module Months {
  import opened Wrappers
  import opened Reservations
  import Utilization

  const MIN_YEAR := 1
  const MAX_YEAR := 9999
  const LAST_MONTH := 12 * MAX_YEAR + 11

  predicate IsLeap(year: int) {
    year % 4 == 0 && (year % 100 != 0 || year % 400 == 0)
  }

  function DaysInMonth(year: int, month: int): (n: int)
    ensures 28 <= n <= 31
  {
    if month == 2 then (if IsLeap(year) then 29 else 28)
    else if month == 4 || month == 6 || month == 9 || month == 11 then 30
    else 31
  }

  datatype Date = Date(year: int, month: int, day: int) {
    predicate Valid() {
      1 <= month <= 12 && 1 <= day <= DaysInMonth(year, month)
    }

    /** Months since the start of year 0, so that consecutive months have consecutive numbers. */
    function MonthNumber(): int {
      12 * year + month - 1
    }
  }

  // ---------------------------------------------------------------- day arithmetic, one day at a time

  function NextDay(d: Date): Date {
    if d.day < DaysInMonth(d.year, d.month) then d.(day := d.day + 1)
    else if d.month < 12 then Date(d.year, d.month + 1, 1)
    else Date(d.year + 1, 1, 1)
  }

  function PreviousDay(d: Date): Date {
    if d.day > 1 then d.(day := d.day - 1)
    else if d.month > 1 then Date(d.year, d.month - 1, DaysInMonth(d.year, d.month - 1))
    else Date(d.year - 1, 12, 31)
  }

  function AddDays(d: Date, n: int): Date
    decreases if n < 0 then -n else n
  {
    if n == 0 then d
    else if n > 0 then AddDays(NextDay(d), n - 1)
    else AddDays(PreviousDay(d), n + 1)
  }

  // ---------------------------------------------------------------- the month functions

  /** The last day of the month that lies the given number of months back; none outside the calendar's years. */
  function MonthDeltaPast(date: Date, months: int): Option<Date> {
    var month := date.month - 1 - months;
    var year := date.year + month / 12;
    if MIN_YEAR <= year <= MAX_YEAR then Some(Date(year, month % 12 + 1, DaysInMonth(year, month % 12 + 1)))
    else None
  }

  /** None when the step into the next month leaves the calendar. */
  function LastDayMonth(date: Date): Option<Date> {
    var nextMonth := AddDays(date.(day := 28), 4);
    if nextMonth.year > MAX_YEAR then None else Some(AddDays(nextMonth, -nextMonth.day))
  }

  function FirstDayMonth(date: Date): Date {
    AddDays(date, -(date.day - 1))
  }

  lemma YearsAndMonths(m: int)
    ensures m == 12 * (m / 12) + m % 12 && 0 <= m % 12 < 12
  {
  }

  lemma WholeYearsShift(q: int, x: int)
    ensures (12 * q + x) / 12 == q + x / 12 && (12 * q + x) % 12 == x % 12
  {
    YearsAndMonths(x);
    YearsAndMonths(12 * q + x);
  }

  /** The last day of the month with a given number. */
  function LastDayOf(n: int): Option<Date> {
    var year, month := n / 12, n % 12 + 1;
    if MIN_YEAR <= year <= MAX_YEAR then Some(Date(year, month, DaysInMonth(year, month))) else None
  }

  lemma LastDayOfNumber(n: int)
    ensures LastDayOf(n).Some? <==> 12 * MIN_YEAR <= n <= LAST_MONTH
    ensures LastDayOf(n).Some? ==> LastDayOf(n).value.Valid() && LastDayOf(n).value.MonthNumber() == n
  {
    YearsAndMonths(n);
  }

  lemma MonthDeltaByNumber(date: Date, months: int)
    ensures MonthDeltaPast(date, months) == LastDayOf(date.MonthNumber() - months)
  {
    WholeYearsShift(date.year, date.month - 1 - months);
  }

  /** Going back a months and then b months is going back a + b months, for all month counts and years. */
  lemma MonthDeltaIsAdditive(date: Date, a: nat, b: nat)
    requires date.Valid() && MIN_YEAR <= date.year <= MAX_YEAR
    ensures MonthDeltaPast(date, a + b)
            == match MonthDeltaPast(date, a) case Some(d) => MonthDeltaPast(d, b) case None => None
    ensures MonthDeltaPast(date, a).Some? ==>
              MonthDeltaPast(date, a).value.Valid()
              && MonthDeltaPast(date, a).value.MonthNumber() == date.MonthNumber() - a
    ensures MonthDeltaPast(date, a).Some? <==> 12 * MIN_YEAR <= date.MonthNumber() - a
  {
    var n := date.MonthNumber() - a;
    MonthDeltaByNumber(date, a);
    MonthDeltaByNumber(date, a + b);
    LastDayOfNumber(n);
    LastDayOfNumber(n - b);
    if LastDayOf(n).Some? {
      MonthDeltaByNumber(LastDayOf(n).value, b);
    }
  }

  lemma {:induction false} BackWithinMonth(date: Date, n: int)
    requires date.Valid() && 0 <= n < date.day
    ensures AddDays(date, -n) == date.(day := date.day - n)
    decreases n
  {
    if n > 0 {
      BackWithinMonth(PreviousDay(date), n - 1);
    }
  }

  lemma FirstDayIsFirst(date: Date)
    requires date.Valid()
    ensures FirstDayMonth(date) == date.(day := 1)
  {
    BackWithinMonth(date, date.day - 1);
  }

  /** Three or fewer days after the 28th are still in the month; four are in the next. */
  lemma FourDaysOn(year: int, month: int)
    requires 1 <= month <= 12
    ensures var d := AddDays(Date(year, month, 28), 4);
            && d.Valid() && d.day == 32 - DaysInMonth(year, month)
            && d.MonthNumber() == 12 * year + month
  {
    var d0 := Date(year, month, 28);
    var d1 := NextDay(d0);
    var d2 := NextDay(d1);
    var d3 := NextDay(d2);
    assert AddDays(d0, 4) == AddDays(d1, 3) == AddDays(d2, 2) == AddDays(d3, 1) == NextDay(d3);
  }

  /** The last day lands on the last day of the same month, in leap and common years alike. */
  lemma LastDayIsLast(date: Date)
    requires date.Valid()
    ensures LastDayMonth(date)
            == if date.MonthNumber() < LAST_MONTH then Some(date.(day := DaysInMonth(date.year, date.month))) else None
  {
    var next := AddDays(date.(day := 28), 4);
    FourDaysOn(date.year, date.month);
    BackWithinMonth(next, next.day - 1);
    BackOneMore(next, next.day - 1);
    assert next.year == (if date.month == 12 then date.year + 1 else date.year);
  }

  lemma {:induction false} BackOneMore(d: Date, n: int)
    requires 0 <= n
    ensures AddDays(d, -(n + 1)) == PreviousDay(AddDays(d, -n))
    decreases n
  {
    if n > 0 {
      BackOneMore(PreviousDay(d), n - 1);
    }
  }

  // ---------------------------------------------------------------- day numbers

  function DaysBeforeMonth(year: int, month: int): int {
    if month <= 1 then 0 else DaysBeforeMonth(year, month - 1) + DaysInMonth(year, month - 1)
  }

  /** Days since the day before 1 January of year 1. */
  function DayNumber(d: Date): int {
    var y := d.year - 1;
    365 * y + y / 4 - y / 100 + y / 400 + DaysBeforeMonth(d.year, d.month) + d.day
  }

  lemma YearLength(year: int)
    ensures DaysBeforeMonth(year, 12) + 31 == if IsLeap(year) then 366 else 365
  {
    var february := DaysInMonth(year, 2);
    assert DaysBeforeMonth(year, 2) == 31;
    assert DaysBeforeMonth(year, 3) == 31 + february;
    assert DaysBeforeMonth(year, 4) == 62 + february;
    assert DaysBeforeMonth(year, 5) == 92 + february;
    assert DaysBeforeMonth(year, 6) == 123 + february;
    assert DaysBeforeMonth(year, 7) == 153 + february;
    assert DaysBeforeMonth(year, 8) == 184 + february;
    assert DaysBeforeMonth(year, 9) == 215 + february;
    assert DaysBeforeMonth(year, 10) == 245 + february;
    assert DaysBeforeMonth(year, 11) == 276 + february;
    assert DaysBeforeMonth(year, 12) == 306 + february;
  }

  lemma FourthYears(year: int)
    ensures year / 4 - (year - 1) / 4 == if year % 4 == 0 then 1 else 0
  {
  }

  lemma CenturyYears(year: int)
    ensures year / 100 - (year - 1) / 100 == if year % 100 == 0 then 1 else 0
  {
    var q, rest := (year - 1) / 100, (year - 1) % 100;
    assert year == 100 * q + rest + 1;
  }

  lemma FourthCenturies(year: int)
    ensures year / 400 - (year - 1) / 400 == if year % 400 == 0 then 1 else 0
  {
    var q, rest := (year - 1) / 400, (year - 1) % 400;
    assert year == 400 * q + rest + 1;
  }

  lemma CenturiesAreFourthYears(year: int)
    ensures year % 100 == 0 ==> year % 4 == 0
  {
    var q := year / 100;
    assert year % 100 == 0 ==> year == 4 * (25 * q);
  }

  lemma FourthCenturiesAreCenturies(year: int)
    ensures year % 400 == 0 ==> year % 100 == 0
  {
    var q := year / 400;
    assert year % 400 == 0 ==> year == 100 * (4 * q);
  }

  lemma LeapDays(year: int)
    ensures var y := year - 1;
            year / 4 - year / 100 + year / 400 - (y / 4 - y / 100 + y / 400) == if IsLeap(year) then 1 else 0
  {
    FourthYears(year);
    CenturyYears(year);
    FourthCenturies(year);
    CenturiesAreFourthYears(year);
    FourthCenturiesAreCenturies(year);
  }

  /** Day numbers count days: the next day's number is one more. */
  lemma NextDayNumber(d: Date)
    requires d.Valid()
    ensures NextDay(d).Valid() && DayNumber(NextDay(d)) == DayNumber(d) + 1
  {
    if d.day == DaysInMonth(d.year, d.month) && d.month == 12 {
      YearLength(d.year);
      LeapDays(d.year);
    }
  }

  // ---------------------------------------------------------------- the report

  /** The first and last day of the month a row is about; row 0 is the current month. */
  function RowMonth(now: Date, month: nat): Option<(Date, Date)> {
    var date := if month == 0 then Some(now) else MonthDeltaPast(now, month);
    if date.None? then None
    else
      match LastDayMonth(date.value)
      case None => None
      case Some(last) => Some((FirstDayMonth(date.value), last))
  }

  lemma RowMonthIs(now: Date, month: nat)
    requires now.Valid() && MIN_YEAR <= now.year <= MAX_YEAR
    ensures RowMonth(now, month).Some? <==> 12 * MIN_YEAR <= now.MonthNumber() - month < LAST_MONTH
    ensures RowMonth(now, month).Some? ==>
              var (first, last) := RowMonth(now, month).value;
              && first.Valid() && last.Valid() && first.MonthNumber() == last.MonthNumber() == now.MonthNumber() - month
              && first.day == 1 && last.day == DaysInMonth(first.year, first.month)
              && first.year == last.year && first.month == last.month
  {
    MonthDeltaIsAdditive(now, month, 0);
    var date := if month == 0 then Some(now) else MonthDeltaPast(now, month);
    if date.Some? {
      FirstDayIsFirst(date.value);
      LastDayIsLast(date.value);
    }
  }

  /**
   The rows of the report: "months" rows going back from the current month, or the current month alone. There
   are none when the chosen year lacks today's date, a month falls before the calendar, or it is the last one.
   */
  method ReportScheduled(today: Date, year: int, months: nat) returns (rows: Option<seq<(Date, Date)>>)
    requires today.Valid() && MIN_YEAR <= year <= MAX_YEAR
    ensures rows.Some? <==>
              && today.day <= DaysInMonth(year, today.month)
              && 12 * MIN_YEAR <= 12 * year + today.month - 1 - (if months == 0 then 0 else months - 1)
              && 12 * year + today.month - 1 < LAST_MONTH
    ensures rows.Some? ==>
              && |rows.value| == (if months == 0 then 1 else months)
              && forall i :: 0 <= i < |rows.value| ==>
                   var (first, last) := rows.value[i];
                   && first.Valid() && last.Valid()
                   && first.MonthNumber() == last.MonthNumber() == 12 * year + today.month - 1 - i
                   && first.day == 1 && last.day == DaysInMonth(first.year, first.month)
  {
    var now := today.(year := year);
    if today.day > DaysInMonth(year, today.month) {
      return None;
    }
    var count := if months == 0 then 1 else months;
    var result: seq<(Date, Date)> := [];
    var i := 0;
    while i < count
      invariant 0 <= i <= count && |result| == i
      invariant 0 < i ==> 12 * MIN_YEAR <= now.MonthNumber() - (i - 1) && now.MonthNumber() < LAST_MONTH
      invariant forall k :: 0 <= k < i ==>
                  var (first, last) := result[k];
                  && first.Valid() && last.Valid()
                  && first.MonthNumber() == last.MonthNumber() == now.MonthNumber() - k
                  && first.day == 1 && last.day == DaysInMonth(first.year, first.month)
    {
      RowMonthIs(now, i);
      var row := RowMonth(now, i);
      if row.None? {
        return None;
      }
      result := result + [row.value];
      i := i + 1;
    }
    return Some(result);
  }

  /** An instant of a day, in microseconds. */
  function Instant(d: Date, timeOfDay: Time): Time {
    DayNumber(d) * DAY + timeOfDay
  }

  lemma {:induction false} DayNumberAdds(d: Date, n: nat)
    requires d.Valid()
    ensures AddDays(d, n).Valid() && DayNumber(AddDays(d, n)) == DayNumber(d) + n
    decreases n
  {
    if n > 0 {
      NextDayNumber(d);
      DayNumberAdds(NextDay(d), n - 1);
    }
  }

  /**
   Each row's window is a whole number of days long, one less than its month, so from a store without double
   booking every percentage of the report is between 0 and 100.
   */
  lemma ReportedPercentages(now: Date, month: nat, timeOfDay: Time, hosts: seq<Host>, rows: seq<Reservation>)
    requires now.Valid() && MIN_YEAR <= now.year <= MAX_YEAR && RowMonth(now, month).Some?
    requires Disjoint(rows) && Ordered(rows)
    ensures var (first, last) := RowMonth(now, month).value;
            var start, end := Instant(first, timeOfDay), Instant(last, timeOfDay);
            var stats := Utilization.UtilizationStats(hosts, rows, start, end);
            && end - start == (DaysInMonth(first.year, first.month) - 1) * DAY
            && stats.days == DaysInMonth(first.year, first.month) - 1
            && 0 <= Utilization.Percentage(stats) <= 100
  {
    RowMonthIs(now, month);
    var (first, last) := RowMonth(now, month).value;
    var start, end := Instant(first, timeOfDay), Instant(last, timeOfDay);
    var days := DaysInMonth(first.year, first.month) - 1;
    assert DayNumber(last) == DayNumber(first) + days;
    assert end - start == days * DAY;
    assert (end - start) % DAY == 0 && (end - start) / DAY == days;
    Utilization.PercentageIsBounded(hosts, rows, start, end);
  }
}
