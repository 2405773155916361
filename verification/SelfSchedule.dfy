/**
 The end a self-scheduled reservation is given: the shorter of the default lifetime and the weekly deadline.
 Instants count microseconds from the start of day 0 of the proleptic calendar, in which day 1 is a Monday.
 */
module SelfSchedule {
  import opened Wrappers
  import opened Reservations

  const HOUR: Time := 3_600_000_000
  const WEEK: Time := 7 * DAY

  /** The deadline's weekday (Monday is 0) and hour, and the default lifetime. */
  datatype DeadlineRule = DeadlineRule(day: int, hour: int, lifetime: Time) {
    predicate Valid() {
      0 <= day < 7 && 0 <= hour < 24 && 0 < lifetime
    }
  }

  function StartOfDay(t: Time): Time {
    t - t % DAY
  }

  function Weekday(t: Time): int {
    (t / DAY + 6) % 7
  }

  function DaysAhead(start: Time, rule: DeadlineRule): int {
    (rule.day - Weekday(start)) % 7
  }

  function NextDeadline(start: Time, rule: DeadlineRule): Time {
    StartOfDay(start) + rule.hour * HOUR + DaysAhead(start, rule) * DAY
  }

  function ProposedEnd(start: Time, rule: DeadlineRule): Time {
    if DaysAhead(start, rule) * DAY < rule.lifetime then NextDeadline(start, rule)
    else Min(start + rule.lifetime, NextDeadline(start, rule))
  }

  /** The end of a self-scheduled reservation made now, or None when the request is refused. */
  function SelfScheduleEnd(start: Time, rule: DeadlineRule): Option<Time> {
    var end := ProposedEnd(start, rule);
    if end <= start then None else Some(end)
  }

  predicate IsDeadlineInstant(t: Time, rule: DeadlineRule) {
    Weekday(t) == rule.day && t % DAY == rule.hour * HOUR
  }

  /** A request is refused exactly on the deadline's weekday, at or after its hour. */
  lemma RefusedExactlyAfterDeadline(start: Time, rule: DeadlineRule)
    requires rule.Valid()
    ensures SelfScheduleEnd(start, rule).None? <==> Weekday(start) == rule.day && rule.hour * HOUR <= start % DAY
  {
    var ahead := DaysAhead(start, rule);
    assert ahead == 0 <==> Weekday(start) == rule.day;
    assert 0 <= ahead <= 6;
  }

  /** The deadline is the first instant of its weekday and hour that is not before today, less than a week away. */
  lemma DeadlineIsTheNextOne(start: Time, rule: DeadlineRule)
    requires rule.Valid()
    ensures IsDeadlineInstant(NextDeadline(start, rule), rule)
    ensures StartOfDay(start) <= NextDeadline(start, rule) < start + WEEK
    ensures forall t :: IsDeadlineInstant(t, rule) && StartOfDay(start) <= t ==> NextDeadline(start, rule) <= t
  {
    var today := start / DAY;
    var ahead := DaysAhead(start, rule);
    var next := NextDeadline(start, rule);
    SplitDay(next, today + ahead, rule.hour * HOUR);
    SameWeekdayAhead(today, rule.day);
    forall t | IsDeadlineInstant(t, rule) && StartOfDay(start) <= t
      ensures next <= t
    {
      NoSoonerWeekday(today, t / DAY, rule.day);
    }
  }

  lemma SplitDay(t: Time, day: int, rest: Time)
    requires t == day * DAY + rest && 0 <= rest < DAY
    ensures t / DAY == day && t % DAY == rest
  {
  }

  lemma SameWeekdayAhead(today: int, weekday: int)
    requires 0 <= weekday < 7
    ensures (today + (weekday - (today + 6) % 7) % 7 + 6) % 7 == weekday
  {
  }

  lemma NoSoonerWeekday(today: int, day: int, weekday: int)
    requires (day + 6) % 7 == weekday && today <= day
    ensures today + (weekday - (today + 6) % 7) % 7 <= day
  {
    var ahead := (weekday - (today + 6) % 7) % 7;
    SameWeekdayAhead(today, weekday);
    assert (day - (today + ahead)) % 7 == 0;
  }

  /**
   The end is the earlier of lifetime and deadline, except when the deadline falls on a day the lifetime
   reaches into but after the lifetime itself has run out; then the deadline is used.
   */
  lemma EndIsEarlierOfLifetimeAndDeadline(start: Time, rule: DeadlineRule)
    requires rule.Valid()
    ensures var shortest := Min(start + rule.lifetime, NextDeadline(start, rule));
            ProposedEnd(start, rule) == shortest
            <==> !(DaysAhead(start, rule) * DAY < rule.lifetime < NextDeadline(start, rule) - start)
    ensures rule.lifetime % DAY == 0
            ==> ProposedEnd(start, rule) == Min(start + rule.lifetime, NextDeadline(start, rule))
    ensures ProposedEnd(start, rule) < start + rule.lifetime + DAY
    ensures ProposedEnd(start, rule) <= NextDeadline(start, rule)
  {
    var ahead := DaysAhead(start, rule);
    if rule.lifetime % DAY == 0 && ahead * DAY < rule.lifetime {
      var days := rule.lifetime / DAY;
      assert rule.lifetime == days * DAY;
      assert ahead + 1 <= days;
    }
  }

  /** A half-day lifetime an hour into the deadline's own day runs to the deadline, twenty hours later. */
  lemma FractionalLifetimeCanBeExceeded()
    ensures var rule := DeadlineRule(6, 21, DAY / 2);
            rule.Valid() && SelfScheduleEnd(HOUR, rule) == Some(21 * HOUR) && HOUR + rule.lifetime < 21 * HOUR
  {
    assert HOUR / DAY == 0 && HOUR % DAY == HOUR;
  }
}
