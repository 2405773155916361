/**
 Editing reservations in place: extend and shrink (each checks all rows, then updates them one request at a
 time) and terminate. A row is named by its position in the table. Check and update run without other writers.
 */
module Edits {
  import opened Wrappers
  import opened Reservations
  import SelfSchedule

  /** How far to extend or shrink: by whole weeks, or to a given instant. */
  datatype Target = Weeks(weeks: int) | Until(date: Time)

  /** A dry run answers Possible; an update the server rejects stops the command after "updated" rows. */
  datatype Outcome = Refused(hosts: seq<HostName>) | Possible | Applied | Stopped(updated: nat)

  /** The selected positions exist and are different. */
  predicate Selects(rows: seq<Reservation>, selected: seq<nat>) {
    Distinct(selected) && forall k :: 0 <= k < |selected| ==> selected[k] < |rows|
  }

  /** The table after each selected row's end is replaced. */
  function WithEnds(rows: seq<Reservation>, selected: seq<nat>, newEnd: Reservation -> Time): (r: seq<Reservation>)
    ensures |r| == |rows|
  {
    seq(|rows|, i requires 0 <= i < |rows| =>
      if i in selected then rows[i].(end := newEnd(rows[i])) else rows[i])
  }

  /** How many of the selected rows, in order, are given an end after their start. */
  function AcceptedCount(rows: seq<Reservation>, selected: seq<nat>, newEnd: Reservation -> Time): (n: nat)
    requires Selects(rows, selected)
    ensures n <= |selected| && forall k :: 0 <= k < n ==> rows[selected[k]].start < newEnd(rows[selected[k]])
    ensures n < |selected| ==> newEnd(rows[selected[n]]) <= rows[selected[n]].start
    decreases |selected|
  {
    if selected == [] then 0
    else if newEnd(rows[selected[0]]) <= rows[selected[0]].start then 0
    else 1 + AcceptedCount(rows, selected[1..], newEnd)
  }

  /** The table after the updates are sent, up to the first that is rejected. */
  function Updated(rows: seq<Reservation>, selected: seq<nat>, newEnd: Reservation -> Time): (r: seq<Reservation>)
    requires Selects(rows, selected)
    ensures Ordered(rows) ==> Ordered(r)
  {
    var sent := selected[..AcceptedCount(rows, selected, newEnd)];
    assert forall i :: i in sent ==> i < |rows| && rows[i].start < newEnd(rows[i]);
    WithEnds(rows, sent, newEnd)
  }

  lemma WithEndsStep(rows: seq<Reservation>, selected: seq<nat>, k: nat, newEnd: Reservation -> Time)
    requires Selects(rows, selected) && k < |selected|
    ensures var before := WithEnds(rows, selected[..k], newEnd);
            && before[selected[k]] == rows[selected[k]]
            && WithEnds(rows, selected[..k + 1], newEnd)
               == before[selected[k] := rows[selected[k]].(end := newEnd(rows[selected[k]]))]
  {
    assert selected[..k + 1] == selected[..k] + [selected[k]];
    assert selected[k] !in selected[..k];
  }

  lemma FloorMinuteBounds(t: Time)
    ensures FloorMinute(t) <= t < FloorMinute(t) + MINUTE && FloorMinute(t) % MINUTE == 0
  {
  }

  lemma FloorMinuteMonotone(t: Time, u: Time)
    requires t <= u
    ensures FloorMinute(t) <= FloorMinute(u)
  {
  }

  // ---------------------------------------------------------------- which rows a command edits

  /** The positions of the rows that pass a test, in table order. */
  function Positions(rows: seq<Reservation>, keep: Reservation -> bool): (r: seq<nat>)
    ensures Selects(rows, r) && forall i: nat :: i in r <==> i < |rows| && keep(rows[i])
  {
    var r := PositionsBelow(rows, keep, |rows|);
    assert forall k :: 0 <= k < |r| ==> r[k] in r;
    r
  }

  function PositionsBelow(rows: seq<Reservation>, keep: Reservation -> bool, n: nat): (r: seq<nat>)
    requires n <= |rows|
    ensures Distinct(r) && forall i: nat :: i in r <==> i < n && keep(rows[i])
  {
    if n == 0 then []
    else
      var rest := PositionsBelow(rows, keep, n - 1);
      assert forall k :: 0 <= k < |rest| ==> rest[k] in rest;
      rest + if keep(rows[n - 1]) then [n - 1] else []
  }

  /** Which current and which future reservations are asked for: those of a cloud, or those of a host. */
  datatype Asked = Asked(current: Reservation -> bool, future: Reservation -> bool)

  function CurrentTest(asked: Asked, now: Time): Reservation -> bool {
    (r: Reservation) => Covers(r, now) && asked.current(r)
  }

  function FutureTest(asked: Asked, now: Time): Reservation -> bool {
    (r: Reservation) => now <= r.start && asked.future(r)
  }

  /** The current reservations that are asked for; if there are none, the future ones. */
  function Selection(rows: seq<Reservation>, asked: Asked, now: Time): (r: seq<nat>)
    ensures Selects(rows, r) && CurrentOrFuture(rows, r, now)
    ensures var test := if exists i :: 0 <= i < |rows| && CurrentTest(asked, now)(rows[i]) then CurrentTest(asked, now)
                        else FutureTest(asked, now);
            forall i: nat :: i in r <==> i < |rows| && test(rows[i])
  {
    var current := Positions(rows, CurrentTest(asked, now));
    assert current != [] ==> current[0] in current;
    assert forall i: nat :: i < |rows| && CurrentTest(asked, now)(rows[i]) ==> i in current;
    if current != [] then current else Positions(rows, FutureTest(asked, now))
  }

  predicate CurrentOrFuture(rows: seq<Reservation>, selected: seq<nat>, now: Time) {
    || (forall i :: i in selected ==> i < |rows| && Covers(rows[i], now))
    || (forall i :: i in selected ==> i < |rows| && now <= rows[i].start)
  }

  /** Only terminating leaves a row empty, and what it ends has started: no empty row starts after the clock. */
  predicate EmptyRowsStarted(rows: seq<Reservation>, clock: Time) {
    forall i :: 0 <= i < |rows| && rows[i].start == rows[i].end ==> rows[i].start <= clock
  }

  /** Start times are asked for by the minute, or are the time of the request: no later start is off the minute. */
  predicate LaterStartsOnMinute(rows: seq<Reservation>, clock: Time) {
    forall i :: 0 <= i < |rows| && clock < rows[i].start ==> rows[i].start % MINUTE == 0
  }

  predicate NoneEmpty(rows: seq<Reservation>, selected: seq<nat>) {
    forall i :: i in selected ==> i < |rows| && rows[i].start < rows[i].end
  }

  /** So a command never edits an empty row, if the clock has moved on since the last one was left. */
  lemma SelectionHasNoEmptyRow(rows: seq<Reservation>, asked: Asked, clock: Time, now: Time)
    requires Ordered(rows) && EmptyRowsStarted(rows, clock) && clock < now
    ensures NoneEmpty(rows, Selection(rows, asked, now))
  {
  }

  // ---------------------------------------------------------------- extend

  function ExtendedEnd(r: Reservation, target: Target): Time {
    match target
    case Weeks(weeks) => r.end + weeks * SelfSchedule.WEEK
    case Until(date) => date
  }

  function SentExtension(target: Target): Reservation -> Time {
    (r: Reservation) => FloorMinute(ExtendedEnd(r, target))
  }

  /** The availability request: floored bounds, and a reversed window becomes one minute long. */
  predicate AvailableRequest(hosts: seq<Host>, rows: seq<Reservation>, host: HostName, start: Time, end: Time) {
    if start > end then Available(hosts, rows, host, start, start + MINUTE)
    else Available(hosts, rows, host, start, end)
  }

  predicate Extendable(hosts: seq<Host>, rows: seq<Reservation>, r: Reservation, target: Target) {
    && AvailableRequest(hosts, rows, r.host, FloorMinute(r.end), FloorMinute(ExtendedEnd(r, target)))
    && ExtendedEnd(r, target) >= r.end
  }

  predicate AllExtendable(hosts: seq<Host>, rows: seq<Reservation>, selected: seq<nat>, target: Target)
    requires Selects(rows, selected)
  {
    forall k :: 0 <= k < |selected| ==> Extendable(hosts, rows, rows[selected[k]], target)
  }

  /** The table after the selected rows are extended, or were found not to be extendable. */
  function ExtendedRows(hosts: seq<Host>, rows: seq<Reservation>, selected: seq<nat>, target: Target): seq<Reservation>
    requires Selects(rows, selected)
  {
    if AllExtendable(hosts, rows, selected, target) then Updated(rows, selected, SentExtension(target)) else rows
  }

  // ---------------------------------------------------------------- shrink

  function ShrunkEnd(r: Reservation, target: Target): Time {
    match target
    case Weeks(weeks) => r.end - weeks * SelfSchedule.WEEK
    case Until(date) => date
  }

  predicate Shrinkable(r: Reservation, target: Target, now: bool, threshold: Time) {
    var end := ShrunkEnd(r, target);
    !(end < r.start || end > r.end || (!now && end < threshold))
  }

  function SentShrink(target: Target): Reservation -> Time {
    (r: Reservation) => FloorMinute(Max(ShrunkEnd(r, target), r.start + MINUTE))
  }

  predicate AllShrinkable(rows: seq<Reservation>, selected: seq<nat>, target: Target, now: bool, threshold: Time)
    requires Selects(rows, selected)
  {
    forall k :: 0 <= k < |selected| ==> Shrinkable(rows[selected[k]], target, now, threshold)
  }

  /** The table after the selected rows are shrunk, or were found not to be shrinkable. */
  function ShrunkRows(rows: seq<Reservation>, selected: seq<nat>, target: Target, now: bool, threshold: Time)
    : seq<Reservation>
    requires Selects(rows, selected)
  {
    if AllShrinkable(rows, selected, target, now, threshold) then WithEnds(rows, selected, SentShrink(target)) else rows
  }

  /**
   A shrink the check accepts sends an end strictly after the start; it is not after the old end exactly when
   the reservation reaches the minute boundary below start plus one minute.
   */
  lemma ShrinkBounds(r: Reservation, target: Target, now: bool, threshold: Time)
    requires Shrinkable(r, target, now, threshold)
    ensures r.start < SentShrink(target)(r)
    ensures SentShrink(target)(r) <= r.end <==> FloorMinute(r.start + MINUTE) <= r.end
    ensures SentShrink(target)(r) == Max(FloorMinute(ShrunkEnd(r, target)), FloorMinute(r.start + MINUTE))
  {
    var end := ShrunkEnd(r, target);
    FloorMinuteBounds(r.start + MINUTE);
    FloorMinuteBounds(end);
    if end <= r.start + MINUTE {
      FloorMinuteMonotone(end, r.start + MINUTE);
    } else {
      FloorMinuteMonotone(r.start + MINUTE, end);
    }
  }

  // ---------------------------------------------------------------- terminate

  function Position(selected: seq<nat>, row: nat): (k: nat)
    requires row in selected
    ensures k < |selected| && selected[k] == row
  {
    if selected[0] == row then 0 else 1 + Position(selected[1..], row)
  }

  /** The table after the k-th selected row is ended at the k-th clock reading. */
  function TerminatedAt(rows: seq<Reservation>, selected: seq<nat>, clock: nat -> Time): (r: seq<Reservation>)
    ensures |r| == |rows|
  {
    seq(|rows|, i requires 0 <= i < |rows| =>
      if i in selected then rows[i].(end := clock(Position(selected, i))) else rows[i])
  }

  lemma TerminatedStep(rows: seq<Reservation>, selected: seq<nat>, k: nat, clock: nat -> Time)
    requires Selects(rows, selected) && k < |selected|
    ensures var before := TerminatedAt(rows, selected[..k], clock);
            && before[selected[k]] == rows[selected[k]]
            && TerminatedAt(rows, selected[..k + 1], clock)
               == before[selected[k] := rows[selected[k]].(end := clock(k))]
  {
    assert selected[..k + 1] == selected[..k] + [selected[k]];
    assert selected[k] !in selected[..k];
    forall i | i in selected[..k + 1]
      ensures Position(selected[..k + 1], i) == if i in selected[..k] then Position(selected[..k], i) else k
    {
    }
  }

  // ---------------------------------------------------------------- extending keeps the store disjoint

  /** Two rows of one host, the second empty and starting where the first ends, that would both grow from there. */
  predicate GrowFromOnePoint(rows: seq<Reservation>, selected: seq<nat>, newEnd: Reservation -> Time) {
    exists i, j :: i in selected && j in selected && i != j && i < |rows| && j < |rows|
                   && rows[i].host == rows[j].host
                   && rows[j].start == rows[j].end == rows[i].end < newEnd(rows[j])
                   && rows[i].start <= rows[i].end < newEnd(rows[i])
  }

  /** What one successful availability check says about another row of the host. */
  lemma CheckedAgainst(hosts: seq<Host>, rows: seq<Reservation>, r: Reservation, s: Reservation, target: Target)
    requires Extendable(hosts, rows, r, target) && s in rows && s.host == r.host && s.start <= s.end
    ensures FloorMinute(r.end) <= SentExtension(target)(r)
    ensures FloorMinute(r.end) < SentExtension(target)(r)
            ==> s.end <= FloorMinute(r.end) || SentExtension(target)(r) <= s.start
    ensures FloorMinute(r.end) == SentExtension(target)(r) ==> !Covers(s, FloorMinute(r.end))
  {
    FloorMinuteMonotone(r.end, ExtendedEnd(r, target));
    BlocksMeansSharedInstant(s, FloorMinute(r.end), SentExtension(target)(r));
  }

  /** An extension the check accepts never takes time away from a reservation, and weeks really add time. */
  lemma ExtendNeverShortens(hosts: seq<Host>, rows: seq<Reservation>, r: Reservation, target: Target)
    requires r in rows && r.start < r.end && Extendable(hosts, rows, r, target)
    ensures target.Until? ==> target.date % MINUTE == 0 ==> r.end <= SentExtension(target)(r)
    ensures target.Weeks? && target.weeks != 0 ==> r.end < SentExtension(target)(r)
    ensures target.Weeks? && target.weeks != 0 ==> r.end <= FloorMinute(r.end)
  {
    CheckedAgainst(hosts, rows, r, r, target);
    FloorMinuteBounds(r.end);
    if target.Weeks? && target.weeks != 0 {
      assert target.weeks >= 1;
      FloorMinuteMonotone(r.end + SelfSchedule.WEEK, ExtendedEnd(r, target));
      FloorMinuteBounds(r.end + SelfSchedule.WEEK);
    } else if target.Until? && target.date % MINUTE == 0 {
      FloorMinuteMonotone(r.end, target.date);
    }
  }

  /** An empty row strictly inside another one of its host cannot be extended past it. */
  lemma EmptyInsideStays(hosts: seq<Host>, rows: seq<Reservation>, selected: seq<nat>, target: Target, i: nat, j: nat)
    requires Ordered(rows) && Selects(rows, selected)
    requires forall k :: 0 <= k < |selected| ==> Extendable(hosts, rows, rows[selected[k]], target)
    requires i < |rows| && j < |rows| && rows[i].host == rows[j].host
    requires rows[i].start < rows[j].start == rows[j].end < rows[i].end
    ensures WithEnds(rows, selected, SentExtension(target))[j].end <= rows[j].start
  {
    if j in selected {
      var k :| 0 <= k < |selected| && selected[k] == j;
      CheckedAgainst(hosts, rows, rows[j], rows[i], target);
      FloorMinuteBounds(rows[j].end);
    }
  }

  /** The updated rows of one pair overlap only if they grow from one point, both being selected. */
  lemma ExtendedPair(hosts: seq<Host>, rows: seq<Reservation>, selected: seq<nat>, target: Target, i: nat, j: nat)
    requires Disjoint(rows) && Ordered(rows) && Selects(rows, selected)
    requires forall k :: 0 <= k < |selected| ==> Extendable(hosts, rows, rows[selected[k]], target)
    requires i < |rows| && j < |rows| && i != j && rows[i].host == rows[j].host && rows[i].end <= rows[j].start
    requires !GrowFromOnePoint(rows, selected, SentExtension(target))
    ensures var rows' := WithEnds(rows, selected, SentExtension(target));
            !Overlap(rows'[i], rows'[j]) && !Overlap(rows'[j], rows'[i])
  {
    if i in selected {
      var k :| 0 <= k < |selected| && selected[k] == i;
      CheckedAgainst(hosts, rows, rows[i], rows[j], target);
      FloorMinuteBounds(rows[i].end);
    }
  }

  /**
   Main result for extend. Every check is made against the table before any update; nevertheless the updated
   table is free of double booking, unless two selected rows of one host grow from one point.
   */
  lemma ExtendKeepsDisjoint(hosts: seq<Host>, rows: seq<Reservation>, selected: seq<nat>, target: Target)
    requires Disjoint(rows) && Ordered(rows) && Selects(rows, selected)
    requires forall k :: 0 <= k < |selected| ==> Extendable(hosts, rows, rows[selected[k]], target)
    ensures Disjoint(WithEnds(rows, selected, SentExtension(target)))
            <==> !GrowFromOnePoint(rows, selected, SentExtension(target))
  {
    var newEnd := SentExtension(target);
    var rows' := WithEnds(rows, selected, newEnd);
    if GrowFromOnePoint(rows, selected, newEnd) {
      var i, j :| i in selected && j in selected && i != j && i < |rows| && j < |rows|
                  && rows[i].host == rows[j].host
                  && rows[j].start == rows[j].end == rows[i].end < newEnd(rows[j])
                  && rows[i].start <= rows[i].end < newEnd(rows[i]);
      assert Overlap(rows'[i], rows'[j]) && Overlap(rows'[j], rows'[i]);
    } else {
      forall i, j | 0 <= i < j < |rows'| && rows'[i].host == rows'[j].host
        ensures !Overlap(rows'[i], rows'[j])
      {
        assert !Overlap(rows[i], rows[j]);
        if rows[i].end <= rows[j].start {
          ExtendedPair(hosts, rows, selected, target, i, j);
        } else if rows[j].end <= rows[i].start {
          ExtendedPair(hosts, rows, selected, target, j, i);
        } else if rows[j].start == rows[j].end {
          EmptyInsideStays(hosts, rows, selected, target, i, j);
        } else {
          EmptyInsideStays(hosts, rows, selected, target, j, i);
        }
      }
    }
  }

  /** Reservations that are not empty can be extended together, also if the updates stop early. */
  lemma ExtendKeepsDisjointAtEveryUpdate(hosts: seq<Host>, rows: seq<Reservation>, selected: seq<nat>, target: Target,
                                         n: nat)
    requires Disjoint(rows) && Ordered(rows) && Selects(rows, selected) && n <= |selected|
    requires NoneEmpty(rows, selected) && AllExtendable(hosts, rows, selected, target)
    ensures Disjoint(WithEnds(rows, selected[..n], SentExtension(target)))
  {
    ExtendKeepsDisjoint(hosts, rows, selected[..n], target);
  }

  /**
   So whatever the command selects is safe to extend: current reservations, which are never empty, or future ones,
   of which none is empty.
   */
  lemma ExtendOfSelectionKeepsDisjoint(hosts: seq<Host>, rows: seq<Reservation>, asked: Asked, target: Target,
                                       clock: Time, now: Time)
    requires Disjoint(rows) && Ordered(rows) && EmptyRowsStarted(rows, clock) && clock < now
    ensures var rows' := ExtendedRows(hosts, rows, Selection(rows, asked, now), target);
            Disjoint(rows') && Ordered(rows')
  {
    var selected := Selection(rows, asked, now);
    SelectionHasNoEmptyRow(rows, asked, clock, now);
    if AllExtendable(hosts, rows, selected, target) {
      ExtendKeepsDisjointAtEveryUpdate(hosts, rows, selected, target,
                                       AcceptedCount(rows, selected, SentExtension(target)));
    }
  }

  /**
   Exactly which reservations can be extended by weeks: those that end on a whole minute and whose host is free
   until the new end. One that ends off the minute blocks its own extension.
   */
  lemma ExtendableExactlyWhen(hosts: seq<Host>, rows: seq<Reservation>, r: Reservation, weeks: nat)
    requires Disjoint(rows) && Ordered(rows) && r in rows && r.start < r.end && 0 < weeks
    requires FindHost(hosts, r.host).Some? && FindHost(hosts, r.host).value.Usable()
    ensures Extendable(hosts, rows, r, Weeks(weeks)) <==>
            && r.end % MINUTE == 0
            && forall s :: s in rows && s.host == r.host ==>
                 s.end <= r.end || r.end + weeks * SelfSchedule.WEEK <= s.start
  {
    var newEnd := ExtendedEnd(r, Weeks(weeks));
    WeeksKeepMinute(r.end, weeks);
    FloorMinuteBounds(r.end);
    assert FloorMinute(newEnd) == FloorMinute(r.end) + weeks * SelfSchedule.WEEK;
    forall s | s in rows
      ensures Blocks(s, FloorMinute(r.end), FloorMinute(newEnd))
              <==> s.start < FloorMinute(newEnd) && FloorMinute(r.end) < s.end
    {
      BlocksMeansSharedInstant(s, FloorMinute(r.end), FloorMinute(newEnd));
    }
  }

  /**
   The same for a date, given by the minute: not before the end, which must be on a whole minute, with the host free
   until then; an extension to the end itself only asks that no reservation begins there.
   */
  lemma ExtendableToDateExactlyWhen(hosts: seq<Host>, rows: seq<Reservation>, r: Reservation, date: Time)
    requires Disjoint(rows) && Ordered(rows) && r in rows && r.start < r.end && date % MINUTE == 0
    requires FindHost(hosts, r.host).Some? && FindHost(hosts, r.host).value.Usable()
    ensures Extendable(hosts, rows, r, Until(date)) <==>
            && r.end <= date && r.end % MINUTE == 0
            && forall s :: s in rows && s.host == r.host ==>
                 if date == r.end then !Covers(s, date) else s.end <= r.end || date <= s.start
  {
    FloorMinuteBounds(r.end);
    if r.end <= date {
      FloorMinuteMonotone(r.end, date);
      forall s | s in rows
        ensures FloorMinute(r.end) < date ==>
                  (Blocks(s, FloorMinute(r.end), date) <==> s.start < date && FloorMinute(r.end) < s.end)
        ensures Blocks(s, date, date) <==> Covers(s, date)
      {
        BlocksMeansSharedInstant(s, FloorMinute(r.end), date);
      }
    }
  }

  lemma WeeksKeepMinute(t: Time, weeks: int)
    ensures FloorMinute(t + weeks * SelfSchedule.WEEK) == FloorMinute(t) + weeks * SelfSchedule.WEEK
    ensures 0 < weeks ==> SelfSchedule.WEEK <= weeks * SelfSchedule.WEEK
  {
    var minutes := weeks * 10080;
    assert weeks * SelfSchedule.WEEK == minutes * MINUTE;
    assert t + minutes * MINUTE == (t / MINUTE + minutes) * MINUTE + t % MINUTE;
  }

  /**
   Why no empty row may be selected, as a fact about arbitrary tables: an empty row right after another of its host
   passes the check together with it, and both are extended over each other.
   */
  lemma EmptyRowBreaksExtend()
    ensures var hosts := [Host(1, "", false, false, false, 0, 0)];
            var rows := [Reservation(0, 1, 0, 0, MINUTE), Reservation(1, 1, 0, MINUTE, MINUTE)];
            && Disjoint(rows) && Ordered(rows)
            && AllExtendable(hosts, rows, [0, 1], Weeks(1))
            && !Disjoint(WithEnds(rows, [0, 1], SentExtension(Weeks(1))))
  {
    var hosts := [Host(1, "", false, false, false, 0, 0)];
    var rows := [Reservation(0, 1, 0, 0, MINUTE), Reservation(1, 1, 0, MINUTE, MINUTE)];
    assert FindHost(hosts, 1) == Some(hosts[0]);
    var rows' := WithEnds(rows, [0, 1], SentExtension(Weeks(1)));
    assert Overlap(rows'[0], rows'[1]);
  }

  // ---------------------------------------------------------------- shrinking and terminating

  /** The new end of row i reaches into row j, which starts no earlier than row i used to end. */
  predicate ReachesInto(rows: seq<Reservation>, i: nat, newEnd: Time, j: nat) {
    && i < |rows| && j < |rows| && i != j && rows[i].host == rows[j].host
    && rows[j].start < rows[j].end
    && rows[i].end <= rows[j].start < newEnd
  }

  predicate RunsInto(rows: seq<Reservation>, rows': seq<Reservation>)
    requires |rows| == |rows'|
  {
    exists i, j :: 0 <= i < |rows| && 0 <= j < |rows| && ReachesInto(rows, i, rows'[i].end, j)
  }

  /**
   Replacing the ends of non-empty rows by later instants than their starts keeps a disjoint table disjoint
   exactly when no new end reaches into a later row; emptied rows must be alone at their start.
   */
  lemma NewEndsDisjoint(rows: seq<Reservation>, rows': seq<Reservation>)
    requires Disjoint(rows) && Ordered(rows) && |rows| == |rows'|
    requires forall i :: 0 <= i < |rows| ==>
      && rows'[i].host == rows[i].host && rows'[i].start == rows[i].start
      && (rows'[i].end != rows[i].end ==> rows[i].start < rows[i].end && rows[i].start <= rows'[i].end)
    requires forall i, j :: 0 <= i < |rows| && 0 <= j < |rows| && ReachesInto(rows, i, rows'[i].end, j)
                            ==> rows'[j].start < rows'[j].end
    ensures Disjoint(rows') <==> !RunsInto(rows, rows')
  {
    if RunsInto(rows, rows') {
      var i, j :| 0 <= i < |rows| && 0 <= j < |rows| && ReachesInto(rows, i, rows'[i].end, j);
      assert Overlap(rows'[i], rows'[j]) && Overlap(rows'[j], rows'[i]);
    } else {
      forall i, j | 0 <= i < j < |rows'| && rows'[i].host == rows'[j].host
        ensures !Overlap(rows'[i], rows'[j])
      {
        assert !Overlap(rows[i], rows[j]);
        assert !ReachesInto(rows, i, rows'[i].end, j) && !ReachesInto(rows, j, rows'[j].end, i);
      }
    }
  }

  /** A selected row shorter than its floored first minute, with another reservation starting before that minute. */
  predicate ShrinkCollides(rows: seq<Reservation>, selected: seq<nat>) {
    exists i, j :: i in selected && 0 <= j < |rows| && FirstMinuteReaches(rows, i, j)
  }

  predicate FirstMinuteReaches(rows: seq<Reservation>, i: nat, j: nat) {
    i < |rows| && ReachesInto(rows, i, FloorMinute(rows[i].start + MINUTE), j)
  }

  /** The new end of one selected row. */
  lemma ShrunkRow(rows: seq<Reservation>, selected: seq<nat>, target: Target, now: bool, threshold: Time, i: nat)
    requires Selects(rows, selected) && i in selected
    requires forall k :: 0 <= k < |selected| ==> Shrinkable(rows[selected[k]], target, now, threshold)
    ensures var end := WithEnds(rows, selected, SentShrink(target))[i].end;
            && rows[i].start < end
            && FloorMinute(rows[i].start + MINUTE) <= end
            && (end <= rows[i].end || end == FloorMinute(rows[i].start + MINUTE))
  {
    var k :| 0 <= k < |selected| && selected[k] == i;
    ShrinkBounds(rows[i], target, now, threshold);
    FloorMinuteBounds(ShrunkEnd(rows[i], target));
  }

  /** The new ends run into a later row exactly when a floored first minute does. */
  lemma ShrunkRunsInto(rows: seq<Reservation>, rows': seq<Reservation>, selected: seq<nat>)
    requires |rows'| == |rows| && Selects(rows, selected)
    requires forall i :: 0 <= i < |rows| && i !in selected ==> rows'[i] == rows[i]
    requires forall i :: 0 <= i < |rows| && i in selected ==>
      && FloorMinute(rows[i].start + MINUTE) <= rows'[i].end
      && (rows'[i].end <= rows[i].end || rows'[i].end == FloorMinute(rows[i].start + MINUTE))
    ensures RunsInto(rows, rows') <==> ShrinkCollides(rows, selected)
  {
    if ShrinkCollides(rows, selected) {
      var i, j :| i in selected && 0 <= j < |rows| && FirstMinuteReaches(rows, i, j);
      assert ReachesInto(rows, i, rows'[i].end, j);
    }
    if RunsInto(rows, rows') {
      var i, j :| 0 <= i < |rows| && 0 <= j < |rows| && ReachesInto(rows, i, rows'[i].end, j);
      assert i in selected && FirstMinuteReaches(rows, i, j);
    }
  }

  /**
   Main result for shrink: shrinking a set of non-empty reservations keeps the store free of double booking,
   unless one of them is shorter than its floored first minute and another begins before that minute is over.
   */
  lemma ShrinkKeepsDisjoint(rows: seq<Reservation>, selected: seq<nat>, target: Target, now: bool, threshold: Time)
    requires Disjoint(rows) && Ordered(rows) && Selects(rows, selected)
    requires forall k :: 0 <= k < |selected| ==> rows[selected[k]].start < rows[selected[k]].end
    requires forall k :: 0 <= k < |selected| ==> Shrinkable(rows[selected[k]], target, now, threshold)
    ensures var rows' := WithEnds(rows, selected, SentShrink(target));
            Ordered(rows') && (Disjoint(rows') <==> !ShrinkCollides(rows, selected))
  {
    var rows' := WithEnds(rows, selected, SentShrink(target));
    forall i | 0 <= i < |rows|
      ensures i in selected ==> rows[i].start < rows'[i].end && rows[i].start < rows[i].end
      ensures i in selected ==> FloorMinute(rows[i].start + MINUTE) <= rows'[i].end
      ensures i in selected ==> rows'[i].end <= rows[i].end || rows'[i].end == FloorMinute(rows[i].start + MINUTE)
    {
      if i in selected {
        ShrunkRow(rows, selected, target, now, threshold, i);
      }
    }
    NewEndsDisjoint(rows, rows');
    ShrunkRunsInto(rows, rows', selected);
  }

  /** So reservations at least a minute long can always be shrunk together. */
  lemma ShrinkOfMinuteLongRows(rows: seq<Reservation>, selected: seq<nat>, target: Target, now: bool, threshold: Time)
    requires Disjoint(rows) && Ordered(rows) && Selects(rows, selected)
    requires forall k :: 0 <= k < |selected| ==> rows[selected[k]].start + MINUTE <= rows[selected[k]].end
    requires forall k :: 0 <= k < |selected| ==> Shrinkable(rows[selected[k]], target, now, threshold)
    ensures Disjoint(WithEnds(rows, selected, SentShrink(target)))
    ensures forall i :: 0 <= i < |rows| ==> WithEnds(rows, selected, SentShrink(target))[i].end <= rows[i].end
  {
    ShrinkKeepsDisjoint(rows, selected, target, now, threshold);
    forall i | 0 <= i < |rows|
      ensures WithEnds(rows, selected, SentShrink(target))[i].end <= rows[i].end
      ensures i in selected ==> FloorMinute(rows[i].start + MINUTE) <= rows[i].end
    {
      if i in selected {
        var k :| 0 <= k < |selected| && selected[k] == i;
        ShrinkBounds(rows[i], target, now, threshold);
        FloorMinuteBounds(rows[i].start + MINUTE);
      }
    }
  }

  /** The first whole minute after an instant. */
  lemma NextMinute(t: Time, minute: Time)
    ensures t < minute && minute % MINUTE == 0 ==> FloorMinute(t + MINUTE) <= minute
  {
    FloorMinuteBounds(t + MINUTE);
  }

  /** Reservations that end on a whole minute never collide, whatever the others are. */
  lemma MinuteEndsNeverCollide(rows: seq<Reservation>, selected: seq<nat>)
    requires NoneEmpty(rows, selected) && forall i :: i in selected ==> rows[i].end % MINUTE == 0
    ensures !ShrinkCollides(rows, selected)
  {
    forall i | i in selected
      ensures FloorMinute(rows[i].start + MINUTE) <= rows[i].end
    {
      NextMinute(rows[i].start, rows[i].end);
    }
  }

  /**
   A collision needs a start off the minute after the shrunk row's own: with every later start on the minute, as
   when check and update see one and the same table, shrinking what the command selects is always safe.
   */
  lemma ShrinkOfSelectionKeepsDisjoint(rows: seq<Reservation>, asked: Asked, target: Target, immediate: bool,
                                       threshold: Time, clock: Time, now: Time)
    requires Disjoint(rows) && Ordered(rows) && clock < now
    requires EmptyRowsStarted(rows, clock) && LaterStartsOnMinute(rows, clock)
    ensures var rows' := ShrunkRows(rows, Selection(rows, asked, now), target, immediate, threshold);
            Disjoint(rows') && Ordered(rows')
  {
    var selected := Selection(rows, asked, now);
    SelectionHasNoEmptyRow(rows, asked, clock, now);
    forall i, j | i in selected && 0 <= j < |rows|
      ensures !FirstMinuteReaches(rows, i, j)
    {
      if FirstMinuteReaches(rows, i, j) {
        NextMinute(rows[i].start, rows[j].start);
      }
    }
    if AllShrinkable(rows, selected, target, immediate, threshold) {
      ShrinkKeepsDisjoint(rows, selected, target, immediate, threshold);
    }
  }

  lemma NothingSelectedNothingShrunk(rows: seq<Reservation>, target: Target, now: bool, threshold: Time)
    ensures ShrunkRows(rows, [], target, now, threshold) == rows
  {
  }

  // ---------------------------------------------------------------- other writers between check and update

  /** The table after the selected rows are given ends worked out from an earlier reading of them. */
  function SentEnds(rows: seq<Reservation>, checked: seq<Reservation>, selected: seq<nat>,
                    newEnd: Reservation -> Time): (r: seq<Reservation>)
    requires |checked| <= |rows|
    ensures |r| == |rows|
  {
    seq(|rows|, i requires 0 <= i < |rows| =>
      if i in selected && i < |checked| then rows[i].(end := newEnd(checked[i])) else rows[i])
  }

  lemma SentEndsStep(rows: seq<Reservation>, checked: seq<Reservation>, selected: seq<nat>, k: nat,
                     newEnd: Reservation -> Time)
    requires |checked| <= |rows| && Selects(checked, selected) && k < |selected|
    ensures var before := SentEnds(rows, checked, selected[..k], newEnd);
            && before[selected[k]] == rows[selected[k]]
            && SentEnds(rows, checked, selected[..k + 1], newEnd)
               == before[selected[k] := rows[selected[k]].(end := newEnd(checked[selected[k]]))]
  {
    assert selected[..k + 1] == selected[..k] + [selected[k]];
    assert selected[k] !in selected[..k];
  }

  /** Since they were read, rows may have been cut, extended or added; hosts and starts are as they were. */
  predicate SameStarts(checked: seq<Reservation>, rows: seq<Reservation>) {
    && |checked| <= |rows|
    && forall i :: 0 <= i < |checked| ==> rows[i].host == checked[i].host && rows[i].start == checked[i].start
  }

  /** An end sent for a selected row, worked out from what was read, reaches into another row as it is now. */
  predicate SentTooFar(checked: seq<Reservation>, rows: seq<Reservation>, selected: seq<nat>,
                       newEnd: Reservation -> Time)
  {
    exists i, j :: i in selected && i < |checked| && 0 <= j < |rows| && ReachesInto(rows, i, newEnd(checked[i]), j)
  }

  /**
   The exact condition for updates that other writers may have overtaken: the table is free of double booking after
   them if and only if no sent end reaches into a reservation that starts at or after the row's present end.
   */
  lemma OvertakenUpdatesDisjoint(checked: seq<Reservation>, rows: seq<Reservation>, selected: seq<nat>,
                                 newEnd: Reservation -> Time)
    requires SameStarts(checked, rows) && Disjoint(rows) && Ordered(rows)
    requires Selects(checked, selected) && NoneEmpty(rows, selected)
    requires forall i :: i in selected ==> checked[i].start < newEnd(checked[i])
    ensures var rows' := SentEnds(rows, checked, selected, newEnd);
            Ordered(rows') && (Disjoint(rows') <==> !SentTooFar(checked, rows, selected, newEnd))
  {
    var rows' := SentEnds(rows, checked, selected, newEnd);
    assert forall i :: i in selected ==> i < |checked|;
    NewEndsDisjoint(rows, rows');
    if SentTooFar(checked, rows, selected, newEnd) {
      var i, j :| i in selected && i < |checked| && 0 <= j < |rows| && ReachesInto(rows, i, newEnd(checked[i]), j);
      assert ReachesInto(rows, i, rows'[i].end, j);
    }
    if RunsInto(rows, rows') {
      var i, j :| 0 <= i < |rows| && 0 <= j < |rows| && ReachesInto(rows, i, rows'[i].end, j);
      assert i in selected;
    }
  }

  lemma ShrinkSendsLaterEnds(checked: seq<Reservation>, selected: seq<nat>, target: Target, now: bool, threshold: Time)
    requires Selects(checked, selected) && AllShrinkable(checked, selected, target, now, threshold)
    ensures forall i :: i in selected ==> checked[i].start < SentShrink(target)(checked[i])
  {
    forall i | i in selected
      ensures checked[i].start < SentShrink(target)(checked[i])
    {
      var k :| 0 <= k < |selected| && selected[k] == i;
      ShrinkBounds(checked[i], target, now, threshold);
    }
  }

  /** For a shrink, whose check looks at each row alone, this is the exact condition, whatever happened meanwhile. */
  lemma OvertakenShrinkExactlyWhen(checked: seq<Reservation>, rows: seq<Reservation>, selected: seq<nat>,
                                   target: Target, now: bool, threshold: Time)
    requires SameStarts(checked, rows) && Disjoint(rows) && Ordered(rows)
    requires Selects(checked, selected) && NoneEmpty(rows, selected)
    requires AllShrinkable(checked, selected, target, now, threshold)
    ensures var rows' := SentEnds(rows, checked, selected, SentShrink(target));
            Ordered(rows') && (Disjoint(rows') <==> !SentTooFar(checked, rows, selected, SentShrink(target)))
  {
    ShrinkSendsLaterEnds(checked, selected, target, now, threshold);
    OvertakenUpdatesDisjoint(checked, rows, selected, SentShrink(target));
  }

  /**
   A two-day reservation is asked to be shrunk to twelve hours. Before that is confirmed it is terminated after two
   hours and its host is taken until the end of the day; the update then gives it its ten hours back.
   */
  lemma OvertakenShrinkDoubleBooks()
    ensures var hour := SelfSchedule.HOUR;
            var hosts := [Host(1, "", false, false, false, 0, 0)];
            var checked, cut := [Reservation(0, 1, 0, 0, 2 * DAY)], [Reservation(0, 1, 0, 0, 2 * hour)];
            var taken := Reservation(1, 1, 1, 2 * hour, DAY);
            var rows := cut + [taken];
            && AllShrinkable(checked, [0], Until(12 * hour), false, hour)
            && cut == TerminatedAt(checked, [0], k => 2 * hour) && Available(hosts, cut, 1, taken.start, taken.end)
            && SameStarts(checked, rows) && Disjoint(rows) && NoneEmpty(rows, [0])
            && !Disjoint(SentEnds(rows, checked, [0], SentShrink(Until(12 * hour))))
  {
    var hour := SelfSchedule.HOUR;
    var hosts := [Host(1, "", false, false, false, 0, 0)];
    var checked, cut := [Reservation(0, 1, 0, 0, 2 * DAY)], [Reservation(0, 1, 0, 0, 2 * hour)];
    var rows := cut + [Reservation(1, 1, 1, 2 * hour, DAY)];
    assert FindHost(hosts, 1) == Some(hosts[0]);
    var rows' := SentEnds(rows, checked, [0], SentShrink(Until(12 * hour)));
    assert rows'[0].end == 12 * hour;
    assert Overlap(rows'[0], rows'[1]);
  }

  /**
   Nobody need have cut the row, if it is short: under a default lifetime of thirty seconds, a reservation made at
   ten seconds past the minute is asked to be shrunk; before that is confirmed it expires, and the host is taken
   again at forty-five seconds. The update then sends the first reservation's end to the full minute.
   */
  lemma ShortLifetimeBreaksShrink()
    ensures var second := 1_000_000;
            var rule := SelfSchedule.DeadlineRule(5, 21, 30 * second);
            var hosts := [Host(1, "", false, false, true, 0, 0)];
            var first, next := Reservation(0, 1, 0, 10 * second, 40 * second),
                               Reservation(1, 1, 1, 45 * second, 75 * second);
            && SelfSchedule.SelfScheduleEnd(first.start, rule) == Some(first.end)
            && SelfSchedule.SelfScheduleEnd(next.start, rule) == Some(next.end)
            && Available(hosts, [first], 1, next.start, next.end)
            && Disjoint([first, next]) && Shrinkable(first, Until(20 * second), true, 0)
            && !Disjoint(WithEnds([first, next], [0], SentShrink(Until(20 * second))))
  {
    var second := 1_000_000;
    var hosts := [Host(1, "", false, false, true, 0, 0)];
    var first, next := Reservation(0, 1, 0, 10 * second, 40 * second), Reservation(1, 1, 1, 45 * second, 75 * second);
    assert FindHost(hosts, 1) == Some(hosts[0]);
    var rows' := WithEnds([first, next], [0], SentShrink(Until(20 * second)));
    assert rows'[0].end == 60 * second;
    assert Overlap(rows'[0], rows'[1]);
  }

  /** A selected reservation that expires before its clock reading, with another starting in between. */
  predicate TerminatedTooLate(rows: seq<Reservation>, selected: seq<nat>, clock: nat -> Time) {
    exists k, j :: 0 <= k < |selected| && 0 <= j < |rows| && ReachesInto(rows, selected[k], clock(k), j)
  }

  /** Only a selected row can reach into another, and the row reached is not selected: both would be current. */
  lemma TerminatedReach(rows: seq<Reservation>, selected: seq<nat>, clock: nat -> Time, now: Time, i: nat, j: nat)
    requires Disjoint(rows) && Selects(rows, selected) && i < |rows|
    requires forall k :: 0 <= k < |selected| ==> Covers(rows[selected[k]], now) && now <= clock(k)
    requires ReachesInto(rows, i, TerminatedAt(rows, selected, clock)[i].end, j)
    ensures i in selected && j !in selected
    ensures ReachesInto(rows, selected[Position(selected, i)], clock(Position(selected, i)), j)
  {
    forall m | m in selected
      ensures m < |rows| && Covers(rows[m], now)
    {
      assert selected[Position(selected, m)] == m;
    }
  }

  lemma PositionUnique(rows: seq<Reservation>, selected: seq<nat>, k: nat)
    requires Selects(rows, selected) && k < |selected|
    ensures Position(selected, selected[k]) == k
  {
  }

  /** What terminating does to the selected rows, and what a new end that reaches into another row means. */
  lemma TerminatedRowsWereCurrent(rows: seq<Reservation>, selected: seq<nat>, clock: nat -> Time, now: Time)
    requires Disjoint(rows) && Selects(rows, selected)
    requires forall k :: 0 <= k < |selected| ==> Covers(rows[selected[k]], now) && now <= clock(k)
    ensures forall i :: 0 <= i < |rows| && i in selected ==>
              Covers(rows[i], now) && now <= TerminatedAt(rows, selected, clock)[i].end
  {
    forall i | 0 <= i < |rows| && i in selected
      ensures Covers(rows[i], now) && now <= TerminatedAt(rows, selected, clock)[i].end
    {
      assert selected[Position(selected, i)] == i;
    }
  }

  lemma TooLateRunsInto(rows: seq<Reservation>, selected: seq<nat>, clock: nat -> Time, now: Time)
    requires Disjoint(rows) && Selects(rows, selected)
    requires forall k :: 0 <= k < |selected| ==> Covers(rows[selected[k]], now) && now <= clock(k)
    ensures RunsInto(rows, TerminatedAt(rows, selected, clock)) <==> TerminatedTooLate(rows, selected, clock)
  {
    var rows' := TerminatedAt(rows, selected, clock);
    if RunsInto(rows, rows') {
      var i, j :| 0 <= i < |rows| && 0 <= j < |rows| && ReachesInto(rows, i, rows'[i].end, j);
      TerminatedReach(rows, selected, clock, now, i, j);
    }
    if TerminatedTooLate(rows, selected, clock) {
      var k, j :| 0 <= k < |selected| && 0 <= j < |rows| && ReachesInto(rows, selected[k], clock(k), j);
      PositionUnique(rows, selected, k);
      assert ReachesInto(rows, selected[k], rows'[selected[k]].end, j);
    }
  }

  /**
   Terminating reservations that are current at an instant, with later clock readings, keeps the store free of
   double booking unless one expires before its reading; at one single instant it always does, and every row
   still ends no earlier than it starts.
   */
  lemma TerminateKeepsDisjoint(rows: seq<Reservation>, selected: seq<nat>, clock: nat -> Time, now: Time)
    requires Disjoint(rows) && Ordered(rows) && Selects(rows, selected)
    requires forall k :: 0 <= k < |selected| ==> Covers(rows[selected[k]], now) && now <= clock(k)
    ensures var rows' := TerminatedAt(rows, selected, clock);
            Ordered(rows') && (Disjoint(rows') <==> !TerminatedTooLate(rows, selected, clock))
    ensures (forall k :: 0 <= k < |selected| ==> clock(k) == now) ==> Disjoint(TerminatedAt(rows, selected, clock))
  {
    var rows' := TerminatedAt(rows, selected, clock);
    TerminatedRowsWereCurrent(rows, selected, clock, now);
    forall i, j | 0 <= i < |rows| && 0 <= j < |rows| && ReachesInto(rows, i, rows'[i].end, j)
      ensures rows'[j] == rows[j]
    {
      TerminatedReach(rows, selected, clock, now, i, j);
    }
    NewEndsDisjoint(rows, rows');
    TooLateRunsInto(rows, selected, clock, now);
  }

  /**
   Two back-to-back reservations of a host: the first is current when the rows are fetched and has expired when the
   clock is read for it, so that its end moves past the start of the second.
   */
  lemma LateClockBreaksTerminate()
    ensures var rows := [Reservation(0, 1, 0, 0, MINUTE), Reservation(1, 1, 1, MINUTE, 2 * MINUTE)];
            && Disjoint(rows) && Covers(rows[0], MINUTE - 1)
            && !Disjoint(TerminatedAt(rows, [0], k => MINUTE + 1))
  {
    var rows := [Reservation(0, 1, 0, 0, MINUTE), Reservation(1, 1, 1, MINUTE, 2 * MINUTE)];
    var rows' := TerminatedAt(rows, [0], k => MINUTE + 1);
    assert Overlap(rows'[0], rows'[1]);
  }

  // ---------------------------------------------------------------- the commands

  class ReservationTable {
    const hosts: seq<Host>
    var rows: seq<Reservation>

    constructor (hosts: seq<Host>, rows: seq<Reservation>)
      ensures this.hosts == hosts && this.rows == rows
    {
      this.hosts := hosts;
      this.rows := rows;
    }

    /** The update request for one row: an end that is not after the start is rejected. */
    method UpdateEnd(row: nat, end: Time) returns (ok: bool)
      requires row < |rows|
      modifies this`rows
      ensures ok <==> old(rows)[row].start < end
      ensures rows == if ok then old(rows)[row := old(rows)[row].(end := end)] else old(rows)
    {
      ok := rows[row].start < end;
      if ok {
        rows := rows[row := rows[row].(end := end)];
      }
    }

    /** Sends a new end for each selected row, and stops at the first that is rejected. */
    method SendUpdates(selected: seq<nat>, newEnd: Reservation -> Time) returns (outcome: Outcome)
      requires Selects(rows, selected)
      modifies this`rows
      ensures rows == Updated(old(rows), selected, newEnd)
      ensures var accepted := AcceptedCount(old(rows), selected, newEnd);
              outcome == if accepted == |selected| then Applied else Stopped(accepted)
      ensures outcome.Applied? <==>
              forall k :: 0 <= k < |selected| ==> old(rows)[selected[k]].start < newEnd(old(rows)[selected[k]])
    {
      ghost var accepted := AcceptedCount(rows, selected, newEnd);
      var k := 0;
      assert WithEnds(rows, selected[..0], newEnd) == rows;
      while k < |selected|
        invariant 0 <= k <= accepted
        invariant rows == WithEnds(old(rows), selected[..k], newEnd)
      {
        WithEndsStep(old(rows), selected, k, newEnd);
        var ok := UpdateEnd(selected[k], newEnd(rows[selected[k]]));
        if !ok {
          return Stopped(k);
        }
        k := k + 1;
      }
      outcome := Applied;
    }

    /** The rows selected by the command, if they are current, or future and the user confirms; else none. */
    method Select(asked: Asked, now: Time, confirmed: bool) returns (selected: seq<nat>)
      ensures Selects(rows, selected) && (selected == Selection(rows, asked, now) || (!confirmed && selected == []))
    {
      var current := CurrentTest(asked, now);
      selected := [];
      var i := 0;
      while i < |rows|
        invariant 0 <= i <= |rows|
        invariant selected == PositionsBelow(rows, current, i)
      {
        if current(rows[i]) {
          selected := selected + [i];
        }
        i := i + 1;
      }
      assert selected == Positions(rows, current);
      if selected == [] && confirmed {
        selected := Positions(rows, FutureTest(asked, now));
      }
    }

    method Extend(selected: seq<nat>, target: Target, check: bool) returns (outcome: Outcome)
      requires Selects(rows, selected)
      modifies this`rows
      ensures outcome.Refused? <==> !AllExtendable(hosts, old(rows), selected, target)
      ensures rows == if check then old(rows) else ExtendedRows(hosts, old(rows), selected, target)
      ensures outcome.Possible? <==> !outcome.Refused? && check
      ensures Ordered(old(rows)) ==> Ordered(rows)
      ensures Disjoint(old(rows)) && Ordered(old(rows)) && NoneEmpty(old(rows), selected) ==> Disjoint(rows)
    {
      var nonExtendable: seq<HostName> := [];
      var k := 0;
      while k < |selected|
        invariant 0 <= k <= |selected|
        invariant rows == old(rows)
        invariant nonExtendable != [] <==>
                  exists j :: 0 <= j < k && !Extendable(hosts, rows, rows[selected[j]], target)
      {
        var r := rows[selected[k]];
        var newEnd := ExtendedEnd(r, target);
        var start, end := FloorMinute(r.end), FloorMinute(newEnd);
        if start > end {
          end := start + MINUTE;
        }
        var available := IsHostAvailable(hosts, rows, r.host, start, end, None);
        if !available || newEnd < r.end {
          nonExtendable := nonExtendable + [r.host];
        }
        k := k + 1;
      }
      if nonExtendable != [] {
        return Refused(nonExtendable);
      }
      if check {
        return Possible;
      }
      if Disjoint(rows) && Ordered(rows) && NoneEmpty(rows, selected) {
        ExtendKeepsDisjointAtEveryUpdate(hosts, rows, selected, target,
                                         AcceptedCount(rows, selected, SentExtension(target)));
      }
      outcome := SendUpdates(selected, SentExtension(target));
    }

    /** The whole command: the clock has moved on since the last row was left empty. */
    method ExtendCommand(asked: Asked, ghost clock: Time, now: Time, confirmed: bool, target: Target, check: bool)
      returns (outcome: Outcome)
      requires Disjoint(rows) && Ordered(rows) && EmptyRowsStarted(rows, clock) && clock < now
      modifies this`rows
      ensures Disjoint(rows) && Ordered(rows)
      ensures confirmed && !check ==>
                rows == ExtendedRows(hosts, old(rows), Selection(old(rows), asked, now), target)
    {
      SelectionHasNoEmptyRow(rows, asked, clock, now);
      var selected := Select(asked, now, confirmed);
      outcome := Extend(selected, target, check);
    }

    /** "now" marks an immediate shrink, which may end within the hour that "threshold" otherwise protects. */
    method Shrink(selected: seq<nat>, target: Target, now: bool, threshold: Time, check: bool)
      returns (outcome: Outcome)
      requires Selects(rows, selected)
      modifies this`rows
      ensures outcome.Refused? <==> !AllShrinkable(old(rows), selected, target, now, threshold)
      ensures rows == if check then old(rows) else ShrunkRows(old(rows), selected, target, now, threshold)
      ensures outcome.Possible? <==> !outcome.Refused? && check
      ensures outcome.Applied? <==> !outcome.Refused? && !check
      ensures Ordered(old(rows)) ==> Ordered(rows)
    {
      var nonShrinkable: seq<HostName> := [];
      var k := 0;
      while k < |selected|
        invariant 0 <= k <= |selected|
        invariant rows == old(rows)
        invariant nonShrinkable != [] <==>
                  exists j :: 0 <= j < k && !Shrinkable(rows[selected[j]], target, now, threshold)
      {
        var r := rows[selected[k]];
        var end := ShrunkEnd(r, target);
        if end < r.start || end > r.end || (!now && end < threshold) {
          nonShrinkable := nonShrinkable + [r.host];
        }
        k := k + 1;
      }
      if nonShrinkable != [] {
        return Refused(nonShrinkable);
      }
      if check {
        return Possible;
      }
      forall j | 0 <= j < |selected|
        ensures rows[selected[j]].start < SentShrink(target)(rows[selected[j]])
      {
        ShrinkBounds(rows[selected[j]], target, now, threshold);
      }
      outcome := SendUpdates(selected, SentShrink(target));
      assert selected[..|selected|] == selected;
    }

    /** The updates of a shrink that was checked on an earlier reading of the table. */
    method SendShrink(checked: seq<Reservation>, selected: seq<nat>, target: Target, ghost now: bool,
                      ghost threshold: Time)
      requires SameStarts(checked, rows) && Selects(checked, selected)
      requires AllShrinkable(checked, selected, target, now, threshold)
      modifies this`rows
      ensures rows == SentEnds(old(rows), checked, selected, SentShrink(target))
      ensures Disjoint(old(rows)) && Ordered(old(rows)) && NoneEmpty(old(rows), selected) ==>
                (Disjoint(rows) <==> !SentTooFar(checked, old(rows), selected, SentShrink(target)))
    {
      ShrinkSendsLaterEnds(checked, selected, target, now, threshold);
      if Disjoint(rows) && Ordered(rows) && NoneEmpty(rows, selected) {
        OvertakenShrinkExactlyWhen(checked, rows, selected, target, now, threshold);
      }
      var k := 0;
      assert SentEnds(rows, checked, selected[..0], SentShrink(target)) == rows;
      while k < |selected|
        invariant 0 <= k <= |selected|
        invariant rows == SentEnds(old(rows), checked, selected[..k], SentShrink(target))
      {
        SentEndsStep(old(rows), checked, selected, k, SentShrink(target));
        assert selected[k] in selected;
        var ok := UpdateEnd(selected[k], SentShrink(target)(checked[selected[k]]));
        assert ok;
        k := k + 1;
      }
      assert selected[..k] == selected;
    }

    /** The whole command, with no other writer between its check and its updates. */
    method ShrinkCommand(asked: Asked, ghost clock: Time, now: Time, confirmed: bool, target: Target, immediate: bool,
                         threshold: Time, check: bool)
      returns (outcome: Outcome)
      requires Disjoint(rows) && Ordered(rows) && clock < now
      requires EmptyRowsStarted(rows, clock) && LaterStartsOnMinute(rows, clock)
      modifies this`rows
      ensures Disjoint(rows) && Ordered(rows)
      ensures confirmed && !check ==>
                rows == ShrunkRows(old(rows), Selection(old(rows), asked, now), target, immediate, threshold)
    {
      ShrinkOfSelectionKeepsDisjoint(rows, asked, target, immediate, threshold, clock, now);
      var selected := Select(asked, now, confirmed);
      NothingSelectedNothingShrunk(rows, target, immediate, threshold);
      outcome := Shrink(selected, target, immediate, threshold, check);
    }

    /** Ends the selected current rows; the clock is read anew for each, and the result is not validated. */
    method Terminate(selected: seq<nat>, clock: nat -> Time)
      requires Selects(rows, selected)
      modifies this`rows
      ensures rows == TerminatedAt(old(rows), selected, clock)
    {
      var k := 0;
      assert TerminatedAt(rows, selected[..0], clock) == rows;
      while k < |selected|
        invariant 0 <= k <= |selected|
        invariant rows == TerminatedAt(old(rows), selected[..k], clock)
      {
        TerminatedStep(old(rows), selected, k, clock);
        rows := rows[selected[k] := rows[selected[k]].(end := clock(k))];
        k := k + 1;
      }
      assert selected[..k] == selected;
    }
  }
}
