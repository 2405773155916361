/**
 The utilization statistics: reserved time clipped to a window, summed over usable hosts. Because no host is
 double booked the sum cannot exceed hosts times window, which is what bounds the reported percentage.
 */
module Utilization {
  import opened Wrappers
  import opened Reservations

  // ---------------------------------------------------------------- the query

  /** The part of a row inside the window, as the query adds it up: rows that do not meet the window are left out. */
  function Clipped(r: Reservation, start: Time, end: Time): int {
    if r.start < end && r.end > start then
      Min(r.end, end) - Max(r.start, start)
    else 0
  }

  /** Clipped time of the rows on the given hosts. */
  function ReservedTime(rows: seq<Reservation>, names: set<HostName>, start: Time, end: Time): int {
    if rows == [] then 0
    else
      (if rows[0].host in names then Clipped(rows[0], start, end) else 0)
      + ReservedTime(rows[1..], names, start, end)
  }

  function UsableNames(hosts: seq<Host>): set<HostName> {
    set h | h in hosts && h.Usable() :: h.name
  }

  datatype Stats = Stats(scheduledCount: int, days: int, hosts: nat, schedules: nat)

  function UtilizationStats(hosts: seq<Host>, rows: seq<Reservation>, start: Time, end: Time): Stats {
    var whole := (end - start) / DAY;
    Stats(
      ReservedTime(rows, UsableNames(hosts), start, end) / DAY,
      if whole == 0 then 1 else whole,
      |UsableHosts(hosts)|,
      |Filter(rows, (r: Reservation) => r.start < end && r.end > start)|)
  }

  /** The percentage a report row prints. */
  function Percentage(stats: Stats): int {
    if stats.hosts != 0 && stats.days != 0 then stats.scheduledCount * 100 / (stats.days * stats.hosts) else 0
  }

  /** How many instants of a window a row covers, looking at one after the other. */
  function CoveredInstants(r: Reservation, start: Time, end: Time): nat
    decreases end - start
  {
    if start >= end then 0 else (if Covers(r, start) then 1 else 0) + CoveredInstants(r, start + 1, end)
  }

  /** The clipped time is the number of instants of the window that the row covers. */
  lemma {:induction false} ClippedCountsInstants(r: Reservation, start: Time, end: Time)
    requires r.start <= r.end && start <= end
    ensures Clipped(r, start, end) == CoveredInstants(r, start, end)
    decreases end - start
  {
    if start < end {
      ClippedCountsInstants(r, start + 1, end);
    }
  }

  // ---------------------------------------------------------------- one host cannot be overfull

  /** Clipped time of all rows of a list, whatever their host. */
  function TotalClipped(rows: seq<Reservation>, start: Time, end: Time): int {
    if rows == [] then 0 else Clipped(rows[0], start, end) + TotalClipped(rows[1..], start, end)
  }

  predicate NoneOverlap(rows: seq<Reservation>) {
    forall i, j :: 0 <= i < j < |rows| ==> !Overlap(rows[i], rows[j])
  }

  /** A window splits around a row in it that no other row overlaps. */
  lemma {:induction false} SplitAround(rows: seq<Reservation>, r: Reservation, start: Time, end: Time)
    requires Ordered(rows) && r.start < end && start < r.end && start < end && r.start < r.end
    requires forall i :: 0 <= i < |rows| ==> !Overlap(r, rows[i])
    ensures TotalClipped(rows, start, end)
            == TotalClipped(rows, start, Max(r.start, start)) + TotalClipped(rows, Min(r.end, end), end)
  {
    if rows != [] {
      assert !Overlap(r, rows[0]);
      SplitAround(rows[1..], r, start, end);
    }
  }

  /** The packing bound: rows that never overlap fill a window at most once. */
  lemma {:induction false} PackingBound(rows: seq<Reservation>, start: Time, end: Time)
    requires start <= end && Ordered(rows) && NoneOverlap(rows)
    ensures 0 <= TotalClipped(rows, start, end) <= end - start
    decreases |rows|
  {
    if rows != [] {
      var r, rest := rows[0], rows[1..];
      if r.start < end && start < r.end && start < end && r.start < r.end {
        forall i | 0 <= i < |rest|
          ensures !Overlap(r, rest[i])
        {
          assert rest[i] == rows[i + 1];
        }
        SplitAround(rest, r, start, end);
        PackingBound(rest, start, Max(r.start, start));
        PackingBound(rest, Min(r.end, end), end);
      } else {
        PackingBound(rest, start, end);
      }
    }
  }

  // ---------------------------------------------------------------- all hosts together

  function OnHost(name: HostName): Reservation -> bool {
    (r: Reservation) => r.host == name
  }

  lemma {:induction false} HostRowsNeverOverlap(rows: seq<Reservation>, name: HostName)
    requires Disjoint(rows) && Ordered(rows)
    ensures NoneOverlap(Filter(rows, OnHost(name))) && Ordered(Filter(rows, OnHost(name)))
  {
    if rows != [] {
      var rest := rows[1..];
      HostRowsNeverOverlap(rest, name);
      var kept := Filter(rest, OnHost(name));
      if rows[0].host == name {
        forall i | 0 <= i < |kept|
          ensures !Overlap(rows[0], kept[i])
        {
          assert kept[i] in kept;
          var j :| 0 <= j < |rest| && rest[j] == kept[i];
          assert rows[j + 1] == kept[i];
        }
      }
    }
  }

  /** Taking one host out of the sum takes out exactly its own rows. */
  lemma {:induction false} OneHostApart(rows: seq<Reservation>, names: set<HostName>, name: HostName, start: Time,
                                        end: Time)
    requires name in names
    ensures ReservedTime(rows, names, start, end)
            == ReservedTime(rows, names - {name}, start, end) + TotalClipped(Filter(rows, OnHost(name)), start, end)
  {
    if rows != [] {
      OneHostApart(rows[1..], names, name, start, end);
    }
  }

  lemma {:induction false} NoHostsNoTime(rows: seq<Reservation>, start: Time, end: Time)
    ensures ReservedTime(rows, {}, start, end) == 0
  {
    if rows != [] {
      NoHostsNoTime(rows[1..], start, end);
    }
  }

  lemma OneMoreWindow(fewer: int, more: int, window: int)
    requires more == fewer + 1
    ensures more * window == fewer * window + window
  {
  }

  /** Without double booking, the reserved time of a set of hosts fits into that many windows. */
  lemma {:induction false} ReservedTimeBound(rows: seq<Reservation>, names: set<HostName>, start: Time, end: Time)
    requires Disjoint(rows) && Ordered(rows) && start <= end
    ensures 0 <= ReservedTime(rows, names, start, end) <= |names| * (end - start)
  {
    if names == {} {
      NoHostsNoTime(rows, start, end);
    } else {
      var name :| name in names;
      OneHostApart(rows, names, name, start, end);
      HostRowsNeverOverlap(rows, name);
      PackingBound(Filter(rows, OnHost(name)), start, end);
      ReservedTimeBound(rows, names - {name}, start, end);
      OneMoreWindow(|names - {name}|, |names|, end - start);
    }
  }

  lemma NamesOfFirstAndRest(hosts: seq<Host>)
    requires hosts != []
    ensures UsableNames(hosts) == UsableNames(hosts[1..]) + if hosts[0].Usable() then {hosts[0].name} else {}
  {
    assert forall h :: h in hosts <==> h == hosts[0] || h in hosts[1..];
  }

  lemma {:induction false} AtMostOneNameEach(hosts: seq<Host>)
    ensures |UsableNames(hosts)| <= |UsableHosts(hosts)|
  {
    if hosts != [] {
      NamesOfFirstAndRest(hosts);
      AtMostOneNameEach(hosts[1..]);
    }
  }

  /** Main bound: clipped reservation time is at most (number of usable hosts) x (window length). */
  lemma UsableHostsNeverOverfull(hosts: seq<Host>, rows: seq<Reservation>, start: Time, end: Time)
    requires Disjoint(rows) && Ordered(rows) && start <= end
    ensures 0 <= ReservedTime(rows, UsableNames(hosts), start, end) <= |UsableHosts(hosts)| * (end - start)
  {
    var names, usable, window := |UsableNames(hosts)|, |UsableHosts(hosts)|, end - start;
    ReservedTimeBound(rows, UsableNames(hosts), start, end);
    AtMostOneNameEach(hosts);
    assert names * window <= usable * window by {
      MulMonotone(names, usable, window);
    }
  }

  lemma MulMonotone(a: int, b: int, c: int)
    requires a <= b && 0 <= c
    ensures a * c <= b * c
  {
  }

  // ---------------------------------------------------------------- the reported percentage

  lemma DivisionBound(x: int, y: int)
    requires 0 < y
    ensures x / y * y <= x < (x / y + 1) * y
  {
  }

  lemma CancelFactor(a: int, b: int, c: int)
    requires 0 < c && a * c < b * c
    ensures a < b
  {
    if b <= a {
      MulMonotone(b, a, c);
    }
  }

  /** Arithmetic of the printed percentage n * 100 / (d * h), in terms of the bound on n. */
  lemma PercentageBound(n: int, d: int, h: int)
    requires 0 < d && 0 < h && 0 <= n
    ensures 0 <= n * 100 / (d * h)
    ensures n <= d * h ==> n * 100 / (d * h) <= 100
    ensures n < (d + 1) * h ==> n * 100 / (d * h) * d < 100 * (d + 1)
  {
    var p, all := n * 100 / (d * h), d * h;
    MulMonotone(1, d, h);
    DivisionBound(n * 100, all);
    CancelFactor(-1, p, all);
    if n <= all {
      CancelFactor(p, 101, all);
    }
    if n < (d + 1) * h {
      assert p * d * h == p * all;
      assert 100 * (d + 1) * h == 100 * ((d + 1) * h);
      CancelFactor(p * d, 100 * (d + 1), h);
    }
  }

  /** A count of whole days is bounded when the time it counts is. */
  lemma ScaledDown(n: int, bound: int, time: int)
    requires n * DAY <= time && time < (bound + 1) * DAY
    ensures n <= bound
  {
  }

  /** The whole-day count is bounded by whole hosts times days, since the time is bounded by hosts times window. */
  lemma CountBound(time: int, hosts: nat, window: int, days: int)
    requires 0 <= time <= hosts * window && 0 <= window
    ensures window <= days * DAY ==> 0 <= time / DAY <= days * hosts
    ensures window < (days + 1) * DAY && 0 < hosts ==> time / DAY < (days + 1) * hosts
  {
    DivisionBound(time, DAY);
    if window <= days * DAY {
      MulMonotone(window, days * DAY, hosts);
      assert days * DAY * hosts == days * hosts * DAY;
      ScaledDown(time / DAY, days * hosts, time);
    }
    if window < (days + 1) * DAY && 0 < hosts {
      var more := (days + 1) * hosts;
      MulMonotone(window + 1, (days + 1) * DAY, hosts);
      assert (days + 1) * DAY * hosts == more * DAY;
      assert (window + 1) * hosts == hosts * window + hosts;
      CancelFactor(time / DAY, more, DAY);
    }
  }

  /**
   Main result: from a store without double booking the percentage is at most 100 for a window of whole days
   and for one shorter than a day, and below 100 * (days + 1) / days for any other window.
   */
  lemma PercentageIsBounded(hosts: seq<Host>, rows: seq<Reservation>, start: Time, end: Time)
    requires Disjoint(rows) && Ordered(rows) && start <= end
    ensures var stats := UtilizationStats(hosts, rows, start, end);
            && 0 <= Percentage(stats)
            && ((end - start) % DAY == 0 || end - start < DAY ==> Percentage(stats) <= 100)
            && Percentage(stats) * stats.days < 100 * (stats.days + 1)
  {
    var stats := UtilizationStats(hosts, rows, start, end);
    UsableHostsNeverOverfull(hosts, rows, start, end);
    if stats.hosts != 0 {
      var time := ReservedTime(rows, UsableNames(hosts), start, end);
      CountBound(time, stats.hosts, end - start, stats.days);
      PercentageBound(stats.scheduledCount, stats.days, stats.hosts);
    }
  }

  // ---------------------------------------------------------------- the largest percentage

  /** The percentage when every usable host is reserved for the whole window. */
  function FullPercentage(hosts: nat, window: Time): int
    requires 0 <= window
  {
    var days := if window / DAY == 0 then 1 else window / DAY;
    if hosts == 0 then 0
    else
      ProductPositive(days, hosts);
      hosts * window / DAY * 100 / (days * hosts)
  }

  lemma ProductPositive(a: int, b: int)
    requires 0 < a && 0 < b
    ensures 0 < a * b
  {
    MulMonotone(1, a, b);
  }

  lemma DivisionMonotone(a: int, b: int, c: int)
    requires a <= b && 0 < c
    ensures a / c <= b / c
  {
    DivisionBound(a, c);
    DivisionBound(b, c);
    CancelFactor(a / c, b / c + 1, c);
  }

  /** No store without double booking is reported above the full one. */
  lemma FullIsLargest(hosts: seq<Host>, rows: seq<Reservation>, start: Time, end: Time)
    requires Disjoint(rows) && Ordered(rows) && start <= end
    ensures Percentage(UtilizationStats(hosts, rows, start, end)) <= FullPercentage(|UsableHosts(hosts)|, end - start)
  {
    var stats := UtilizationStats(hosts, rows, start, end);
    UsableHostsNeverOverfull(hosts, rows, start, end);
    if stats.hosts != 0 {
      var time := ReservedTime(rows, UsableNames(hosts), start, end);
      DivisionMonotone(time, stats.hosts * (end - start), DAY);
      ProductPositive(stats.days, stats.hosts);
      DivisionMonotone(time / DAY * 100, stats.hosts * (end - start) / DAY * 100, stats.days * stats.hosts);
    }
  }

  /** One reservation of the whole window for each usable host. */
  function FullBooking(hosts: seq<Host>, start: Time, end: Time): seq<Reservation> {
    if hosts == [] then []
    else
      var rest := FullBooking(hosts[1..], start, end);
      if hosts[0].Usable() then [Reservation(|rest|, hosts[0].name, 0, start, end)] + rest else rest
  }

  lemma {:induction false} FullBookingIsDisjoint(hosts: seq<Host>, start: Time, end: Time)
    requires DistinctNames(hosts) && start <= end
    ensures var rows := FullBooking(hosts, start, end);
            && Disjoint(rows) && Ordered(rows)
            && forall r :: r in rows ==> r.start == start && r.end == end && exists h :: h in hosts && h.name == r.host
  {
    if hosts != [] {
      FullBookingIsDisjoint(hosts[1..], start, end);
      var rest := FullBooking(hosts[1..], start, end);
      assert hosts[0] in hosts && forall h :: h in hosts[1..] ==> h in hosts;
      assert forall j :: 0 <= j < |rest| ==> rest[j] in rest && rest[j].host != hosts[0].name;
    }
  }

  lemma {:induction false} FullBookingTime(hosts: seq<Host>, names: set<HostName>, start: Time, end: Time)
    requires start <= end && UsableNames(hosts) <= names
    ensures ReservedTime(FullBooking(hosts, start, end), names, start, end) == |UsableHosts(hosts)| * (end - start)
  {
    if hosts != [] {
      NamesOfFirstAndRest(hosts);
      FullBookingTime(hosts[1..], names, start, end);
      var usable, rest := |UsableHosts(hosts)|, |UsableHosts(hosts[1..])|;
      if hosts[0].Usable() {
        OneMoreWindow(rest, usable, end - start);
      }
    }
  }

  /** The full booking is a store without double booking, and is reported as the full percentage. */
  lemma FullIsReached(hosts: seq<Host>, start: Time, end: Time)
    requires DistinctNames(hosts) && start <= end
    ensures var rows := FullBooking(hosts, start, end);
            && Disjoint(rows) && Ordered(rows)
            && Percentage(UtilizationStats(hosts, rows, start, end))
               == FullPercentage(|UsableHosts(hosts)|, end - start)
  {
    FullBookingIsDisjoint(hosts, start, end);
    FullBookingTime(hosts, UsableNames(hosts), start, end);
    if UsableHosts(hosts) != [] {
      var days := UtilizationStats(hosts, [], start, end).days;
      ProductPositive(days, |UsableHosts(hosts)|);
    }
  }

  /**
   The exact condition: a window is never reported above 100 percent, whatever the store without double booking,
   if and only if the full booking of it is not.
   */
  lemma NeverAboveHundredExactlyWhen(hosts: seq<Host>, start: Time, end: Time)
    requires DistinctNames(hosts) && start <= end
    ensures (forall rows :: Disjoint(rows) && Ordered(rows)
                            ==> Percentage(UtilizationStats(hosts, rows, start, end)) <= 100)
            <==> FullPercentage(|UsableHosts(hosts)|, end - start) <= 100
  {
    FullIsReached(hosts, start, end);
    forall rows | Disjoint(rows) && Ordered(rows)
      ensures Percentage(UtilizationStats(hosts, rows, start, end)) <= FullPercentage(|UsableHosts(hosts)|, end - start)
    {
      FullIsLargest(hosts, rows, start, end);
    }
  }

  /** Two hosts, each reserved for a day and a half, are reported as 150 percent of that day and a half. */
  lemma DayAndAHalfOverflows()
    ensures var hosts := [Host(1, "", false, false, false, 0, 0), Host(2, "", false, false, false, 0, 0)];
            var rows := [Reservation(0, 1, 0, 0, 3 * DAY / 2), Reservation(1, 2, 1, 0, 3 * DAY / 2)];
            && Disjoint(rows) && Ordered(rows)
            && Percentage(UtilizationStats(hosts, rows, 0, 3 * DAY / 2)) == 150
  {
    var hosts := [Host(1, "", false, false, false, 0, 0), Host(2, "", false, false, false, 0, 0)];
    var rows := [Reservation(0, 1, 0, 0, 3 * DAY / 2), Reservation(1, 2, 1, 0, 3 * DAY / 2)];
    assert hosts[0] in hosts && hosts[0].Usable() && hosts[1] in hosts && hosts[1].Usable();
    assert {1, 2} <= UsableNames(hosts);
    assert hosts[1..] == [hosts[1]] && hosts[1..][1..] == [];
    assert |UsableHosts(hosts[1..])| == 1 && |UsableHosts(hosts)| == 2;
    assert rows[1..] == [rows[1]] && rows[1..][1..] == [];
    assert ReservedTime(rows[1..], UsableNames(hosts), 0, 3 * DAY / 2) == 3 * DAY / 2;
    assert ReservedTime(rows, UsableNames(hosts), 0, 3 * DAY / 2) == 3 * DAY;
  }

  /** Only the allocator's invariant gives the bound: one host booked twice for a day is reported as 200 percent. */
  lemma DoubleBookingOverflows()
    ensures var hosts := [Host(1, "", false, false, false, 0, 0)];
            var rows := [Reservation(0, 1, 0, 0, DAY), Reservation(1, 1, 0, 0, DAY)];
            Percentage(UtilizationStats(hosts, rows, 0, DAY)) == 200
  {
    var hosts := [Host(1, "", false, false, false, 0, 0)];
    var rows := [Reservation(0, 1, 0, 0, DAY), Reservation(1, 1, 0, 0, DAY)];
    assert UsableNames(hosts) == {1} by {
      assert hosts[0].Usable();
    }
    assert rows[1..] == [rows[1]] && rows[1..][1..] == [];
    assert ReservedTime(rows[1..][1..], {1}, 0, DAY) == 0;
    assert ReservedTime(rows[1..], {1}, 0, DAY) == DAY;
    assert ReservedTime(rows, {1}, 0, DAY) == 2 * DAY;
    assert hosts[1..] == [];
    assert |UsableHosts(hosts)| == 1;
  }
}
