/**
 The utilization figure of the availability report: the current reservations are counted once a day over a period
 and set against the number of usable hosts. Each count is a request of its own, for which the server reads the
 clock: before the current minute it counts ended assignments' reservations too.
 */
module AvailableReport {
  import opened Wrappers
  import opened Reservations
  import Utilization

  /** The tables the report reads. */
  datatype Tables = Tables(hosts: seq<Host>, rows: seq<Reservation>, assignments: seq<Assignment>) {
    predicate HostsKnown() {
      forall r :: r in rows ==> FindHost(hosts, r.host).Some?
    }

    /** A past instant is answered from all reservations, the current minute and later ones from active ones. */
    predicate Counted(t: Time, now: Time, r: Reservation) {
      Covers(r, t) && (t < FloorMinute(now) || IsActive(assignments, r)) && ShownToClients(hosts, r.host)
    }

    function CountedTest(t: Time, now: Time): Reservation -> bool {
      (r: Reservation) => Counted(t, now, r)
    }

    /** How many current reservations a client is shown for a date, sent by the minute, when it is asked for now. */
    function Count(date: Time, now: Time): nat {
      |Filter(rows, CountedTest(FloorMinute(date), now))|
    }
  }

  // ---------------------------------------------------------------- the report's loop

  function SampledDays(start: Time, end: Time): nat
    decreases end - start
  {
    if start >= end then 0 else 1 + SampledDays(start + DAY, end)
  }

  /** The counts of the days from the n-th on, "clock" being the server's reading for each. */
  function SampledTotal(tables: Tables, start: Time, end: Time, clock: nat -> Time, n: nat): nat
    decreases end - start
  {
    if start >= end then 0
    else tables.Count(start, clock(n)) + SampledTotal(tables, start + DAY, end, clock, n + 1)
  }

  /** None when the division by hosts times days is one by zero. */
  method ReportAvailable(tables: Tables, start: Time, end: Time, clock: nat -> Time) returns (utilized: Option<int>)
    ensures utilized.None? <==> UsableHosts(tables.hosts) == [] || end <= start
    ensures utilized.Some? ==>
              var divisor := |UsableHosts(tables.hosts)| * SampledDays(start, end);
              divisor != 0 && utilized.value == SampledTotal(tables, start, end, clock, 0) * 100 / divisor
    ensures utilized.Some? && Disjoint(tables.rows) && tables.HostsKnown() ==> 0 <= utilized.value <= 100
  {
    var totalHosts := |UsableHosts(tables.hosts)|;
    var days, counted := 0, 0;
    var date := start;
    while date < end
      invariant days + SampledDays(date, end) == SampledDays(start, end)
      invariant counted + SampledTotal(tables, date, end, clock, days) == SampledTotal(tables, start, end, clock, 0)
      decreases end - date
    {
      counted := counted + tables.Count(date, clock(days));
      days := days + 1;
      date := date + DAY;
    }
    ProductIsZero(totalHosts, days);
    if Disjoint(tables.rows) && tables.HostsKnown() && totalHosts * days != 0 {
      SampledUtilizationIsBounded(tables, start, end, clock);
    }
    return if totalHosts * days == 0 then None else Some(counted * 100 / (totalHosts * days));
  }

  lemma ProductIsZero(a: nat, b: nat)
    ensures a * b == 0 <==> a == 0 || b == 0
  {
    if 0 < a && 0 < b {
      Utilization.MulMonotone(1, a, b);
    }
  }

  // ---------------------------------------------------------------- its bound

  /** Rows that pass a test on pairwise different hosts are no more than the hosts. */
  lemma {:induction false} OneRowPerName(rows: seq<Reservation>, keep: Reservation -> bool, names: set<HostName>)
    requires forall i, j :: 0 <= i < j < |rows| && keep(rows[i]) && keep(rows[j]) ==> rows[i].host != rows[j].host
    requires forall i :: 0 <= i < |rows| && keep(rows[i]) ==> rows[i].host in names
    ensures |Filter(rows, keep)| <= |names|
  {
    if rows != [] {
      if keep(rows[0]) {
        OneRowPerName(rows[1..], keep, names - {rows[0].host});
      } else {
        OneRowPerName(rows[1..], keep, names);
      }
    }
  }

  /** For no date and at no time are more reservations shown as current than there are usable hosts. */
  lemma CountIsBounded(tables: Tables, date: Time, now: Time)
    requires Disjoint(tables.rows) && tables.HostsKnown()
    ensures tables.Count(date, now) <= |UsableHosts(tables.hosts)|
  {
    var rows, keep := tables.rows, tables.CountedTest(FloorMinute(date), now);
    DisjointMeansOneCurrentPerHost(rows);
    forall i | 0 <= i < |rows| && keep(rows[i])
      ensures rows[i].host in Utilization.UsableNames(tables.hosts)
    {
      assert rows[i] in rows;
    }
    OneRowPerName(rows, keep, Utilization.UsableNames(tables.hosts));
    Utilization.AtMostOneNameEach(tables.hosts);
  }

  /**
   A past date's count is of all shown reservations that cover it; from the current minute on only those of active
   assignments count. So once its minute is over, a date is never counted for less than before.
   */
  lemma CountOfPastAndPresent(tables: Tables, date: Time, now: Time)
    ensures var t := FloorMinute(date);
            var all := |Filter(tables.rows, (r: Reservation) => Covers(r, t) && ShownToClients(tables.hosts, r.host))|;
            var active := |Filter(tables.rows, (r: Reservation) =>
                            Covers(r, t) && ShownToClients(tables.hosts, r.host) && IsActive(tables.assignments, r))|;
            && tables.Count(date, now) == (if t < FloorMinute(now) then all else active)
            && active <= all
  {
    var rows, t := tables.rows, FloorMinute(date);
    var all := (r: Reservation) => Covers(r, t) && ShownToClients(tables.hosts, r.host);
    var active := (r: Reservation) =>
      Covers(r, t) && ShownToClients(tables.hosts, r.host) && IsActive(tables.assignments, r);
    FilterSame(rows, tables.CountedTest(t, now), if t < FloorMinute(now) then all else active);
    FilterFewer(rows, all, rows, active);
  }

  lemma {:induction false} TotalIsBounded(tables: Tables, start: Time, end: Time, clock: nat -> Time, n: nat)
    requires Disjoint(tables.rows) && tables.HostsKnown()
    ensures SampledTotal(tables, start, end, clock, n) <= SampledDays(start, end) * |UsableHosts(tables.hosts)|
    decreases end - start
  {
    var days, rest, hosts := SampledDays(start, end), SampledDays(start + DAY, end), |UsableHosts(tables.hosts)|;
    if start < end {
      CountIsBounded(tables, start, clock(n));
      TotalIsBounded(tables, start + DAY, end, clock, n + 1);
      Utilization.OneMoreWindow(rest, days, hosts);
    }
  }

  /** Without double booking the printed utilization is at most 100 percent, for every period, past or to come. */
  lemma SampledUtilizationIsBounded(tables: Tables, start: Time, end: Time, clock: nat -> Time)
    requires Disjoint(tables.rows) && tables.HostsKnown()
    requires UsableHosts(tables.hosts) != [] && start < end
    ensures var hosts, days := |UsableHosts(tables.hosts)|, SampledDays(start, end);
            hosts * days != 0 && 0 <= SampledTotal(tables, start, end, clock, 0) * 100 / (hosts * days) <= 100
  {
    var hosts, days := |UsableHosts(tables.hosts)|, SampledDays(start, end);
    TotalIsBounded(tables, start, end, clock, 0);
    ProductIsZero(hosts, days);
    assert hosts * days == days * hosts;
    Utilization.PercentageBound(SampledTotal(tables, start, end, clock, 0), days, hosts);
  }

  /** A period is sampled once for every day it begins. */
  lemma {:induction false} DaysOfPeriod(start: Time, end: Time)
    requires start <= end
    ensures (SampledDays(start, end) - 1) * DAY < end - start <= SampledDays(start, end) * DAY
    decreases end - start
  {
    if start < end {
      if start + DAY <= end {
        DaysOfPeriod(start + DAY, end);
      } else {
        assert SampledDays(start + DAY, end) == 0;
      }
    }
  }
}
