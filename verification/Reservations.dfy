/**
 The reservation store: hosts, assignments and reservations as committed tables, the availability
 check, and what it means that no host is promised twice.

 Time is an integer count of microseconds, a reservation is the half-open interval [start, end).
 A host or cloud name is represented by its rank in name order, so that "in name order" is "<".
 An assignment's identifier is its position in the assignment table.
 */
module Reservations {
  import opened Wrappers

  type Time = int
  type HostName = nat
  type CloudName = nat
  type AssignmentId = nat

  const MINUTE: Time := 60_000_000
  const DAY: Time := 86_400_000_000

  /** Times are sent with minutes as the smallest unit. */
  function FloorMinute(t: Time): Time {
    t - t % MINUTE
  }

  datatype Host = Host(
    name: HostName,
    model: string,
    broken: bool,
    retired: bool,
    canSelfSchedule: bool,
    cloud: CloudName,
    defaultCloud: CloudName)
  {
    predicate Usable() {
      !broken && !retired
    }
  }

  datatype Assignment = Assignment(cloud: CloudName, owner: string, active: bool, selfSchedule: bool)

  datatype Reservation = Reservation(id: nat, host: HostName, assignment: AssignmentId, start: Time, end: Time)

  predicate Covers(r: Reservation, t: Time) {
    r.start <= t < r.end
  }

  /** Two reservations share an instant. */
  predicate Overlap(r: Reservation, s: Reservation) {
    r.start < s.end && s.start < r.end && r.start < r.end && s.start < s.end
  }

  /** The allocator's invariant: no host is promised to two reservations at one instant. */
  predicate Disjoint(rows: seq<Reservation>) {
    forall i, j :: 0 <= i < j < |rows| && rows[i].host == rows[j].host ==> !Overlap(rows[i], rows[j])
  }

  /** Every row ends no earlier than it starts. Creation makes start < end; terminating may leave start == end. */
  predicate Ordered(rows: seq<Reservation>) {
    forall i :: 0 <= i < |rows| ==> rows[i].start <= rows[i].end
  }

  /** The row fetched for a host name: the first with that name, if any. */
  function FindHost(hosts: seq<Host>, name: HostName): (r: Option<Host>)
    ensures r.Some? ==> r.value in hosts && r.value.name == name
    ensures r.None? <==> forall h :: h in hosts ==> h.name != name
  {
    if hosts == [] then None
    else if hosts[0].name == name then Some(hosts[0])
    else FindHost(hosts[1..], name)
  }

  predicate DistinctNames(hosts: seq<Host>) {
    forall i, j :: 0 <= i < j < |hosts| ==> hosts[i].name != hosts[j].name
  }

  lemma {:induction false} FindsItself(hosts: seq<Host>, h: Host)
    requires DistinctNames(hosts) && h in hosts
    ensures FindHost(hosts, h.name) == Some(h)
  {
    if hosts[0] != h {
      assert h in hosts[1..];
      FindsItself(hosts[1..], h);
    }
  }

  /** Reservations of broken or retired hosts are not shown to clients. */
  predicate ShownToClients(hosts: seq<Host>, name: HostName) {
    FindHost(hosts, name).None? || FindHost(hosts, name).value.Usable()
  }

  /** The hosts neither broken nor retired. */
  function UsableHosts(hosts: seq<Host>): seq<Host> {
    Filter(hosts, (h: Host) => h.Usable())
  }

  // ---------------------------------------------------------------- availability

  /** One row's verdict in the availability loop: the point query, or any of the three interval tests. */
  predicate Blocks(r: Reservation, start: Time, end: Time) {
    if start == end then r.start <= start < r.end
    else
      || r.start <= start < r.end
      || r.start < end <= r.end
      || (start < r.start && end > r.end)
  }

  /** The rows the availability loop reads: those of the host, without the excluded one. */
  function RowsOf(rows: seq<Reservation>, name: HostName, exclude: Option<nat>): seq<Reservation> {
    Filter(rows, (r: Reservation) => r.host == name && exclude != Some(r.id))
  }

  predicate Available(hosts: seq<Host>, rows: seq<Reservation>, name: HostName, start: Time, end: Time,
                      exclude: Option<nat> := None)
  {
    && FindHost(hosts, name).Some?
    && FindHost(hosts, name).value.Usable()
    && forall r :: r in rows && r.host == name && exclude != Some(r.id) ==> !Blocks(r, start, end)
  }

  method IsHostAvailable(hosts: seq<Host>, rows: seq<Reservation>, name: HostName, start: Time, end: Time,
                         exclude: Option<nat>)
    returns (ok: bool)
    ensures ok <==> Available(hosts, rows, name, start, end, exclude)
  {
    var host := FindHost(hosts, name);
    if host.None? {
      return false;
    }
    if host.value.broken || host.value.retired {
      return false;
    }
    var results := RowsOf(rows, name, exclude);
    var i := 0;
    if start == end {
      while i < |results|
        invariant 0 <= i <= |results|
        invariant forall k :: 0 <= k < i ==> !Blocks(results[k], start, end)
      {
        if results[i].start <= start < results[i].end {
          assert results[i] in results;
          return false;
        }
        i := i + 1;
      }
      return true;
    }
    while i < |results|
      invariant 0 <= i <= |results|
      invariant forall k :: 0 <= k < i ==> !Blocks(results[k], start, end)
    {
      var result := results[i];
      assert result in results;
      if result.start <= start < result.end {
        return false;
      }
      if result.start < end <= result.end {
        return false;
      }
      if start < result.start && end > result.end {
        return false;
      }
      i := i + 1;
    }
    return true;
  }

  /**
   The three-branch test is plain interval arithmetic: a non-empty reservation blocks a window exactly when
   they share an instant (the instant itself for a point query); an empty one only from strictly inside.
   */
  lemma BlocksMeansSharedInstant(r: Reservation, start: Time, end: Time)
    requires start <= end && r.start <= r.end
    ensures start == end ==> (Blocks(r, start, end) <==> Covers(r, start))
    ensures start < end ==> (Blocks(r, start, end) <==> r.start < end && start < r.end)
    ensures start < end && r.start < r.end ==>
              (Blocks(r, start, end) <==> exists t :: start <= t < end && Covers(r, t))
    ensures r.start == r.end ==> (Blocks(r, start, end) <==> start < r.start < end)
  {
    if start < end && r.start < r.end {
      var t := if r.start <= start then start else r.start;
      if Blocks(r, start, end) {
        assert start <= t < end && Covers(r, t);
      }
    }
  }

  /** In a store without double booking each instant has at most one current reservation per host, and conversely. */
  lemma DisjointMeansOneCurrentPerHost(rows: seq<Reservation>)
    ensures Disjoint(rows) <==>
            forall i, j, t :: 0 <= i < j < |rows| && rows[i].host == rows[j].host
                              ==> !(Covers(rows[i], t) && Covers(rows[j], t))
  {
    forall i, j | 0 <= i < j < |rows| && rows[i].host == rows[j].host
      ensures Overlap(rows[i], rows[j]) <==> exists t :: Covers(rows[i], t) && Covers(rows[j], t)
    {
      var t := if rows[i].start <= rows[j].start then rows[j].start else rows[i].start;
      if Overlap(rows[i], rows[j]) {
        assert Covers(rows[i], t) && Covers(rows[j], t);
      }
    }
  }

  /**
   Availability is exactly what the invariant needs: on a usable host whose rows are not empty, a window is
   available if and only if reserving it keeps the store free of double booking.
   */
  lemma AvailableExactlyWhenInsertSafe(hosts: seq<Host>, rows: seq<Reservation>, r: Reservation)
    requires Disjoint(rows) && Ordered(rows) && r.start < r.end
    requires FindHost(hosts, r.host).Some? && FindHost(hosts, r.host).value.Usable()
    ensures Available(hosts, rows, r.host, r.start, r.end) ==> Disjoint(rows + [r])
    ensures (forall x :: x in rows && x.host == r.host ==> x.start < x.end) && Disjoint(rows + [r])
            ==> Available(hosts, rows, r.host, r.start, r.end)
  {
    if Available(hosts, rows, r.host, r.start, r.end) {
      InsertKeepsDisjoint(rows, [r]);
    }
    if (forall x :: x in rows && x.host == r.host ==> x.start < x.end) && Disjoint(rows + [r]) {
      forall x | x in rows && x.host == r.host
        ensures !Blocks(x, r.start, r.end)
      {
        var i :| 0 <= i < |rows| && rows[i] == x;
        assert (rows + [r])[i] == x && (rows + [r])[|rows|] == r;
        BlocksMeansSharedInstant(x, r.start, r.end);
      }
    }
  }

  /** Adding non-empty rows on pairwise different hosts, none of them blocked, keeps the invariant. */
  lemma InsertKeepsDisjoint(rows: seq<Reservation>, added: seq<Reservation>)
    requires Disjoint(rows) && Ordered(rows)
    requires forall k :: 0 <= k < |added| ==> added[k].start < added[k].end
    requires forall i, j :: 0 <= i < j < |added| ==> added[i].host != added[j].host
    requires forall k, r :: 0 <= k < |added| && r in rows && r.host == added[k].host
                            ==> !Blocks(r, added[k].start, added[k].end)
    ensures Disjoint(rows + added) && Ordered(rows + added)
  {
    var all := rows + added;
    forall i, j | 0 <= i < j < |all| && all[i].host == all[j].host
      ensures !Overlap(all[i], all[j])
    {
      if i < |rows| && |rows| <= j {
        var a := added[j - |rows|];
        assert rows[i] in rows && !Blocks(rows[i], a.start, a.end);
        BlocksMeansSharedInstant(rows[i], a.start, a.end);
      }
    }
  }

  // ---------------------------------------------------------------- current reservations

  predicate IsActive(assignments: seq<Assignment>, r: Reservation) {
    r.assignment < |assignments| && assignments[r.assignment].active
  }

  /** The test of the current-reservation query for a host: active assignment, start <= t < end. */
  function HostTest(assignments: seq<Assignment>, host: HostName, t: Time): Reservation -> bool {
    (r: Reservation) => r.host == host && Covers(r, t) && IsActive(assignments, r)
  }

  /** The test of the current-reservation query for a cloud: its assignment is active and on that cloud. */
  function CloudTest(assignments: seq<Assignment>, cloud: CloudName, t: Time): Reservation -> bool {
    (r: Reservation) => Covers(r, t) && IsActive(assignments, r) && assignments[r.assignment].cloud == cloud
  }

  function CurrentOfHost(rows: seq<Reservation>, assignments: seq<Assignment>, host: HostName, t: Time)
    : seq<Reservation>
  {
    Filter(rows, HostTest(assignments, host, t))
  }

  function CurrentOfCloud(rows: seq<Reservation>, assignments: seq<Assignment>, cloud: CloudName, t: Time)
    : seq<Reservation>
  {
    Filter(rows, CloudTest(assignments, cloud, t))
  }

  /** A filter over rows that pairwise cannot both pass keeps at most one. */
  lemma {:induction false} FilterAtMostOne(rows: seq<Reservation>, keep: Reservation -> bool)
    requires forall i, j :: 0 <= i < j < |rows| ==> !(keep(rows[i]) && keep(rows[j]))
    ensures |Filter(rows, keep)| <= 1
  {
    if rows != [] {
      if keep(rows[0]) {
        forall x | x in rows[1..]
          ensures !keep(x)
        {
          var j :| 0 <= j < |rows[1..]| && rows[1..][j] == x;
          assert rows[j + 1] == x;
        }
        FilterNone(rows[1..], keep);
      } else {
        FilterAtMostOne(rows[1..], keep);
      }
    }
  }

  /** So "the first current schedule of the host" never depends on the order rows come back in. */
  lemma CurrentOfHostIsUnique(rows: seq<Reservation>, assignments: seq<Assignment>, host: HostName, t: Time)
    requires Disjoint(rows)
    ensures |CurrentOfHost(rows, assignments, host, t)| <= 1
  {
    DisjointMeansOneCurrentPerHost(rows);
    FilterAtMostOne(rows, HostTest(assignments, host, t));
  }

  /** The active assignment looked up for a cloud: the first row, if any. */
  function ActiveOf(assignments: seq<Assignment>, cloud: CloudName): (r: Option<AssignmentId>)
    ensures r.Some? ==> r.value < |assignments| && assignments[r.value].cloud == cloud && assignments[r.value].active
    ensures r.None? <==>
      forall i :: 0 <= i < |assignments| ==> !(assignments[i].cloud == cloud && assignments[i].active)
  {
    FirstActive(assignments, cloud, 0)
  }

  function FirstActive(assignments: seq<Assignment>, cloud: CloudName, from: nat): (r: Option<AssignmentId>)
    requires from <= |assignments|
    ensures r.Some? ==>
      from <= r.value < |assignments| && assignments[r.value].cloud == cloud && assignments[r.value].active
    ensures r.None? <==>
      forall i :: from <= i < |assignments| ==> !(assignments[i].cloud == cloud && assignments[i].active)
    decreases |assignments| - from
  {
    if from == |assignments| then None
    else if assignments[from].cloud == cloud && assignments[from].active then Some(from)
    else FirstActive(assignments, cloud, from + 1)
  }

  /** At most one active assignment per cloud. */
  predicate OneActivePerCloud(assignments: seq<Assignment>) {
    forall i, j :: 0 <= i < j < |assignments| && assignments[i].active && assignments[j].active
      ==> assignments[i].cloud != assignments[j].cloud
  }
}
