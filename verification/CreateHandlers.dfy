/**
 The two create requests as handlers that run without interruption, proved against a description of what each
 request is granted and refused for.
 */
module CreateHandlers {
  import opened Wrappers
  import opened Reservations
  import Assignments
  import SelfSchedule
  import opened CreateProtocol

  // ---------------------------------------------------------------- what a request is granted

  datatype Window = Window(start: Time, end: Time)

  /** The window asked for; "lag" is the time between the two readings of the clock. */
  function DatesWindow(dates: Dates, now: Time, lag: nat): Option<Window> {
    if !dates.Given? then None
    else
      var start, end := dates.start.Resolve(now), dates.end.Resolve(now + lag);
      if start < end then Some(Window(start, end)) else None
  }

  /** A single request's window: by the deadline rule in a self-scheduled cloud, else as asked. */
  function SingleWindow(config: Config, db: Db, req: Request, assignment: Assignment, now: Time, lag: nat)
    : Option<Window>
    requires req.Single?
  {
    if assignment.selfSchedule then
      var host, end := FindHost(db.hosts, req.host), SelfSchedule.SelfScheduleEnd(now, config.rule);
      if host.None? || !host.value.canSelfSchedule || end.None? then None else Some(Window(now, end.value))
    else DatesWindow(req.dates, now, lag)
  }

  predicate AllFree(db: Db, hosts: seq<HostName>, window: Window) {
    forall k :: 0 <= k < |hosts| ==> db.Free(hosts[k], window.start, window.end)
  }

  /** A single request may use the cloud's active assignment. */
  predicate MayUse(config: Config, db: Db, req: Request, assignment: Assignment, now: Time)
    requires req.Single?
  {
    if assignment.selfSchedule then CurrentCount(db, req.cloud, now) < config.hostLimit else req.admin
  }

  /** The tables after a single request, or None when it is refused. */
  function SingleResult(config: Config, db: Db, req: Request, now: Time, lag: nat): Option<Db>
    requires req.Single?
  {
    var existing := ActiveOf(db.assignments, req.cloud);
    if req.cloud !in db.clouds || !db.Knows(req.host) || existing.None? then None
    else
      var assignment := db.assignments[existing.value];
      var window := SingleWindow(config, db, req, assignment, now, lag);
      if MayUse(config, db, req, assignment, now) && window.Some? && AllFree(db, [req.host], window.value)
      then Some(Booked(db, req, existing, window.value.start, window.value.end))
      else None
  }

  /** The tables after a batch request, or None when it is refused. */
  function BatchResult(db: Db, req: Request, now: Time, lag: nat): Option<Db>
    requires req.Batch?
  {
    var existing, window := ActiveOf(db.assignments, req.cloud), DatesWindow(req.dates, now, lag);
    if req.hostnames != [] && req.cloud in db.clouds && window.Some? && req.newAssignment == existing.None?
       && AllFree(db, req.hostnames, window.value)
    then Some(Booked(db, req, existing, window.value.start, window.value.end))
    else None
  }

  function RequestResult(config: Config, db: Db, req: Request, now: Time, lag: nat): Option<Db> {
    if req.Single? then SingleResult(config, db, req, now, lag) else BatchResult(db, req, now, lag)
  }

  /** Whatever is granted keeps the store free of double booking, if no host is named twice. */
  lemma ResultKeepsDisjoint(config: Config, db: Db, req: Request, now: Time, lag: nat)
    requires Disjoint(db.rows) && Ordered(db.rows) && Distinct(req.Hosts())
    requires RequestResult(config, db, req, now, lag).Some?
    ensures var rows := RequestResult(config, db, req, now, lag).value.rows;
            Disjoint(rows) && Ordered(rows) && |rows| == |db.rows| + |req.Hosts()|
  {
    var rows := RequestResult(config, db, req, now, lag).value.rows;
    var added := rows[|db.rows|..];
    assert rows == db.rows + added;
    InsertKeepsDisjoint(db.rows, added);
  }

  /** A granted batch keeps the store free of double booking if and only if it names no host twice. */
  lemma BatchSafeExactlyWhenHostsDistinct(config: Config, db: Db, req: Request, now: Time, lag: nat)
    requires Disjoint(db.rows) && Ordered(db.rows) && req.Batch? && BatchResult(db, req, now, lag).Some?
    ensures Disjoint(BatchResult(db, req, now, lag).value.rows) <==> Distinct(req.hostnames)
  {
    var rows, n, hosts := BatchResult(db, req, now, lag).value.rows, |db.rows|, req.hostnames;
    if Distinct(hosts) {
      ResultKeepsDisjoint(config, db, req, now, lag);
    } else {
      var i, j :| 0 <= i < j < |hosts| && hosts[i] == hosts[j];
      assert rows[n + i].host == rows[n + j].host && Overlap(rows[n + i], rows[n + j]);
    }
  }

  /** To the assignment table a granted batch is its batch create, its hosts being free as checked. */
  lemma BatchIsAnOperation(site: Assignments.Site, db: Db, req: Request, now: Time, lag: nat)
    requires req.Batch? && (forall c :: c in site.clouds <==> c in db.clouds)
    ensures var window := DatesWindow(req.dates, now, lag);
            var hostsFree := req.hostnames != [] && window.Some? && AllFree(db, req.hostnames, window.value);
            var op := Assignments.BatchCreate(req.cloud, "", req.newAssignment, hostsFree);
            Assignments.After(site, db.assignments, op)
            == match BatchResult(db, req, now, lag) case Some(db') => db'.assignments case None => db.assignments
  {
  }

  /** A request for one free host, named twice, is granted and books it twice for the same day. */
  lemma RepeatedHostIsDoubleBooked()
    ensures var db := Db([Host(1, "", false, false, false, 0, 0)], {2}, [Assignment(2, "", true, false)], []);
            var req := Batch(2, [1, 1], Given(At(0), At(DAY)), false);
            && BatchResult(db, req, 0, 0).Some?
            && !Disjoint(BatchResult(db, req, 0, 0).value.rows)
  {
    var db := Db([Host(1, "", false, false, false, 0, 0)], {2}, [Assignment(2, "", true, false)], []);
    var req := Batch(2, [1, 1], Given(At(0), At(DAY)), false);
    assert FindHost(db.hosts, 1) == Some(db.hosts[0]);
    assert req.hostnames[0] == req.hostnames[1];
    BatchSafeExactlyWhenHostsDistinct(Config(0, SelfSchedule.DeadlineRule(0, 0, 1)), db, req, 0, 0);
  }

  /** Whatever is granted cannot be granted again: its hosts are taken, or its cloud has an assignment. */
  lemma GrantedOnlyOnce(config: Config, db: Db, req: Request, now: Time, lag: nat)
    requires RequestResult(config, db, req, now, lag).Some?
    ensures RequestResult(config, RequestResult(config, db, req, now, lag).value, req, now, lag).None?
  {
    var db' := RequestResult(config, db, req, now, lag).value;
    if req.Batch? && req.newAssignment {
      assert db'.assignments[|db.assignments|].cloud == req.cloud && db'.assignments[|db.assignments|].active;
    } else {
      var existing := ActiveOf(db.assignments, req.cloud).value;
      var window := if req.Single? then SingleWindow(config, db, req, db.assignments[existing], now, lag).value
                    else DatesWindow(req.dates, now, lag).value;
      var taken := db'.rows[|db.rows|];
      assert taken in db'.rows && taken.host == req.Hosts()[0];
      assert Blocks(taken, window.start, window.end);
      assert !db'.Free(req.Hosts()[0], window.start, window.end);
    }
  }

  // ---------------------------------------------------------------- the handlers

  class Scheduler {
    const config: Config
    var db: Db

    constructor (config: Config, db: Db)
      ensures this.config == config && this.db == db
    {
      this.config, this.db := config, db;
    }

    method CreateSchedule(req: Request, now: Time, lag: nat) returns (ok: bool)
      requires req.Single?
      modifies this`db
      ensures ok <==> SingleResult(config, old(db), req, now, lag).Some?
      ensures db == if ok then SingleResult(config, old(db), req, now, lag).value else old(db)
      ensures Disjoint(old(db).rows) && Ordered(old(db).rows) ==> Disjoint(db.rows) && Ordered(db.rows)
    {
      var host := FindHost(db.hosts, req.host);
      if req.cloud !in db.clouds || host.None? {
        return false;
      }
      var existing := ActiveOf(db.assignments, req.cloud);
      if existing.None? {
        return false;
      }
      var selfSchedule := db.assignments[existing.value].selfSchedule;
      if !selfSchedule && !req.admin {
        return false;
      }
      var held := CurrentOfCloud(db.rows, db.assignments, req.cloud, now);
      if selfSchedule && |held| >= config.hostLimit {
        return false;
      }
      var start, end;
      if selfSchedule {
        if !host.value.canSelfSchedule {
          return false;
        }
        var deadline := SelfSchedule.SelfScheduleEnd(now, config.rule);
        if deadline.None? {
          return false;
        }
        start, end := now, deadline.value;
      } else {
        if !req.dates.Given? {
          return false;
        }
        start, end := req.dates.start.Resolve(now), req.dates.end.Resolve(now + lag);
      }
      if start >= end {
        return false;
      }
      ghost var window := Window(start, end);
      assert SingleWindow(config, db, req, db.assignments[existing.value], now, lag) == Some(window);
      assert AllFree(db, [req.host], window) ==> db.Free([req.host][0], start, end);
      var available := IsHostAvailable(db.hosts, db.rows, req.host, start, end, None);
      if !available {
        return false;
      }
      if Disjoint(db.rows) && Ordered(db.rows) {
        ResultKeepsDisjoint(config, db, req, now, lag);
      }
      var row := Reservation(|db.rows|, req.host, existing.value, start, end);
      assert NewRows(db, req.Hosts(), existing.value, start, end) == [row];
      db := db.(rows := db.rows + [row]);
      return true;
    }

    /** The availability check over all hosts of a batch, collecting those that are not available. */
    method Unavailable(hostnames: seq<HostName>, start: Time, end: Time) returns (unavailableHosts: seq<HostName>)
      ensures unavailableHosts == [] <==> AllFree(db, hostnames, Window(start, end))
      ensures forall h :: h in unavailableHosts <==> h in hostnames && !db.Free(h, start, end)
    {
      unavailableHosts := [];
      var k := 0;
      while k < |hostnames|
        invariant 0 <= k <= |hostnames|
        invariant unavailableHosts == [] <==> AllFree(db, hostnames[..k], Window(start, end))
        invariant forall h :: h in unavailableHosts <==> h in hostnames[..k] && !db.Free(h, start, end)
      {
        assert hostnames[..k + 1] == hostnames[..k] + [hostnames[k]];
        var available := IsHostAvailable(db.hosts, db.rows, hostnames[k], start, end, None);
        if !available {
          unavailableHosts := unavailableHosts + [hostnames[k]];
        }
        k := k + 1;
      }
      assert hostnames[..k] == hostnames;
    }

    method CreateSchedulesBatch(req: Request, now: Time, lag: nat) returns (ok: bool)
      requires req.Batch?
      modifies this`db
      ensures ok <==> BatchResult(old(db), req, now, lag).Some?
      ensures db == if ok then BatchResult(old(db), req, now, lag).value else old(db)
      ensures Disjoint(old(db).rows) && Ordered(old(db).rows) && Distinct(req.hostnames)
              ==> Disjoint(db.rows) && Ordered(db.rows)
    {
      if req.hostnames == [] || !req.dates.Given? || req.cloud !in db.clouds {
        return false;
      }
      var start, end := req.dates.start.Resolve(now), req.dates.end.Resolve(now + lag);
      if start >= end {
        return false;
      }
      var existing := ActiveOf(db.assignments, req.cloud);
      if req.newAssignment == existing.Some? {
        return false;
      }
      var unavailableHosts := Unavailable(req.hostnames, start, end);
      if unavailableHosts != [] {
        return false;
      }
      assert DatesWindow(req.dates, now, lag) == Some(Window(start, end));
      if Disjoint(db.rows) && Ordered(db.rows) && Distinct(req.hostnames) {
        ResultKeepsDisjoint(config, db, req, now, lag);
      }
      var assignment := if req.newAssignment then |db.assignments| else existing.value;
      var inserted: seq<Reservation> := [];
      var k := 0;
      while k < |req.hostnames|
        invariant 0 <= k <= |req.hostnames|
        invariant inserted == NewRows(db, req.hostnames, assignment, start, end)[..k]
      {
        inserted := inserted + [Reservation(|db.rows| + k, req.hostnames[k], assignment, start, end)];
        k := k + 1;
      }
      if req.newAssignment {
        db := db.(assignments := db.assignments + [Assignment(req.cloud, "", true, false)]);
      }
      db := db.(rows := db.rows + inserted);
      return true;
    }
  }
}
