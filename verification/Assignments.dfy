/**
 The assignment table under its five writers, run one after the other: admin create, self create, batch create,
 terminate, and the deactivation at the end of a move wave. Each keeps at most one active assignment per cloud.
 */
module Assignments {
  import opened Wrappers
  import opened Reservations

  /** Known clouds in name order, the spare pool, and how many clouds one user may hold by self-scheduling. */
  datatype Site = Site(clouds: seq<CloudName>, spare: CloudName, userLimit: int)

  datatype Op =
    | AdminCreate(cloud: CloudName, owner: string, selfSchedule: bool)
    | SelfCreate(wanted: Option<CloudName>, owner: string)
    | BatchCreate(cloud: CloudName, owner: string, newAssignment: bool, hostsFree: bool)
    | Terminate(id: AssignmentId)
    | DeactivateOld(cloud: CloudName, occupied: bool)

  function FreeClouds(site: Site, rows: seq<Assignment>): seq<CloudName> {
    Filter(site.clouds, (c: CloudName) => c != site.spare && ActiveOf(rows, c).None?)
  }

  function ActiveSelf(owner: string): Assignment -> bool {
    (a: Assignment) => a.active && a.selfSchedule && a.owner == owner
  }

  /** The row an operation adds, if it is accepted. */
  function Added(site: Site, rows: seq<Assignment>, op: Op): Option<Assignment> {
    match op
    case AdminCreate(cloud, owner, selfSchedule) =>
      if cloud in site.clouds && ActiveOf(rows, cloud).None? then Some(Assignment(cloud, owner, true, selfSchedule))
      else None
    case SelfCreate(wanted, owner) =>
      if |Filter(rows, ActiveSelf(owner))| >= site.userLimit then None
      else if wanted.Some? then
        if wanted.value != site.spare && wanted.value in site.clouds && ActiveOf(rows, wanted.value).None?
        then Some(Assignment(wanted.value, owner, true, true))
        else None
      else
        var free := FreeClouds(site, rows);
        if free == [] then None else Some(Assignment(free[0], owner, true, true))
    case BatchCreate(cloud, owner, newAssignment, hostsFree) =>
      if newAssignment && hostsFree && cloud in site.clouds && ActiveOf(rows, cloud).None?
      then Some(Assignment(cloud, owner, true, false))
      else None
    case _ => None
  }

  /** The row an operation ends, if any. */
  function Ended(rows: seq<Assignment>, op: Op): Option<AssignmentId> {
    match op
    case Terminate(id) => if id < |rows| then Some(id) else None
    case DeactivateOld(cloud, occupied) => if occupied then None else ActiveOf(rows, cloud)
    case _ => None
  }

  function After(site: Site, rows: seq<Assignment>, op: Op): seq<Assignment>
  {
    var ended := Ended(rows, op);
    var added := Added(site, rows, op);
    if added.Some? then rows + [added.value]
    else if ended.Some? && ended.value < |rows| then rows[ended.value := rows[ended.value].(active := false)]
    else rows
  }

  lemma OperationKeepsOneActive(site: Site, rows: seq<Assignment>, op: Op)
    ensures OneActivePerCloud(rows) ==> OneActivePerCloud(After(site, rows, op))
  {
    if op.SelfCreate? && op.wanted.None? {
      var free := FreeClouds(site, rows);
      assert free != [] ==> free[0] in free;
    }
  }

  class AssignmentTable {
    const site: Site
    var rows: seq<Assignment>

    constructor (site: Site)
      ensures this.site == site && rows == []
    {
      this.site := site;
      rows := [];
    }

    method Insert(cloud: CloudName, owner: string, selfSchedule: bool)
      modifies this`rows
      ensures rows == old(rows) + [Assignment(cloud, owner, true, selfSchedule)]
    {
      rows := rows + [Assignment(cloud, owner, true, selfSchedule)];
    }

    method CreateAssignment(cloud: CloudName, owner: string, selfSchedule: bool) returns (ok: bool)
      modifies this`rows
      ensures rows == After(site, old(rows), AdminCreate(cloud, owner, selfSchedule))
      ensures ok <==> |rows| == |old(rows)| + 1
      ensures OneActivePerCloud(old(rows)) ==> OneActivePerCloud(rows)
    {
      if cloud !in site.clouds || ActiveOf(rows, cloud).Some? {
        return false;
      }
      Insert(cloud, owner, selfSchedule);
      return true;
    }

    method CreateSelfAssignment(wanted: Option<CloudName>, owner: string) returns (ok: bool)
      modifies this`rows
      ensures rows == After(site, old(rows), SelfCreate(wanted, owner))
      ensures ok <==> |rows| == |old(rows)| + 1
      ensures OneActivePerCloud(old(rows)) ==> OneActivePerCloud(rows)
    {
      OperationKeepsOneActive(site, rows, SelfCreate(wanted, owner));
      var held := Filter(rows, ActiveSelf(owner));
      if |held| >= site.userLimit {
        return false;
      }
      var cloud;
      if wanted.Some? {
        if wanted.value == site.spare || wanted.value !in site.clouds || ActiveOf(rows, wanted.value).Some? {
          return false;
        }
        cloud := wanted.value;
      } else {
        var free := FreeClouds(site, rows);
        if free == [] {
          return false;
        }
        cloud := free[0];
      }
      Insert(cloud, owner, true);
      return true;
    }

    /** The assignment part of a batch create; the availability of its hosts is decided elsewhere. */
    method CreateForBatch(cloud: CloudName, owner: string, newAssignment: bool, hostsFree: bool) returns (ok: bool)
      modifies this`rows
      ensures rows == After(site, old(rows), BatchCreate(cloud, owner, newAssignment, hostsFree))
      ensures ok <==> hostsFree && cloud in site.clouds && (newAssignment <==> ActiveOf(old(rows), cloud).None?)
      ensures ok ==> ActiveOf(rows, cloud).Some?
      ensures OneActivePerCloud(old(rows)) ==> OneActivePerCloud(rows)
    {
      OperationKeepsOneActive(site, rows, BatchCreate(cloud, owner, newAssignment, hostsFree));
      if cloud !in site.clouds {
        return false;
      }
      var existing := ActiveOf(rows, cloud);
      if newAssignment == existing.Some? || !hostsFree {
        return false;
      }
      if newAssignment {
        Insert(cloud, owner, false);
        assert rows[|rows| - 1].cloud == cloud && rows[|rows| - 1].active;
      }
      return true;
    }

    method TerminateAssignment(id: AssignmentId) returns (ok: bool)
      modifies this`rows
      ensures rows == After(site, old(rows), Terminate(id))
      ensures ok <==> id < |old(rows)|
      ensures OneActivePerCloud(old(rows)) ==> OneActivePerCloud(rows)
    {
      if id >= |rows| {
        return false;
      }
      rows := rows[id := rows[id].(active := false)];
      return true;
    }

    /** "occupied" says that the cloud is the spare pool or still has a current reservation. */
    method DeactivateOldCloud(cloud: CloudName, occupied: bool)
      modifies this`rows
      ensures rows == After(site, old(rows), DeactivateOld(cloud, occupied))
      ensures OneActivePerCloud(old(rows)) ==>
                OneActivePerCloud(rows) && (!occupied ==> ActiveOf(rows, cloud).None?)
    {
      if !occupied {
        var active := ActiveOf(rows, cloud);
        if active.Some? {
          rows := rows[active.value := rows[active.value].(active := false)];
        }
      }
    }
  }

  // ---------------------------------------------------------------- whole runs

  function RunOps(site: Site, rows: seq<Assignment>, ops: seq<Op>): seq<Assignment>
    decreases |ops|
  {
    if ops == [] then rows else RunOps(site, After(site, rows, ops[0]), ops[1..])
  }

  /** Main result: every sequential run of the five operations keeps at most one active assignment per cloud. */
  lemma {:induction false} RunsKeepOneActive(site: Site, rows: seq<Assignment>, ops: seq<Op>)
    requires OneActivePerCloud(rows)
    ensures OneActivePerCloud(RunOps(site, rows, ops))
    decreases |ops|
  {
    if ops != [] {
      OperationKeepsOneActive(site, rows, ops[0]);
      RunsKeepOneActive(site, After(site, rows, ops[0]), ops[1..]);
    }
  }

  /** Then "the first active assignment of the cloud" is the same row in whatever order the table is read. */
  lemma FirstRowIsUnambiguous(rows: seq<Assignment>, shuffled: seq<Assignment>, cloud: CloudName)
    requires OneActivePerCloud(rows) && multiset(shuffled) == multiset(rows)
    ensures ActiveOf(shuffled, cloud).Some? <==> ActiveOf(rows, cloud).Some?
    ensures ActiveOf(rows, cloud).Some?
            ==> shuffled[ActiveOf(shuffled, cloud).value] == rows[ActiveOf(rows, cloud).value]
  {
    var here, there := ActiveOf(rows, cloud), ActiveOf(shuffled, cloud);
    if there.Some? {
      assert shuffled[there.value] in multiset(rows);
      var i :| 0 <= i < |rows| && rows[i] == shuffled[there.value];
      assert i == here.value;
    }
    if here.Some? {
      assert rows[here.value] in multiset(shuffled);
      var j :| 0 <= j < |shuffled| && shuffled[j] == rows[here.value];
    }
  }

  /** No operation other than an admin's own self-scheduled create takes a user past the limit. */
  lemma {:induction false} RunsKeepUserLimit(site: Site, rows: seq<Assignment>, ops: seq<Op>, owner: string)
    requires |Filter(rows, ActiveSelf(owner))| <= site.userLimit
    requires forall op :: op in ops && op.AdminCreate? && op.owner == owner ==> !op.selfSchedule
    ensures |Filter(RunOps(site, rows, ops), ActiveSelf(owner))| <= site.userLimit
    decreases |ops|
  {
    if ops != [] {
      var op, rows' := ops[0], After(site, rows, ops[0]);
      assert op in ops;
      var added := Added(site, rows, op);
      if added.Some? {
        FilterAppend(rows, [added.value], ActiveSelf(owner));
        if op.owner != owner || !added.value.selfSchedule {
          FilterNone([added.value], ActiveSelf(owner));
        }
      } else {
        FilterFewer(rows, ActiveSelf(owner), rows', ActiveSelf(owner));
      }
      RunsKeepUserLimit(site, rows', ops[1..], owner);
    }
  }

  /** Self-scheduling never takes the spare pool: an accepted self create is on another known, idle cloud. */
  lemma SelfCreateTakesAnIdleCloud(site: Site, rows: seq<Assignment>, wanted: Option<CloudName>, owner: string)
    ensures var added := Added(site, rows, SelfCreate(wanted, owner));
            added.Some? ==>
              && added.value.cloud in site.clouds && added.value.cloud != site.spare
              && ActiveOf(rows, added.value.cloud).None?
              && (wanted.Some? ==> added.value.cloud == wanted.value)
  {
    if wanted.None? {
      var free := FreeClouds(site, rows);
      assert free != [] ==> free[0] in free;
    }
  }
}
