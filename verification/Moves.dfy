/**
 Moving hosts to the clouds their current reservations ask for. The move list is computed once; the wave then
 works through it cloud by cloud, ending the assignments of clouds that have been vacated as it goes. All
 queries are made at one instant.
 */
module Moves {
  import opened Wrappers
  import opened Reservations
  import Assignments

  datatype Move = Move(host: HostName, to: CloudName, from: CloudName)

  // ---------------------------------------------------------------- where a host belongs

  /** The cloud of the host's first current reservation, else its default cloud. */
  function TargetCloud(rows: seq<Reservation>, assignments: seq<Assignment>, host: Host, t: Time): CloudName {
    var current := CurrentOfHost(rows, assignments, host.name, t);
    if current == [] then host.defaultCloud
    else
      assert current[0] in current;
      assignments[current[0].assignment].cloud
  }

  function MoveList(hosts: seq<Host>, rows: seq<Reservation>, assignments: seq<Assignment>, t: Time): seq<Move> {
    if hosts == [] then []
    else
      var rest := MoveList(hosts[1..], rows, assignments, t);
      var target := TargetCloud(rows, assignments, hosts[0], t);
      if target == hosts[0].cloud then rest else [Move(hosts[0].name, target, hosts[0].cloud)] + rest
  }

  method GetMoves(hosts: seq<Host>, rows: seq<Reservation>, assignments: seq<Assignment>, t: Time)
    returns (result: seq<Move>)
    ensures result == MoveList(hosts, rows, assignments, t)
  {
    result := [];
    var i := 0;
    while i < |hosts|
      invariant 0 <= i <= |hosts|
      invariant result + MoveList(hosts[i..], rows, assignments, t) == MoveList(hosts, rows, assignments, t)
    {
      var host := hosts[i];
      assert hosts[i..][0] == host && hosts[i..][1..] == hosts[i + 1..];
      var target := TargetCloud(rows, assignments, host, t);
      if target != host.cloud {
        result := result + [Move(host.name, target, host.cloud)];
      }
      i := i + 1;
    }
  }

  /** What a host contributes to the move list. */
  function MoveOf(rows: seq<Reservation>, assignments: seq<Assignment>, t: Time, h: Host): Move {
    Move(h.name, TargetCloud(rows, assignments, h, t), h.cloud)
  }

  lemma {:induction false} MoveListMembers(hosts: seq<Host>, rows: seq<Reservation>, assignments: seq<Assignment>,
                                           t: Time)
    ensures forall m :: m in MoveList(hosts, rows, assignments, t) <==>
              m.to != m.from && exists h :: h in hosts && m == MoveOf(rows, assignments, t, h)
  {
    if hosts != [] {
      MoveListMembers(hosts[1..], rows, assignments, t);
      assert hosts == [hosts[0]] + hosts[1..];
      var list, rest := MoveList(hosts, rows, assignments, t), MoveList(hosts[1..], rows, assignments, t);
      var first := MoveOf(rows, assignments, t, hosts[0]);
      assert list == if first.to == first.from then rest else [first] + rest;
    }
  }

  /** No host is listed twice. */
  lemma {:induction false} OneMoveEach(hosts: seq<Host>, rows: seq<Reservation>, assignments: seq<Assignment>, t: Time)
    requires DistinctNames(hosts)
    ensures OneMovePerHost(MoveList(hosts, rows, assignments, t))
  {
    if hosts != [] {
      OneMoveEach(hosts[1..], rows, assignments, t);
      MoveListMembers(hosts[1..], rows, assignments, t);
      var rest := MoveList(hosts[1..], rows, assignments, t);
      forall k | 0 <= k < |rest|
        ensures rest[k].host != hosts[0].name
      {
        assert rest[k] in rest;
      }
    }
  }

  predicate OneMovePerHost(moves: seq<Move>) {
    forall i, j :: 0 <= i < j < |moves| ==> moves[i].host != moves[j].host
  }

  // ---------------------------------------------------------------- vacated clouds

  /** A current reservation of a cloud as clients see it. */
  predicate Visible(hosts: seq<Host>, assignments: seq<Assignment>, cloud: CloudName, t: Time, r: Reservation) {
    && Covers(r, t) && IsActive(assignments, r) && assignments[r.assignment].cloud == cloud
    && ShownToClients(hosts, r.host)
  }

  function VisibleTest(hosts: seq<Host>, assignments: seq<Assignment>, cloud: CloudName, t: Time): Reservation -> bool {
    (r: Reservation) => Visible(hosts, assignments, cloud, t, r)
  }

  function VisibleCurrent(hosts: seq<Host>, rows: seq<Reservation>, assignments: seq<Assignment>, cloud: CloudName,
                          t: Time): seq<Reservation>
  {
    Filter(rows, VisibleTest(hosts, assignments, cloud, t))
  }

  predicate Vacated(hosts: seq<Host>, rows: seq<Reservation>, assignments: seq<Assignment>, cloud: CloudName, t: Time,
                    cloud01: CloudName)
  {
    cloud != cloud01 && VisibleCurrent(hosts, rows, assignments, cloud, t) == []
  }

  /** Some active assignments have ended, none of which reserves a usable host at the instant. */
  ghost predicate Quieter(hosts: seq<Host>, rows: seq<Reservation>, before: seq<Assignment>, after: seq<Assignment>,
                          t: Time)
  {
    && |after| == |before|
    && forall i :: 0 <= i < |before| ==>
         || after[i] == before[i]
         || (after[i] == before[i].(active := false) && NobodyUsableIn(hosts, rows, i, t))
  }

  ghost predicate NobodyUsableIn(hosts: seq<Host>, rows: seq<Reservation>, id: AssignmentId, t: Time) {
    forall r, h :: r in rows && h in hosts && r.host == h.name && h.Usable() && r.assignment == id ==> !Covers(r, t)
  }

  /** Ending the assignment of a vacated cloud does no usable host out of a reservation. */
  lemma VacatedIsQuiet(hosts: seq<Host>, rows: seq<Reservation>, assignments: seq<Assignment>, cloud: CloudName,
                       t: Time, cloud01: CloudName)
    requires DistinctNames(hosts) && Vacated(hosts, rows, assignments, cloud, t, cloud01)
    requires ActiveOf(assignments, cloud).Some?
    ensures NobodyUsableIn(hosts, rows, ActiveOf(assignments, cloud).value, t)
  {
    forall r, h | r in rows && h in hosts && r.host == h.name && h.Usable()
                  && r.assignment == ActiveOf(assignments, cloud).value
      ensures !Covers(r, t)
    {
      FindsItself(hosts, h);
      assert r !in VisibleCurrent(hosts, rows, assignments, cloud, t);
      assert !Visible(hosts, assignments, cloud, t, r);
    }
  }

  /** So no usable host's target changes. */
  lemma QuieterKeepsTargets(hosts: seq<Host>, rows: seq<Reservation>, before: seq<Assignment>, after: seq<Assignment>,
                            h: Host, t: Time)
    requires Quieter(hosts, rows, before, after, t) && h in hosts && h.Usable()
    ensures TargetCloud(rows, after, h, t) == TargetCloud(rows, before, h, t)
  {
    forall r | r in rows
      ensures HostTest(before, h.name, t)(r) == HostTest(after, h.name, t)(r)
    {
    }
    FilterSame(rows, HostTest(before, h.name, t), HostTest(after, h.name, t));
    var current := CurrentOfHost(rows, after, h.name, t);
    assert current != [] ==> current[0] in current;
  }

  /** The table after the given clouds were looked at: vacated ones have lost their active assignment. */
  function Ended(hosts: seq<Host>, rows: seq<Reservation>, assignments: seq<Assignment>, clouds: set<CloudName>,
                 t: Time, cloud01: CloudName): (r: seq<Assignment>)
    ensures |r| == |assignments|
  {
    seq(|assignments|, i requires 0 <= i < |assignments| =>
      if assignments[i].cloud in clouds && Vacated(hosts, rows, assignments, assignments[i].cloud, t, cloud01)
      then assignments[i].(active := false)
      else assignments[i])
  }

  /** Ending other clouds, or none, does not change whether a cloud counts as vacated. */
  lemma VacatedUnchanged(hosts: seq<Host>, rows: seq<Reservation>, assignments: seq<Assignment>,
                         clouds: set<CloudName>, cloud: CloudName, t: Time, cloud01: CloudName)
    requires cloud !in clouds || !Vacated(hosts, rows, assignments, cloud, t, cloud01)
    ensures Vacated(hosts, rows, Ended(hosts, rows, assignments, clouds, t, cloud01), cloud, t, cloud01)
            == Vacated(hosts, rows, assignments, cloud, t, cloud01)
  {
    var now := Ended(hosts, rows, assignments, clouds, t, cloud01);
    forall r | r in rows
      ensures Visible(hosts, assignments, cloud, t, r) == Visible(hosts, now, cloud, t, r)
    {
    }
    FilterSame(rows, VisibleTest(hosts, assignments, cloud, t), VisibleTest(hosts, now, cloud, t));
  }

  /** Looking at one more cloud, with some already ended, has the effect it would have had at the start. */
  lemma EndedOneMore(hosts: seq<Host>, rows: seq<Reservation>, assignments: seq<Assignment>, clouds: set<CloudName>,
                     cloud: CloudName, t: Time, cloud01: CloudName)
    requires OneActivePerCloud(assignments)
    ensures var now := Ended(hosts, rows, assignments, clouds, t, cloud01);
            var active := ActiveOf(now, cloud);
            Ended(hosts, rows, assignments, clouds + {cloud}, t, cloud01)
            == if Vacated(hosts, rows, now, cloud, t, cloud01) && active.Some?
               then now[active.value := now[active.value].(active := false)]
               else now
  {
    if cloud !in clouds || !Vacated(hosts, rows, assignments, cloud, t, cloud01) {
      VacatedUnchanged(hosts, rows, assignments, clouds, cloud, t, cloud01);
    }
  }

  /** To the assignment table this is its deactivation, occupied being what the cloud's reservations say. */
  lemma EndingIsAnOperation(site: Assignments.Site, hosts: seq<Host>, rows: seq<Reservation>,
                            assignments: seq<Assignment>, clouds: set<CloudName>, cloud: CloudName, t: Time,
                            cloud01: CloudName)
    requires OneActivePerCloud(assignments)
    ensures var now := Ended(hosts, rows, assignments, clouds, t, cloud01);
            var occupied := !Vacated(hosts, rows, now, cloud, t, cloud01);
            Ended(hosts, rows, assignments, clouds + {cloud}, t, cloud01)
            == Assignments.After(site, now, Assignments.DeactivateOld(cloud, occupied))
  {
    EndedOneMore(hosts, rows, assignments, clouds, cloud, t, cloud01);
  }

  /** Whatever clouds have been looked at so far, no usable host's target has changed. */
  lemma TargetsStableThroughWave(hosts: seq<Host>, rows: seq<Reservation>, assignments: seq<Assignment>,
                                 clouds: set<CloudName>, t: Time, cloud01: CloudName)
    requires DistinctNames(hosts) && OneActivePerCloud(assignments)
    ensures var after := Ended(hosts, rows, assignments, clouds, t, cloud01);
            && Quieter(hosts, rows, assignments, after, t)
            && OneActivePerCloud(after)
            && forall h :: h in hosts && h.Usable() ==>
                 TargetCloud(rows, after, h, t) == TargetCloud(rows, assignments, h, t)
  {
    var after := Ended(hosts, rows, assignments, clouds, t, cloud01);
    forall i | 0 <= i < |assignments| && after[i] != assignments[i]
      ensures NobodyUsableIn(hosts, rows, i, t)
    {
      assert ActiveOf(assignments, assignments[i].cloud) == Some(i);
      VacatedIsQuiet(hosts, rows, assignments, assignments[i].cloud, t, cloud01);
    }
    forall h | h in hosts && h.Usable()
      ensures TargetCloud(rows, after, h, t) == TargetCloud(rows, assignments, h, t)
    {
      QuieterKeepsTargets(hosts, rows, assignments, after, h, t);
    }
  }

  /** The host's current reservation is in one of the vacated clouds, and not in the host's default cloud. */
  predicate LosesTarget(hosts: seq<Host>, rows: seq<Reservation>, assignments: seq<Assignment>, clouds: set<CloudName>,
                        h: Host, t: Time, cloud01: CloudName)
  {
    var current := CurrentOfHost(rows, assignments, h.name, t);
    current != [] &&
    assert current[0] in current;
    var cloud := assignments[current[0].assignment].cloud;
    cloud in clouds && cloud != h.defaultCloud && Vacated(hosts, rows, assignments, cloud, t, cloud01)
  }

  /** What is current after assignments have ended was current before, and is still active. */
  lemma {:induction false} CurrentAfterEnding(rows: seq<Reservation>, before: seq<Assignment>, after: seq<Assignment>,
                                              host: HostName, t: Time)
    requires |after| == |before|
    requires forall i :: 0 <= i < |before| ==> after[i] == before[i] || after[i] == before[i].(active := false)
    ensures CurrentOfHost(rows, after, host, t)
            == Filter(CurrentOfHost(rows, before, host, t), (r: Reservation) => IsActive(after, r))
  {
    if rows != [] {
      CurrentAfterEnding(rows[1..], before, after, host, t);
    }
  }

  /**
   The exact condition, for every host whether usable or not: looking at any clouds in a wave changes a host's
   target if and only if the host's current reservation is in one that counts as vacated, other than its default.
   */
  lemma TargetKeptExactlyWhen(hosts: seq<Host>, rows: seq<Reservation>, assignments: seq<Assignment>,
                              clouds: set<CloudName>, h: Host, t: Time, cloud01: CloudName)
    requires Disjoint(rows)
    ensures TargetCloud(rows, Ended(hosts, rows, assignments, clouds, t, cloud01), h, t)
            == TargetCloud(rows, assignments, h, t)
            <==> !LosesTarget(hosts, rows, assignments, clouds, h, t, cloud01)
  {
    var after := Ended(hosts, rows, assignments, clouds, t, cloud01);
    var current := CurrentOfHost(rows, assignments, h.name, t);
    CurrentAfterEnding(rows, assignments, after, h.name, t);
    CurrentOfHostIsUnique(rows, assignments, h.name, t);
    if current != [] {
      assert current[0] in current && current == [current[0]] && current[1..] == [];
    }
  }

  /** A usable host's current reservation is shown, so its cloud does not count as vacated: it keeps its target. */
  lemma UsableHostKeepsTarget(hosts: seq<Host>, rows: seq<Reservation>, assignments: seq<Assignment>,
                              clouds: set<CloudName>, h: Host, t: Time, cloud01: CloudName)
    requires Disjoint(rows) && DistinctNames(hosts) && h in hosts && h.Usable()
    ensures TargetCloud(rows, Ended(hosts, rows, assignments, clouds, t, cloud01), h, t)
            == TargetCloud(rows, assignments, h, t)
  {
    FindsItself(hosts, h);
    var current := CurrentOfHost(rows, assignments, h.name, t);
    if current != [] {
      assert current[0] in current;
      var cloud := assignments[current[0].assignment].cloud;
      assert current[0] in VisibleCurrent(hosts, rows, assignments, cloud, t);
    }
    TargetKeptExactlyWhen(hosts, rows, assignments, clouds, h, t, cloud01);
  }

  /** A broken host is not protected: its cloud counts as vacated, and its target falls back to its default cloud. */
  lemma BrokenHostLosesItsTarget()
    ensures var host := Host(1, "", true, false, false, 2, 0);
            var rows := [Reservation(0, 1, 0, 0, DAY)];
            var before := [Assignment(2, "", true, false)];
            var after := [Assignment(2, "", false, false)];
            && Vacated([host], rows, before, 2, 0, 0) && LosesTarget([host], rows, before, {2}, host, 0, 0)
            && TargetCloud(rows, before, host, 0) == 2 && TargetCloud(rows, after, host, 0) == 0
  {
    var host := Host(1, "", true, false, false, 2, 0);
    var rows := [Reservation(0, 1, 0, 0, DAY)];
    var before := [Assignment(2, "", true, false)];
    var after := [Assignment(2, "", false, false)];
    assert FindHost([host], 1) == Some(host);
    assert rows[1..] == [];
    assert !Visible([host], before, 2, 0, rows[0]);
    assert VisibleCurrent([host], rows, before, 2, 0) == [];
    assert CurrentOfHost(rows, before, 1, 0) == rows && rows[0] in rows;
    assert CurrentOfHost(rows, after, 1, 0) == [];
  }

  // ---------------------------------------------------------------- hosts change clouds

  /** The hosts differ in their cloud only. */
  predicate Relocated(before: seq<Host>, after: seq<Host>) {
    |after| == |before| && forall i :: 0 <= i < |before| ==> after[i] == before[i].(cloud := after[i].cloud)
  }

  /** Exactly the given moves have been made. */
  predicate MovedBy(before: seq<Host>, after: seq<Host>, done: set<Move>) {
    && Relocated(before, after)
    && (forall i, m :: 0 <= i < |before| && m in done && m.host == before[i].name ==> after[i].cloud == m.to)
    && (forall i :: 0 <= i < |before| && (forall m :: m in done ==> m.host != before[i].name)
          ==> after[i].cloud == before[i].cloud)
  }

  /** A successful release puts the host in its new cloud. */
  function Place(hosts: seq<Host>, m: Move): (r: seq<Host>)
    ensures |r| == |hosts|
  {
    seq(|hosts|, i requires 0 <= i < |hosts| => if hosts[i].name == m.host then hosts[i].(cloud := m.to) else hosts[i])
  }

  lemma {:induction false} RelocatedFinds(before: seq<Host>, after: seq<Host>, name: HostName)
    requires Relocated(before, after)
    ensures FindHost(after, name).Some? <==> FindHost(before, name).Some?
    ensures FindHost(after, name).Some?
            ==> (FindHost(after, name).value.Usable() <==> FindHost(before, name).value.Usable())
  {
    if before != [] {
      RelocatedFinds(before[1..], after[1..], name);
    }
  }

  lemma RelocatedEnds(before: seq<Host>, after: seq<Host>, rows: seq<Reservation>, assignments: seq<Assignment>,
                      clouds: set<CloudName>, t: Time, cloud01: CloudName)
    requires Relocated(before, after)
    ensures Ended(after, rows, assignments, clouds, t, cloud01) == Ended(before, rows, assignments, clouds, t, cloud01)
  {
    forall cloud: CloudName
      ensures Vacated(after, rows, assignments, cloud, t, cloud01)
              == Vacated(before, rows, assignments, cloud, t, cloud01)
    {
      forall r | r in rows
        ensures Visible(after, assignments, cloud, t, r) == Visible(before, assignments, cloud, t, r)
      {
        RelocatedFinds(before, after, r.host);
      }
      FilterSame(rows, VisibleTest(after, assignments, cloud, t), VisibleTest(before, assignments, cloud, t));
    }
  }

  // ---------------------------------------------------------------- the wave

  function ToCloud(cloud: CloudName): Move -> bool {
    (m: Move) => m.to == cloud
  }

  /** Each target's moves in list order, the targets without repetition. */
  ghost predicate Grouped(moves: seq<Move>, order: seq<CloudName>, groups: map<CloudName, seq<Move>>) {
    && Distinct(order)
    && (forall c :: c in order <==> c in groups)
    && (forall c :: c in groups ==> groups[c] == Filter(moves, ToCloud(c)))
    && (forall m :: m in moves ==> m.to in groups)
  }

  lemma GroupGrows(moves: seq<Move>, m: Move, order: seq<CloudName>, groups: map<CloudName, seq<Move>>)
    requires Grouped(moves, order, groups) && m.to in groups
    ensures Grouped(moves + [m], order, groups[m.to := groups[m.to] + [m]])
  {
    forall c | c in groups
      ensures Filter(moves + [m], ToCloud(c)) == Filter(moves, ToCloud(c)) + if m.to == c then [m] else []
    {
      FilterOneMore(moves, m, ToCloud(c));
    }
  }

  lemma GroupAdded(moves: seq<Move>, m: Move, order: seq<CloudName>, groups: map<CloudName, seq<Move>>)
    requires Grouped(moves, order, groups) && m.to !in groups
    ensures Grouped(moves + [m], order + [m.to], groups[m.to := [m]])
  {
    FilterOneMore(moves, m, ToCloud(m.to));
    FilterNone(moves, ToCloud(m.to));
    forall c | c in groups
      ensures Filter(moves + [m], ToCloud(c)) == Filter(moves, ToCloud(c))
    {
      FilterOneMore(moves, m, ToCloud(c));
    }
    var groups' := groups[m.to := [m]];
    assert forall c :: c in order + [m.to] <==> c in order || c == m.to;
    assert forall n :: n in moves + [m] ==> n in moves || n == m;
  }

  /** The moves grouped by their target, targets in order of first appearance. */
  method GroupByTarget(moves: seq<Move>) returns (order: seq<CloudName>, groups: map<CloudName, seq<Move>>)
    ensures Grouped(moves, order, groups)
  {
    order, groups := [], map[];
    var i := 0;
    while i < |moves|
      invariant 0 <= i <= |moves|
      invariant Grouped(moves[..i], order, groups)
    {
      var m := moves[i];
      assert moves[..i + 1] == moves[..i] + [m];
      if m.to !in groups {
        GroupAdded(moves[..i], m, order, groups);
        order := order + [m.to];
        groups := groups[m.to := [m]];
      } else {
        GroupGrows(moves[..i], m, order, groups);
        groups := groups[m.to := groups[m.to] + [m]];
      }
      i := i + 1;
    }
    assert moves[..i] == moves;
  }

  /** The moves whose host is released. */
  ghost function Made(moves: seq<Move>, failed: set<HostName>, released: set<HostName>): set<Move> {
    set m | m in moves && m.host !in failed && m.host in released
  }

  ghost function FromsOf(moves: seq<Move>): set<CloudName> {
    set m | m in moves :: m.from
  }

  /** Ending two sets of clouds one after the other is ending them together. */
  lemma {:induction false} EndedTwice(hosts: seq<Host>, rows: seq<Reservation>, assignments: seq<Assignment>,
                                      first: set<CloudName>, second: set<CloudName>, t: Time, cloud01: CloudName)
    requires OneActivePerCloud(assignments)
    ensures Ended(hosts, rows, Ended(hosts, rows, assignments, first, t, cloud01), second, t, cloud01)
            == Ended(hosts, rows, assignments, first + second, t, cloud01)
  {
    var now := Ended(hosts, rows, assignments, first, t, cloud01);
    forall cloud: CloudName | cloud !in first || !Vacated(hosts, rows, assignments, cloud, t, cloud01)
      ensures Vacated(hosts, rows, now, cloud, t, cloud01) == Vacated(hosts, rows, assignments, cloud, t, cloud01)
    {
      VacatedUnchanged(hosts, rows, assignments, first, cloud, t, cloud01);
    }
  }

  /** Ending the clouds of one more group, seen from the start of the wave. */
  lemma EndedInSteps(before: seq<Host>, now: seq<Host>, rows: seq<Reservation>, assignments: seq<Assignment>,
                     seen: seq<Move>, results: seq<Move>, t: Time, cloud01: CloudName)
    requires OneActivePerCloud(assignments) && DistinctNames(before) && Relocated(before, now)
    ensures var half := Ended(before, rows, assignments, FromsOf(seen), t, cloud01);
            var all := Ended(before, rows, assignments, FromsOf(seen + results), t, cloud01);
            && Ended(before, rows, half, FromsOf(results), t, cloud01) == all
            && Ended(now, rows, half, FromsOf(results), t, cloud01) == all
            && OneActivePerCloud(all)
  {
    var half := Ended(before, rows, assignments, FromsOf(seen), t, cloud01);
    assert FromsOf(seen + results) == FromsOf(seen) + FromsOf(results);
    EndedTwice(before, rows, assignments, FromsOf(seen), FromsOf(results), t, cloud01);
    RelocatedEnds(before, now, rows, half, FromsOf(results), t, cloud01);
    TargetsStableThroughWave(before, rows, assignments, FromsOf(seen + results), t, cloud01);
  }

  /** The moves dealt with so far are those to the first targets. */
  ghost predicate TargetsSeen(moves: seq<Move>, targets: seq<CloudName>, seen: seq<Move>) {
    forall m :: m in seen <==> m in moves && m.to in targets
  }

  lemma OneMoreTarget(moves: seq<Move>, order: seq<CloudName>, i: nat, seen: seq<Move>, failed: set<HostName>,
                      released: set<HostName>)
    requires i < |order| && TargetsSeen(moves, order[..i], seen)
    ensures var results := Filter(moves, ToCloud(order[i]));
            && TargetsSeen(moves, order[..i + 1], seen + results)
            && Made(seen + results, failed, released) == Made(seen, failed, released) + Made(results, failed, released)
  {
    assert order[..i + 1] == order[..i] + [order[i]];
  }

  lemma AllTargetsSeen(moves: seq<Move>, order: seq<CloudName>, seen: seq<Move>, failed: set<HostName>,
                       released: set<HostName>)
    requires TargetsSeen(moves, order[..|order|], seen) && forall m :: m in moves ==> m.to in order
    ensures Made(seen, failed, released) == Made(moves, failed, released)
    ensures FromsOf(seen) == FromsOf(moves)
  {
    assert order[..|order|] == order;
  }

  /** Moves of the list are determined by their host. */
  lemma MovesOfOneHost(moves: seq<Move>)
    requires OneMovePerHost(moves)
    ensures forall m, n :: m in moves && n in moves && m.host == n.host ==> m == n
  {
  }

  class Inventory {
    const rows: seq<Reservation>
    const cloud01: CloudName
    var hosts: seq<Host>
    var assignments: seq<Assignment>

    constructor (hosts: seq<Host>, rows: seq<Reservation>, assignments: seq<Assignment>, cloud01: CloudName)
      ensures this.hosts == hosts && this.rows == rows
      ensures this.assignments == assignments && this.cloud01 == cloud01
    {
      this.hosts, this.rows, this.assignments, this.cloud01 := hosts, rows, assignments, cloud01;
    }

    /** Ends the active assignment of each given cloud that has no visible current reservation. */
    method EndVacated(clouds: set<CloudName>, t: Time)
      requires OneActivePerCloud(assignments)
      modifies this`assignments
      ensures assignments == Ended(hosts, rows, old(assignments), clouds, t, cloud01)
    {
      var left := clouds;
      ghost var seen: set<CloudName> := {};
      assert Ended(hosts, rows, assignments, seen, t, cloud01) == assignments;
      while left != {}
        invariant seen + left == clouds
        invariant assignments == Ended(hosts, rows, old(assignments), seen, t, cloud01)
        decreases left
      {
        var cloud :| cloud in left;
        EndedOneMore(hosts, rows, old(assignments), seen, cloud, t, cloud01);
        var current := VisibleCurrent(hosts, rows, assignments, cloud, t);
        if current == [] && cloud != cloud01 {
          var active := ActiveOf(assignments, cloud);
          if active.Some? {
            assignments := assignments[active.value := assignments[active.value].(active := false)];
          }
        }
        seen := seen + {cloud};
        left := left - {cloud};
      }
      assert seen == clouds;
    }

    /** One target cloud's moves: switch failures drop out, old clouds are ended, the rest is released. */
    method MoveGroup(results: seq<Move>, failed: set<HostName>, released: set<HostName>, t: Time,
                     ghost before: seq<Host>, ghost done: set<Move>)
      requires OneActivePerCloud(assignments) && MovedBy(before, hosts, done)
      requires forall m, n :: (m in done || m in results) && (n in done || n in results) && m.host == n.host ==> m == n
      modifies this`hosts, this`assignments
      ensures assignments == Ended(old(hosts), rows, old(assignments), FromsOf(results), t, cloud01)
      ensures MovedBy(before, hosts, done + Made(results, failed, released))
    {
      var moveArgs: seq<Move> := [];
      var oldClouds: set<CloudName> := {};
      var i := 0;
      while i < |results|
        invariant 0 <= i <= |results|
        invariant forall m :: m in moveArgs <==> m in results[..i] && m.host !in failed
        invariant oldClouds == set m | m in results[..i] :: m.from
      {
        assert results[..i + 1] == results[..i] + [results[i]];
        if results[i].host !in failed {
          moveArgs := moveArgs + [results[i]];
        }
        oldClouds := oldClouds + {results[i].from};
        i := i + 1;
      }
      assert results[..i] == results;
      assert oldClouds == FromsOf(results);
      EndVacated(oldClouds, t);
      ghost var released' := done;
      i := 0;
      while i < |moveArgs|
        invariant 0 <= i <= |moveArgs|
        invariant assignments == Ended(old(hosts), rows, old(assignments), oldClouds, t, cloud01)
        invariant MovedBy(before, hosts, released')
        invariant released' == done + set m | m in moveArgs[..i] && m.host in released
      {
        assert moveArgs[..i + 1] == moveArgs[..i] + [moveArgs[i]];
        var m := moveArgs[i];
        if m.host in released {
          hosts := Place(hosts, m);
          released' := released' + {m};
        }
        i := i + 1;
      }
      assert moveArgs[..i] == moveArgs;
      assert released' == done + Made(results, failed, released);
    }

    /**
     The wave. "failed" are the hosts whose switch could not be configured, "released" those whose release
     succeeded; a dry run changes nothing.
     */
    method MoveHosts(moves: seq<Move>, failed: set<HostName>, released: set<HostName>, t: Time, dryRun: bool)
      requires OneActivePerCloud(assignments) && DistinctNames(hosts) && OneMovePerHost(moves)
      modifies this`hosts, this`assignments
      ensures dryRun ==> hosts == old(hosts) && assignments == old(assignments)
      ensures !dryRun ==> MovedBy(old(hosts), hosts, Made(moves, failed, released))
      ensures !dryRun ==> assignments == Ended(old(hosts), rows, old(assignments), FromsOf(moves), t, cloud01)
    {
      if dryRun {
        return;
      }
      var order, groups := GroupByTarget(moves);
      MovesOfOneHost(moves);
      ghost var seen: seq<Move> := [];
      assert Ended(hosts, rows, assignments, FromsOf(seen), t, cloud01) == assignments;
      var i := 0;
      while i < |order|
        invariant 0 <= i <= |order|
        invariant TargetsSeen(moves, order[..i], seen)
        invariant MovedBy(old(hosts), hosts, Made(seen, failed, released))
        invariant OneActivePerCloud(assignments)
        invariant assignments == Ended(old(hosts), rows, old(assignments), FromsOf(seen), t, cloud01)
      {
        var results := groups[order[i]];
        EndedInSteps(old(hosts), hosts, rows, old(assignments), seen, results, t, cloud01);
        MoveGroup(results, failed, released, t, old(hosts), Made(seen, failed, released));
        OneMoreTarget(moves, order, i, seen, failed, released);
        seen := seen + results;
        i := i + 1;
      }
      AllTargetsSeen(moves, order, seen, failed, released);
    }
  }

  // ---------------------------------------------------------------- after the wave

  /** The only possible entry for a host. */
  lemma OnlyMoveOf(hosts: seq<Host>, rows: seq<Reservation>, assignments: seq<Assignment>, i: nat, t: Time)
    requires DistinctNames(hosts) && i < |hosts|
    ensures var m := MoveOf(rows, assignments, t, hosts[i]);
            && (m in MoveList(hosts, rows, assignments, t) <==> m.to != m.from)
            && (forall n :: n in MoveList(hosts, rows, assignments, t) && n.host == hosts[i].name ==> n == m)
  {
    MoveListMembers(hosts, rows, assignments, t);
    assert hosts[i] in hosts;
  }

  lemma SecondMoveOf(before: seq<Host>, after: seq<Host>, rows: seq<Reservation>, assignments: seq<Assignment>,
                     ended: seq<Assignment>, done: set<Move>, i: nat, t: Time)
    requires DistinctNames(before) && MovedBy(before, after, done) && i < |after| && before[i].Usable()
    requires forall m :: m in done ==> m in MoveList(before, rows, assignments, t)
    requires TargetCloud(rows, ended, before[i], t) == TargetCloud(rows, assignments, before[i], t)
    ensures (exists m :: m in MoveList(after, rows, ended, t) && m.host == after[i].name) <==>
            (exists m :: m in MoveList(before, rows, assignments, t) && m.host == after[i].name && m !in done)
  {
    var first, second := MoveOf(rows, assignments, t, before[i]), MoveOf(rows, ended, t, after[i]);
    OnlyMoveOf(before, rows, assignments, i, t);
    OnlyMoveOf(after, rows, ended, i, t);
    assert second.to == first.to;
    if first in done {
      assert after[i].cloud == first.to;
    } else {
      assert forall m :: m in done ==> m.host != before[i].name;
    }
  }

  /**
   Main result: a move list computed again at the same instant contains, of the usable hosts, exactly those
   whose move was not made; so none, when every switch was configured and every release succeeded.
   */
  lemma SecondMoveList(before: seq<Host>, after: seq<Host>, rows: seq<Reservation>, assignments: seq<Assignment>,
                       clouds: set<CloudName>, done: set<Move>, t: Time, cloud01: CloudName)
    requires DistinctNames(before) && OneActivePerCloud(assignments) && MovedBy(before, after, done)
    requires forall m :: m in done ==> m in MoveList(before, rows, assignments, t)
    ensures var ended := Ended(before, rows, assignments, clouds, t, cloud01);
            forall i :: 0 <= i < |after| && after[i].Usable() ==>
              ((exists m :: m in MoveList(after, rows, ended, t) && m.host == after[i].name) <==>
               (exists m :: m in MoveList(before, rows, assignments, t) && m.host == after[i].name && m !in done))
  {
    var ended := Ended(before, rows, assignments, clouds, t, cloud01);
    TargetsStableThroughWave(before, rows, assignments, clouds, t, cloud01);
    forall i | 0 <= i < |after| && after[i].Usable()
      ensures (exists m :: m in MoveList(after, rows, ended, t) && m.host == after[i].name) <==>
              (exists m :: m in MoveList(before, rows, assignments, t) && m.host == after[i].name && m !in done)
    {
      SecondMoveOf(before, after, rows, assignments, ended, done, i, t);
    }
  }

  /** With every switch configured and every release made, each usable host is where it belongs. */
  lemma CompletedWave(before: seq<Host>, after: seq<Host>, rows: seq<Reservation>, assignments: seq<Assignment>,
                      failed: set<HostName>, released: set<HostName>, t: Time, cloud01: CloudName)
    requires DistinctNames(before) && OneActivePerCloud(assignments)
    requires var moves := MoveList(before, rows, assignments, t);
             && MovedBy(before, after, Made(moves, failed, released))
             && forall m :: m in moves ==> m.host !in failed && m.host in released
    ensures var moves := MoveList(before, rows, assignments, t);
            var ended := Ended(before, rows, assignments, FromsOf(moves), t, cloud01);
            forall m, h :: m in MoveList(after, rows, ended, t) && h in after && m.host == h.name ==> !h.Usable()
  {
    var moves := MoveList(before, rows, assignments, t);
    SecondMoveList(before, after, rows, assignments, FromsOf(moves), Made(moves, failed, released), t, cloud01);
  }
}
