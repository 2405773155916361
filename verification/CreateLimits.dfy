/**
 Two further results about the create protocol: batches never give a cloud a second active assignment, and a
 self-scheduled cloud never holds more hosts than its cap.
 */
module CreateLimits {
  import opened Wrappers
  import opened Reservations
  import opened CreateProtocol
  import opened CreateSafety

  // ---------------------------------------------------------------- one active assignment per cloud

  /** A batch that will create an assignment has seen, under the cloud's lock, that there is none. */
  ghost predicate OneActive(s: State) {
    && CloudLocksHeld(s)
    && OneActivePerCloud(s.db.assignments)
    && forall t :: 0 <= t < |s.txns| && s.txns[t].LocksHosts() && s.txns[t].req.Batch? && s.txns[t].req.newAssignment
                   ==> ActiveOf(s.db.assignments, s.txns[t].req.cloud).None?
  }

  lemma CommitKeepsOneActive(s: State, t: nat)
    requires OneActive(s) && t < |s.txns| && s.txns[t].pc.Commit?
    ensures OneActive(Finish(s, t, Committed(s.db, s.txns[t]), true))
  {
    var s' := Finish(s, t, Committed(s.db, s.txns[t]), true);
    FinishKeepsCloudLocks(s, t, s'.db, true);
    forall u | 0 <= u < |s'.txns| && s'.txns[u].LocksHosts() && s'.txns[u].req.Batch? && s'.txns[u].req.newAssignment
      ensures ActiveOf(s'.db.assignments, s'.txns[u].req.cloud).None?
    {
      assert s.cloudLock[s.txns[u].req.cloud] == u && s.cloudLock[s.txns[t].req.cloud] == t;
    }
  }

  lemma ActKeepsOneActive(config: Config, mode: PreCheckMode, s: State, t: nat, choice: Choice)
    requires OneActive(s) && LocksConsistent(s) && CanAct(config, mode, s, t, choice)
    ensures OneActive(Next(config, mode, s, Act(t, choice)))
  {
    var effect := NextEffect(config, mode, s, s.txns[t], choice);
    ActKeepsLocks(config, mode, s, t, choice);
    EffectShape(config, mode, s, s.txns[t], choice);
    match effect
    case CommitRows => CommitKeepsOneActive(s, t);
    case Local(next) => LocalStepsKeepAssignmentCheck(config, mode, s, t, choice);
    case _ =>
  }

  lemma LocalStepsKeepAssignmentCheck(config: Config, mode: PreCheckMode, s: State, t: nat, choice: Choice)
    requires OneActive(s) && t < |s.txns| && !s.txns[t].pc.Done?
    requires NextEffect(config, mode, s, s.txns[t], choice).Local?
    ensures var next := NextEffect(config, mode, s, s.txns[t], choice).next;
            && next.req == s.txns[t].req
            && (next.LocksHosts() && next.req.Batch? && next.req.newAssignment
                ==> ActiveOf(s.db.assignments, next.req.cloud).None?)
  {
  }

  lemma DeactivateKeepsOneActive(s: State, id: AssignmentId)
    requires OneActive(s) && id < |s.db.assignments|
    ensures OneActive(s.(db := s.db.(assignments := s.db.assignments[id := s.db.assignments[id].(active := false)])))
  {
  }

  lemma {:induction false} RunKeepsOneActive(config: Config, mode: PreCheckMode, s: State, events: seq<Event>)
    requires OneActive(s) && LocksConsistent(s) && Possible(config, mode, s, events)
    ensures OneActive(Run(config, mode, s, events))
    decreases |events|
  {
    if events != [] {
      var s' := Next(config, mode, s, events[0]);
      StepKeepsLocks(config, mode, s, events[0]);
      match events[0] {
        case Act(t, choice) => ActKeepsOneActive(config, mode, s, t, choice);
        case Deactivate(id) => DeactivateKeepsOneActive(s, id);
        case _ =>
      }
      RunKeepsOneActive(config, mode, s', events[1..]);
    }
  }

  /** Batches that each create an assignment leave every cloud with at most one active one, however they interleave. */
  lemma BatchesKeepOneActivePerCloud(config: Config, mode: PreCheckMode, s: State, events: seq<Event>)
    requires Initial(s) && OneActivePerCloud(s.db.assignments) && Possible(config, mode, s, events)
    ensures OneActivePerCloud(Run(config, mode, s, events).db.assignments)
  {
    RunKeepsOneActive(config, mode, s, events);
  }

  // ---------------------------------------------------------------- the self-schedule cap

  /** The cloud is self-scheduled, filled by single requests only, and nothing on it starts in the future. */
  ghost predicate FilledBySelfScheduling(s: State, cloud: CloudName) {
    && (forall i :: 0 <= i < |s.db.assignments| && s.db.assignments[i].cloud == cloud && s.db.assignments[i].active
          ==> s.db.assignments[i].selfSchedule)
    && (forall t :: 0 <= t < |s.txns| && s.txns[t].req.cloud == cloud ==> s.txns[t].req.Single?)
    && (forall i :: 0 <= i < |s.db.rows| ==>
          && s.db.rows[i].assignment < |s.db.assignments|
          && (s.db.assignments[s.db.rows[i].assignment].cloud == cloud ==> s.db.rows[i].start <= s.now))
  }

  /** What a transaction past the cap check relies on. */
  ghost predicate CapChecked(config: Config, s: State, txn: Txn, cloud: CloudName) {
    && (txn.LocksHosts() && txn.assignment.Some? ==>
          && txn.assignment.value < |s.db.assignments|
          && s.db.assignments[txn.assignment.value].cloud == txn.req.cloud)
    && (txn.LocksHosts() && txn.req.cloud == cloud ==>
          && CurrentCount(s.db, cloud, s.now) < config.hostLimit
          && txn.assignment.Some?
          && s.db.assignments[txn.assignment.value].selfSchedule
          && (txn.pc.Check? || txn.pc.Commit? ==> txn.start <= s.now))
  }

  ghost predicate WithinCap(config: Config, s: State, cloud: CloudName) {
    && CloudLocksHeld(s)
    && FilledBySelfScheduling(s, cloud)
    && CurrentCount(s.db, cloud, s.now) <= config.hostLimit
    && forall t :: 0 <= t < |s.txns| ==> CapChecked(config, s, s.txns[t], cloud)
  }

  /** Time passing, rows cut short or extended and assignments ended never add a current reservation. */
  lemma CountNeverGrows(s: State, db: Db, now: Time, cloud: CloudName)
    requires FilledBySelfScheduling(s, cloud) && s.now <= now
    requires |db.rows| == |s.db.rows| && |db.assignments| == |s.db.assignments|
    requires forall i :: 0 <= i < |db.rows| ==>
      && db.rows[i].assignment == s.db.rows[i].assignment
      && db.rows[i].start == s.db.rows[i].start
      && (Covers(db.rows[i], now) && db.rows[i].start <= s.now ==> Covers(s.db.rows[i], s.now))
    requires forall i :: 0 <= i < |db.assignments| ==>
      && db.assignments[i].cloud == s.db.assignments[i].cloud
      && db.assignments[i].selfSchedule == s.db.assignments[i].selfSchedule
      && (db.assignments[i].active ==> s.db.assignments[i].active)
    ensures CurrentCount(db, cloud, now) <= CurrentCount(s.db, cloud, s.now)
  {
    FilterFewer(s.db.rows, CloudTest(s.db.assignments, cloud, s.now), db.rows, CloudTest(db.assignments, cloud, now));
  }

  /** Committing adds its rows to the count of its own cloud only. */
  lemma CommitCount(s: State, t: nat, cloud: CloudName)
    requires FilledBySelfScheduling(s, cloud) && t < |s.txns| && s.txns[t].pc.Commit?
    requires s.txns[t].assignment.Some? ==>
      && s.txns[t].assignment.value < |s.db.assignments|
      && s.db.assignments[s.txns[t].assignment.value].cloud == s.txns[t].req.cloud
    ensures CurrentCount(Committed(s.db, s.txns[t]), cloud, s.now)
            <= CurrentCount(s.db, cloud, s.now) + if s.txns[t].req.cloud == cloud then 1 else 0
  {
    var db' := Committed(s.db, s.txns[t]);
    var test := CloudTest(db'.assignments, cloud, s.now);
    var added := db'.rows[|s.db.rows|..];
    assert db'.rows == s.db.rows + added;
    FilterAppend(s.db.rows, added, test);
    FilterFewer(s.db.rows, CloudTest(s.db.assignments, cloud, s.now), s.db.rows, test);
    if s.txns[t].req.cloud != cloud {
      FilterNone(added, test);
    }
  }

  lemma CommitKeepsWithinCap(config: Config, s: State, t: nat, cloud: CloudName)
    requires WithinCap(config, s, cloud) && t < |s.txns| && s.txns[t].pc.Commit?
    ensures WithinCap(config, Finish(s, t, Committed(s.db, s.txns[t]), true), cloud)
  {
    var s' := Finish(s, t, Committed(s.db, s.txns[t]), true);
    assert CapChecked(config, s, s.txns[t], cloud);
    FinishKeepsCloudLocks(s, t, s'.db, true);
    CommitCount(s, t, cloud);
    forall u | 0 <= u < |s'.txns|
      ensures CapChecked(config, s', s'.txns[u], cloud)
    {
      if u != t {
        assert CapChecked(config, s, s.txns[u], cloud);
        if s.txns[u].LocksHosts() && s.txns[u].req.cloud == cloud {
          assert s.cloudLock[cloud] == u;
        }
      }
    }
  }

  lemma LocalStepsKeepCapCheck(config: Config, mode: PreCheckMode, s: State, t: nat, choice: Choice, cloud: CloudName)
    requires WithinCap(config, s, cloud) && t < |s.txns| && !s.txns[t].pc.Done?
    requires NextEffect(config, mode, s, s.txns[t], choice).Local?
    ensures CapChecked(config, s, NextEffect(config, mode, s, s.txns[t], choice).next, cloud)
  {
    assert CapChecked(config, s, s.txns[t], cloud);
  }

  lemma ActKeepsWithinCap(config: Config, mode: PreCheckMode, s: State, t: nat, choice: Choice, cloud: CloudName)
    requires WithinCap(config, s, cloud) && LocksConsistent(s) && CanAct(config, mode, s, t, choice)
    ensures WithinCap(config, Next(config, mode, s, Act(t, choice)), cloud)
  {
    var effect := NextEffect(config, mode, s, s.txns[t], choice);
    ActKeepsLocks(config, mode, s, t, choice);
    StepKeepsRequests(config, mode, s, t, choice);
    EffectShape(config, mode, s, s.txns[t], choice);
    assert CapChecked(config, s, s.txns[t], cloud);
    match effect
    case CommitRows => CommitKeepsWithinCap(config, s, t, cloud);
    case Local(next) =>
      LocalStepsKeepCapCheck(config, mode, s, t, choice, cloud);
      OthersKeepCapCheck(config, s, s.(txns := s.txns[t := next]), t, cloud);
    case LockCloud(next) => OthersKeepCapCheck(config, s, ApplyEffect(s, t, effect), t, cloud);
    case LockHost(_, next) => OthersKeepCapCheck(config, s, ApplyEffect(s, t, effect), t, cloud);
    case Rollback => OthersKeepCapCheck(config, s, ApplyEffect(s, t, effect), t, cloud);
  }

  lemma OthersKeepCapCheck(config: Config, s: State, s': State, t: nat, cloud: CloudName)
    requires WithinCap(config, s, cloud) && CloudLocksHeld(s') && s'.db == s.db && s'.now == s.now
    requires |s'.txns| == |s.txns| && t < |s.txns| && CapChecked(config, s, s'.txns[t], cloud)
    requires s'.txns[t].req == s.txns[t].req
    requires forall u :: 0 <= u < |s.txns| && u != t ==> s'.txns[u] == s.txns[u]
    ensures WithinCap(config, s', cloud)
  {
    forall u | 0 <= u < |s'.txns|
      ensures CapChecked(config, s', s'.txns[u], cloud)
    {
      if u != t {
        assert CapChecked(config, s, s.txns[u], cloud);
      }
    }
  }

  lemma EventKeepsWithinCap(config: Config, mode: PreCheckMode, s: State, e: Event, cloud: CloudName)
    requires WithinCap(config, s, cloud) && LocksConsistent(s) && Enabled(config, mode, s, e)
    ensures WithinCap(config, Next(config, mode, s, e), cloud)
  {
    if e.Act? {
      ActKeepsWithinCap(config, mode, s, e.t, e.choice, cloud);
    } else {
      var s' := Next(config, mode, s, e);
      CountNeverGrows(s, s'.db, s'.now, cloud);
      forall u | 0 <= u < |s'.txns|
        ensures CapChecked(config, s', s'.txns[u], cloud)
      {
        assert CapChecked(config, s, s.txns[u], cloud);
      }
    }
  }

  lemma {:induction false} RunKeepsWithinCap(config: Config, mode: PreCheckMode, s: State, events: seq<Event>,
                                             cloud: CloudName)
    requires WithinCap(config, s, cloud) && LocksConsistent(s) && Possible(config, mode, s, events)
    ensures WithinCap(config, Run(config, mode, s, events), cloud)
    decreases |events|
  {
    if events != [] {
      EventKeepsWithinCap(config, mode, s, events[0], cloud);
      StepKeepsLocks(config, mode, s, events[0]);
      RunKeepsWithinCap(config, mode, Next(config, mode, s, events[0]), events[1..], cloud);
    }
  }

  /**
   A self-scheduled cloud filled by single requests holds at most "hostLimit" current reservations, at every
   moment of every interleaving, with a clock that never goes back.
   */
  lemma CapHoldsAlways(config: Config, mode: PreCheckMode, s: State, events: seq<Event>, cloud: CloudName)
    requires Initial(s) && FilledBySelfScheduling(s, cloud) && Possible(config, mode, s, events)
    requires CurrentCount(s.db, cloud, s.now) <= config.hostLimit
    ensures CurrentCount(Run(config, mode, s, events).db, cloud, Run(config, mode, s, events).now) <= config.hostLimit
  {
    RunKeepsWithinCap(config, mode, s, events, cloud);
  }
}
