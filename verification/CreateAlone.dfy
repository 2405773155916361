/**
 A transaction of the protocol that is not interrupted does what the handler does: step by step, what it will
 leave behind stays the same, and every request that may be granted is.
 */
module CreateAlone {
  import opened Wrappers
  import opened Reservations
  import opened CreateProtocol
  import opened CreateSafety
  import opened CreateProgress
  import opened CreateHandlers
  import Edits

  // ---------------------------------------------------------------- what a transaction will leave behind

  function GrantIf(free: bool, db: Db, req: Request, existing: Option<AssignmentId>, window: Window): Option<Db> {
    if free then Some(Booked(db, req, existing, window.start, window.end)) else None
  }

  /** From the hosts' locking on, for a single request. */
  function SingleVerdict(config: Config, db: Db, txn: Txn, now: Time, lag: nat): Option<Db>
    requires txn.req.Single?
  {
    if txn.assignment.None? || txn.assignment.value >= |db.assignments| || !db.Knows(txn.req.host) then None
    else
      var window := SingleWindow(config, db, txn.req, db.assignments[txn.assignment.value], now, lag);
      if window.None? then None
      else GrantIf(AllFree(db, txn.req.Hosts(), window.value), db, txn.req, txn.assignment, window.value)
  }

  /** From the cloud's locking on. */
  function LockedVerdict(config: Config, db: Db, txn: Txn, now: Time, lag: nat): Option<Db> {
    var existing := ActiveOf(db.assignments, txn.req.cloud);
    match txn.req
    case Single(_, _, _, _) =>
      if existing.None? || !MayUse(config, db, txn.req, db.assignments[existing.value], now) then None
      else SingleVerdict(config, db, txn.(assignment := existing), now, lag)
    case Batch(_, hostnames, _, newAssignment) =>
      var window := Window(txn.start, txn.end);
      GrantIf(newAssignment == existing.None? && AllFree(db, hostnames, window), db, txn.req, existing, window)
  }

  /** The tables a transaction leaves if it runs on alone, or None if it will be refused. */
  function Verdict(config: Config, db: Db, txn: Txn, now: Time, lag: nat): Option<Db> {
    var hosts, window := txn.req.Hosts(), Window(txn.start, txn.end);
    match txn.pc
    case Entry => RequestResult(config, db, txn.req, now, lag)
    case PreCheck(_) =>
      if txn.refused || txn.req.cloud !in db.clouds then None else LockedVerdict(config, db, txn, now, lag)
    case WantCloud =>
      if txn.req.cloud !in db.clouds then None else LockedVerdict(config, db, txn, now, lag)
    case Decide => LockedVerdict(config, db, txn, now, lag)
    case WantHosts =>
      if txn.req.Single? then SingleVerdict(config, db, txn, now, lag)
      else GrantIf(AllFree(db, hosts, window), db, txn.req, txn.assignment, window)
    case Resolve => if txn.req.Single? then SingleVerdict(config, db, txn, now, lag) else None
    case Check(i) =>
      GrantIf(!txn.refused && (i < |hosts| ==> AllFree(db, hosts[i..], window)), db, txn.req, txn.assignment, window)
    case Commit => Some(Committed(db, txn))
    case Done(_) => None
  }

  /** Only batches are checked before the cloud is locked. */
  predicate WellPlaced(txn: Txn) {
    txn.pc.PreCheck? ==> txn.req.Batch?
  }

  ghost predicate VerdictKept(config: Config, db: Db, txn: Txn, now: Time, lag: nat, effect: Effect) {
    var verdict := Verdict(config, db, txn, now, lag);
    match effect
    case Local(next) => Verdict(config, db, next, now, lag) == verdict && WellPlaced(next)
    case LockCloud(next) => Verdict(config, db, next, now, lag) == verdict && WellPlaced(next)
    case LockHost(_, next) => Verdict(config, db, next, now, lag) == verdict && WellPlaced(next)
    case Rollback => verdict == None
    case CommitRows => verdict == Some(Committed(db, txn))
  }

  lemma EntryKeepsVerdict(config: Config, s: State, txn: Txn, lag: nat)
    requires txn.pc.Entry?
    ensures VerdictKept(config, s.db, txn, s.now, lag, EntryStep(s, txn, lag))
  {
  }

  lemma PreCheckKeepsVerdict(config: Config, s: State, txn: Txn, choice: Choice)
    requires txn.pc.PreCheck? && WellPlaced(txn)
    ensures VerdictKept(config, s.db, txn, s.now, choice.lag, PreCheckStep(Honest, s, txn, choice))
  {
  }

  lemma DecideKeepsVerdict(config: Config, s: State, txn: Txn, lag: nat)
    requires txn.pc.Decide?
    ensures VerdictKept(config, s.db, txn, s.now, lag, DecideStep(config, s, txn))
  {
  }

  lemma HostsKeepVerdict(config: Config, s: State, txn: Txn, lag: nat)
    requires txn.pc.WantHosts?
    ensures VerdictKept(config, s.db, txn, s.now, lag, HostsStep(txn))
  {
    assert txn.req.Hosts()[0..] == txn.req.Hosts();
  }

  lemma ResolveKeepsVerdict(config: Config, s: State, txn: Txn, lag: nat)
    requires txn.pc.Resolve? && txn.req.Single?
    ensures VerdictKept(config, s.db, txn, s.now, lag, ResolveStep(config, s, txn, lag))
  {
    assert txn.req.Hosts()[0..] == txn.req.Hosts();
  }

  lemma CheckKeepsVerdict(config: Config, s: State, txn: Txn, lag: nat)
    requires txn.pc.Check?
    ensures VerdictKept(config, s.db, txn, s.now, lag, CheckStep(s, txn))
  {
    var hosts, i := txn.req.Hosts(), txn.pc.i;
    if i < |hosts| {
      assert hosts[i..] == [hosts[i]] + hosts[i + 1..];
    }
  }

  /** No step changes what the transaction will leave behind, as long as nothing else happens. */
  lemma StepKeepsVerdict(config: Config, s: State, txn: Txn, choice: Choice)
    requires !txn.pc.Done? && WellPlaced(txn)
    ensures VerdictKept(config, s.db, txn, s.now, choice.lag, NextEffect(config, Honest, s, txn, choice))
  {
    match txn.pc
    case Entry => EntryKeepsVerdict(config, s, txn, choice.lag);
    case PreCheck(_) => PreCheckKeepsVerdict(config, s, txn, choice);
    case WantCloud =>
    case Decide => DecideKeepsVerdict(config, s, txn, choice.lag);
    case WantHosts => HostsKeepVerdict(config, s, txn, choice.lag);
    case Resolve =>
      if txn.req.Single? {
        ResolveKeepsVerdict(config, s, txn, choice.lag);
      }
    case Check(_) => CheckKeepsVerdict(config, s, txn, choice.lag);
    case Commit =>
  }

  // ---------------------------------------------------------------- running alone

  /** No other transaction holds a lock. */
  ghost predicate OthersOutside(s: State, t: nat) {
    forall u :: 0 <= u < |s.txns| && u != t ==> !s.txns[u].LocksCloud()
  }

  lemma AloneCanAct(config: Config, s: State, t: nat, choice: Choice)
    requires LocksConsistent(s) && t < |s.txns| && !s.txns[t].pc.Done? && OthersOutside(s, t)
    ensures CanAct(config, Honest, s, t, choice)
  {
    EffectShape(config, Honest, s, s.txns[t], choice);
    forall h | h in s.hostLock
      ensures h !in s.txns[t].waiting
    {
      assert HoldsHost(s, s.hostLock[h], h);
    }
  }

  /** One uninterrupted step: the transaction goes on towards the same verdict, or has ended with it. */
  lemma AloneStep(config: Config, s: State, t: nat, choice: Choice)
    requires LocksConsistent(s) && t < |s.txns| && !s.txns[t].pc.Done? && WellPlaced(s.txns[t]) && OthersOutside(s, t)
    ensures CanAct(config, Honest, s, t, choice)
    ensures var s' := Next(config, Honest, s, Act(t, choice));
            var verdict := Verdict(config, s.db, s.txns[t], s.now, choice.lag);
            && |s'.txns| == |s.txns| && s'.now == s.now && OthersOutside(s', t)
            && if s'.txns[t].pc.Done?
               then s'.txns[t].pc == Done(verdict.Some?) && s'.db == if verdict.Some? then verdict.value else s.db
               else
                 && s'.db == s.db && WellPlaced(s'.txns[t]) && Rank(s'.txns[t]) < Rank(s.txns[t])
                 && Verdict(config, s'.db, s'.txns[t], s'.now, choice.lag) == verdict
  {
    AloneCanAct(config, s, t, choice);
    StepKeepsVerdict(config, s, s.txns[t], choice);
    StepLowersOwnRank(config, Honest, s, s.txns[t], choice);
  }

  /**
   Main result: a transaction whose steps are not interrupted, with no lock held by others, ends; it commits
   exactly when its request may be granted, and leaves exactly the tables that the handler leaves.
   */
  lemma {:induction false} AloneFinishes(config: Config, s: State, t: nat, choice: Choice) returns (events: seq<Event>)
    requires LocksConsistent(s) && t < |s.txns| && !s.txns[t].pc.Done? && WellPlaced(s.txns[t]) && OthersOutside(s, t)
    ensures (forall e :: e in events ==> e == Act(t, choice)) && Possible(config, Honest, s, events)
    ensures var end := Run(config, Honest, s, events);
            var verdict := Verdict(config, s.db, s.txns[t], s.now, choice.lag);
            && |end.txns| == |s.txns| && end.txns[t].pc == Done(verdict.Some?)
            && end.db == (if verdict.Some? then verdict.value else s.db)
            && (s.txns[t].pc.Entry? ==> verdict == RequestResult(config, s.db, s.txns[t].req, s.now, choice.lag))
    decreases Rank(s.txns[t])
  {
    AloneStep(config, s, t, choice);
    var s' := Next(config, Honest, s, Act(t, choice));
    StepKeepsLocks(config, Honest, s, Act(t, choice));
    var rest := [];
    if !s'.txns[t].pc.Done? {
      rest := AloneFinishes(config, s', t, choice);
    }
    events := [Act(t, choice)] + rest;
    assert events[1..] == rest;
  }

  // ---------------------------------------------------------------- an extension among the checks

  predicate RestFree(db: Db, txn: Txn, from: nat) {
    forall k :: from <= k < |txn.req.Hosts()| ==> db.Free(txn.req.Hosts()[k], txn.start, txn.end)
  }

  /** A transaction among its checks will commit, if nothing else happens. */
  predicate WillCommit(db: Db, txn: Txn) {
    txn.pc.Commit? || (txn.pc.Check? && !txn.refused && RestFree(db, txn, txn.pc.i))
  }

  lemma CheckOrCommit(config: Config, mode: PreCheckMode, s: State, t: nat, choice: Choice)
    requires t < |s.txns| && (s.txns[t].pc.Check? || s.txns[t].pc.Commit?)
    ensures CanAct(config, mode, s, t, choice)
    ensures var s', txn := Next(config, mode, s, Act(t, choice)), s.txns[t];
            && |s'.txns| == |s.txns|
            && if s'.txns[t].pc.Done?
               then s'.txns[t].pc == Done(WillCommit(s.db, txn))
                    && s'.db == if WillCommit(s.db, txn) then Committed(s.db, txn) else s.db
               else
                 && s'.db == s.db && (s'.txns[t].pc.Check? || s'.txns[t].pc.Commit?)
                 && Committed(s.db, s'.txns[t]) == Committed(s.db, txn)
                 && WillCommit(s.db, s'.txns[t]) == WillCommit(s.db, txn) && Rank(s'.txns[t]) < Rank(txn)
  {
  }

  /** From its checks on a transaction waits for nothing: its own steps end it, as what is still unchecked decides. */
  lemma {:induction false} ChecksToTheEnd(config: Config, mode: PreCheckMode, s: State, t: nat, choice: Choice)
    returns (events: seq<Event>)
    requires t < |s.txns| && (s.txns[t].pc.Check? || s.txns[t].pc.Commit?)
    ensures (forall e :: e in events ==> e == Act(t, choice)) && Possible(config, mode, s, events)
    ensures var end := Run(config, mode, s, events);
            && |end.txns| == |s.txns| && end.txns[t].pc == Done(WillCommit(s.db, s.txns[t]))
            && end.db == if WillCommit(s.db, s.txns[t]) then Committed(s.db, s.txns[t]) else s.db
    decreases Rank(s.txns[t])
  {
    CheckOrCommit(config, mode, s, t, choice);
    var s' := Next(config, mode, s, Act(t, choice));
    var rest := [];
    if !s'.txns[t].pc.Done? {
      rest := ChecksToTheEnd(config, mode, s', t, choice);
    }
    events := [Act(t, choice)] + rest;
    assert events[1..] == rest;
  }

  /** The final tables of a transaction that an extension has overtaken among its checks. */
  lemma OvertakenCommit(s: State, selected: seq<nat>, target: Edits.Target, t: nat)
    requires Safe(s) && MayExtend(s, selected, target) && t < |s.txns| && Distinct(s.txns[t].req.Hosts())
    requires s.txns[t].pc.Commit? || (s.txns[t].pc.Check? && !s.txns[t].refused)
    requires WillCommit(s.db.AfterExtend(selected, target), s.txns[t]) && Committed(s.db, s.txns[t]) != s.db
    ensures Disjoint(Committed(s.db.AfterExtend(selected, target), s.txns[t]).rows)
            <==> !Disturbs(s.db.rows, selected, target, s.txns[t])
  {
    var txn, db := s.txns[t], s.db.AfterExtend(selected, target);
    assert Checked(s.db, txn);
    ExtendedIsDisjoint(s, selected, target);
    if Disturbs(s.db.rows, selected, target, txn) {
      var i, k :| i in selected && 0 <= k < FoundFree(txn) && ReachesWindow(s.db.rows, i, target, txn, k);
      CommitOverlaps(db, txn, i, k);
    } else {
      ExtendKeepsChecked(s, selected, target, txn);
      CommitKeepsDisjoint(db, Goto(txn, Commit));
    }
  }

  /**
   The exact condition before the commit: after an extension, the own steps of a transaction among its checks end
   in a double booking if and only if the extension reaches into a window it has already found free, and every host
   it has still to check is free after the extension. Otherwise it is refused, or commits safely.
   */
  lemma OvertakenDoubleBooksExactlyWhen(config: Config, mode: PreCheckMode, s: State, selected: seq<nat>,
                                        target: Edits.Target, t: nat, choice: Choice)
    returns (events: seq<Event>)
    requires Safe(s) && Enabled(config, mode, s, Extend(selected, target)) && t < |s.txns|
    requires s.txns[t].pc.Commit? || (s.txns[t].pc.Check? && !s.txns[t].refused)
    requires Distinct(s.txns[t].req.Hosts()) && Committed(s.db, s.txns[t]) != s.db
    ensures var extended := Next(config, mode, s, Extend(selected, target));
            && (forall e :: e in events ==> e == Act(t, choice)) && Possible(config, mode, extended, events)
            && |Run(config, mode, extended, events).txns| == |s.txns|
            && Run(config, mode, extended, events).txns[t].pc.Done?
            && (!Disjoint(Run(config, mode, extended, events).db.rows)
                <==> Disturbs(s.db.rows, selected, target, s.txns[t]) && WillCommit(extended.db, s.txns[t]))
  {
    var extended := Next(config, mode, s, Extend(selected, target));
    events := ChecksToTheEnd(config, mode, extended, t, choice);
    ExtendedIsDisjoint(s, selected, target);
    if WillCommit(extended.db, s.txns[t]) {
      OvertakenCommit(s, selected, target, t);
    }
  }

  // ---------------------------------------------------------------- an extension just before the commit

  /** A request that will be granted reaches its commit, with the tables as they were. */
  lemma {:induction false} AloneReachesCommit(config: Config, s: State, t: nat, choice: Choice)
    returns (events: seq<Event>)
    requires LocksConsistent(s) && t < |s.txns| && !s.txns[t].pc.Done? && WellPlaced(s.txns[t]) && OthersOutside(s, t)
    requires Verdict(config, s.db, s.txns[t], s.now, choice.lag).Some?
    ensures Possible(config, Honest, s, events)
    ensures var end := Run(config, Honest, s, events);
            && end.db == s.db && end.now == s.now && |end.txns| == |s.txns| && end.txns[t].pc.Commit?
            && Some(Committed(s.db, end.txns[t])) == Verdict(config, s.db, s.txns[t], s.now, choice.lag)
    decreases Rank(s.txns[t])
  {
    if s.txns[t].pc.Commit? {
      events := [];
    } else {
      AloneStep(config, s, t, choice);
      EffectShape(config, Honest, s, s.txns[t], choice);
      var s' := Next(config, Honest, s, Act(t, choice));
      StepKeepsLocks(config, Honest, s, Act(t, choice));
      StepKeepsVerdict(config, s, s.txns[t], choice);
      var rest := AloneReachesCommit(config, s', t, choice);
      events := [Act(t, choice)] + rest;
      assert events[1..] == rest;
    }
  }

  lemma {:induction false} RunsConcatenate(config: Config, mode: PreCheckMode, s: State, first: seq<Event>,
                                           second: seq<Event>)
    requires Possible(config, mode, s, first) && Possible(config, mode, Run(config, mode, s, first), second)
    ensures Possible(config, mode, s, first + second)
    ensures Run(config, mode, s, first + second) == Run(config, mode, Run(config, mode, s, first), second)
    decreases |first|
  {
    if first == [] {
      assert first + second == second;
    } else {
      assert (first + second)[1..] == first[1..] + second;
      RunsConcatenate(config, mode, Next(config, mode, s, first[0]), first[1..], second);
    }
  }

  lemma TwoEvents(config: Config, mode: PreCheckMode, s: State, first: Event, second: Event)
    requires Enabled(config, mode, s, first) && Enabled(config, mode, Next(config, mode, s, first), second)
    ensures Possible(config, mode, s, [first, second])
    ensures Run(config, mode, s, [first, second]) == Next(config, mode, Next(config, mode, s, first), second)
  {
    var events, s' := [first, second], Next(config, mode, s, first);
    assert events[1..] == [second] && [second][1..] == [];
    assert Possible(config, mode, Next(config, mode, s', second), []);
    assert Possible(config, mode, s', [second]) && Run(config, mode, s', [second]) == Next(config, mode, s', second);
  }

  lemma ExtendThenCommit(config: Config, s: State, t: nat, choice: Choice, selected: seq<nat>, target: Edits.Target)
    requires t < |s.txns| && s.txns[t].pc.Commit? && MayExtend(s, selected, target)
    ensures var events := [Extend(selected, target), Act(t, choice)];
            && Possible(config, Honest, s, events)
            && Run(config, Honest, s, events).db.rows
               == s.db.AfterExtend(selected, target).rows + Committed(s.db, s.txns[t]).rows[|s.db.rows|..]
  {
    TwoEvents(config, Honest, s, Extend(selected, target), Act(t, choice));
    SameRowsAdded(s.db, s.db.AfterExtend(selected, target).rows, s.txns[t]);
  }

  /** What a commit adds does not depend on the ends of the rows before it. */
  lemma SameRowsAdded(db: Db, rows: seq<Reservation>, txn: Txn)
    requires |rows| == |db.rows|
    ensures Committed(db.(rows := rows), txn).rows == rows + Committed(db, txn).rows[|db.rows|..]
  {
  }

  /**
   An extension accepted now can be made just before any request that may be granted now commits: there is a run
   in which both succeed, and leave the extended rows and the granted ones side by side.
   */
  lemma ExtensionSlipsIn(config: Config, s: State, t: nat, choice: Choice, selected: seq<nat>, target: Edits.Target)
    returns (events: seq<Event>)
    requires LocksConsistent(s) && t < |s.txns| && s.txns[t].pc.Entry? && OthersOutside(s, t)
    requires RequestResult(config, s.db, s.txns[t].req, s.now, choice.lag).Some? && MayExtend(s, selected, target)
    ensures Possible(config, Honest, s, events)
    ensures var granted := RequestResult(config, s.db, s.txns[t].req, s.now, choice.lag).value.rows;
            Run(config, Honest, s, events).db.rows
            == s.db.AfterExtend(selected, target).rows + granted[|s.db.rows|..]
  {
    var first := AloneReachesCommit(config, s, t, choice);
    var ready := Run(config, Honest, s, first);
    var second := [Extend(selected, target), Act(t, choice)];
    ExtendThenCommit(config, ready, t, choice, selected, target);
    RunsConcatenate(config, Honest, s, first, second);
    events := first + second;
  }

  // One host reserved for a day, and an admin's request for the day after.

  const EXAMPLE_DB := Db([Host(1, "", false, false, false, 0, 0)], {2}, [Assignment(2, "", true, false)],
                         [Reservation(0, 1, 0, 0, DAY)])
  const EXAMPLE_REQUEST := Single(2, 1, true, Given(At(DAY), At(2 * DAY)))
  const EXAMPLE_STATE := State(EXAMPLE_DB, map[], map[], 0, [Txn(EXAMPLE_REQUEST, Entry, {}, None, 0, 0, false)])

  lemma ExampleIsInitial()
    ensures Initial(EXAMPLE_STATE) && NoRepeatedHosts(EXAMPLE_STATE)
    ensures LocksConsistent(EXAMPLE_STATE) && OthersOutside(EXAMPLE_STATE, 0)
  {
  }

  lemma ExampleIsGranted(config: Config)
    ensures RequestResult(config, EXAMPLE_DB, EXAMPLE_REQUEST, 0, 0)
            == Some(Booked(EXAMPLE_DB, EXAMPLE_REQUEST, Some(0), DAY, 2 * DAY))
  {
    var db := EXAMPLE_DB;
    assert FindHost(db.hosts, 1) == Some(db.hosts[0]);
    assert AllFree(db, [1], Window(DAY, 2 * DAY));
  }

  lemma ExampleIsExtendable()
    ensures MayExtend(EXAMPLE_STATE, [0], Edits.Weeks(1))
  {
    var db, r := EXAMPLE_DB, EXAMPLE_DB.rows[0];
    assert FindHost(db.hosts, 1) == Some(db.hosts[0]);
    assert r in db.rows && Edits.ExtendedEnd(r, Edits.Weeks(1)) == 8 * DAY;
    assert Edits.Extendable(db.hosts, db.rows, r, Edits.Weeks(1));
  }

  lemma ExampleOverlaps()
    ensures !Disjoint(EXAMPLE_DB.AfterExtend([0], Edits.Weeks(1)).rows
                      + Booked(EXAMPLE_DB, EXAMPLE_REQUEST, Some(0), DAY, 2 * DAY).rows[1..])
  {
    var extended := EXAMPLE_DB.AfterExtend([0], Edits.Weeks(1)).rows;
    var granted := Booked(EXAMPLE_DB, EXAMPLE_REQUEST, Some(0), DAY, 2 * DAY).rows;
    assert Edits.ExtendedEnd(EXAMPLE_DB.rows[0], Edits.Weeks(1)) == 8 * DAY;
    assert extended[0] == Reservation(0, 1, 0, 0, 8 * DAY) && granted[1] == Reservation(1, 1, 0, DAY, 2 * DAY);
    var rows := extended + granted[1..];
    assert rows[0] == extended[0] && rows[1] == granted[1] && Overlap(rows[0], rows[1]);
  }

  /** So an extension and a request for the time after it, both asked for now, can end in a double booking. */
  lemma SlippedInExtensionDoubleBooks(config: Config) returns (events: seq<Event>)
    ensures Initial(EXAMPLE_STATE) && NoRepeatedHosts(EXAMPLE_STATE)
    ensures Possible(config, Honest, EXAMPLE_STATE, events)
    ensures !Disjoint(Run(config, Honest, EXAMPLE_STATE, events).db.rows)
  {
    ExampleIsInitial();
    ExampleIsGranted(config);
    ExampleIsExtendable();
    ExampleOverlaps();
    events := ExtensionSlipsIn(config, EXAMPLE_STATE, 0, Choice(false, 0), [0], Edits.Weeks(1));
    assert |EXAMPLE_DB.rows| == 1;
    assert Run(config, Honest, EXAMPLE_STATE, events).db.rows
           == EXAMPLE_DB.AfterExtend([0], Edits.Weeks(1)).rows
              + Booked(EXAMPLE_DB, EXAMPLE_REQUEST, Some(0), DAY, 2 * DAY).rows[1..];
  }
}
