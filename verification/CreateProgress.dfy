/** Progress of the create protocol: it never deadlocks, and every transaction ends after a bounded number of steps. */
module CreateProgress {
  import opened Reservations
  import opened CreateProtocol
  import opened CreateSafety

  // ---------------------------------------------------------------- no deadlock

  ghost predicate WaitsForHost(s: State, t: nat, h: HostName) {
    && t < |s.txns| && s.txns[t].pc.WantHosts?
    && s.txns[t].waiting != {} && h == Lowest(s.txns[t].waiting)
    && h in s.hostLock
  }

  ghost predicate SomeoneCanAct(config: Config, mode: PreCheckMode, s: State) {
    exists t, choice :: CanAct(config, mode, s, t, choice)
  }

  /** The locked hosts after a given one in name order. */
  ghost function LockedAfter(s: State, h: HostName): set<HostName> {
    set g | g in s.hostLock.Keys && g > h
  }

  lemma FewerLockedAfter(s: State, h: HostName, g: HostName)
    requires g in s.hostLock && g > h
    ensures LockedAfter(s, g) < LockedAfter(s, h)
  {
    assert g in LockedAfter(s, h) && g !in LockedAfter(s, g);
  }

  /** The holder of a host lock can step, or waits for a host later in name order; the chain must end. */
  lemma {:induction false} HolderCanAct(config: Config, mode: PreCheckMode, s: State, h: HostName)
    requires LocksConsistent(s) && h in s.hostLock
    ensures SomeoneCanAct(config, mode, s)
    decreases LockedAfter(s, h)
  {
    var u := s.hostLock[h];
    assert HoldsHost(s, u, h);
    BlockedOnlyByLocks(config, mode, s, u);
    if !CanAct(config, mode, s, u, Choice(false, 0)) {
      var g :| WaitsForHost(s, u, g);
      FewerLockedAfter(s, h, g);
      HolderCanAct(config, mode, s, g);
    }
  }

  /** A transaction either can step, waits for a locked host, or waits for a locked cloud. */
  lemma BlockedOnlyByLocks(config: Config, mode: PreCheckMode, s: State, t: nat)
    requires t < |s.txns| && !s.txns[t].pc.Done?
    ensures || CanAct(config, mode, s, t, Choice(false, 0))
            || (exists h :: WaitsForHost(s, t, h))
            || (s.txns[t].pc.WantCloud? && s.txns[t].req.cloud in s.cloudLock)
  {
    if s.txns[t].pc.WantHosts? && s.txns[t].waiting != {} && Lowest(s.txns[t].waiting) in s.hostLock {
      assert WaitsForHost(s, t, Lowest(s.txns[t].waiting));
    }
  }

  lemma NoDeadlock(config: Config, mode: PreCheckMode, s: State, t: nat)
    requires LocksConsistent(s) && t < |s.txns| && !s.txns[t].pc.Done?
    ensures SomeoneCanAct(config, mode, s)
  {
    BlockedOnlyByLocks(config, mode, s, t);
    if exists h :: WaitsForHost(s, t, h) {
      var h :| WaitsForHost(s, t, h);
      HolderCanAct(config, mode, s, h);
    } else if s.txns[t].pc.WantCloud? && s.txns[t].req.cloud in s.cloudLock {
      var u := s.cloudLock[s.txns[t].req.cloud];
      BlockedOnlyByLocks(config, mode, s, u);
      if exists h :: WaitsForHost(s, u, h) {
        var h :| WaitsForHost(s, u, h);
        HolderCanAct(config, mode, s, h);
      }
    }
  }

  // ---------------------------------------------------------------- bounded work

  /** An upper bound on the steps a transaction still takes. */
  function Rank(txn: Txn): nat {
    var n := |txn.req.Hosts()|;
    match txn.pc
    case Entry => 8 + 3 * n
    case PreCheck(i) => 7 + 2 * n + (if i <= n then n - i else 0)
    case WantCloud => 6 + 2 * n
    case Decide => 5 + 2 * n
    case WantHosts => 4 + n + |txn.waiting|
    case Resolve => 3 + n
    case Check(i) => 2 + (if i <= n then n - i else 0)
    case Commit => 1
    case Done(_) => 0
  }

  function TotalRank(txns: seq<Txn>): nat {
    if txns == [] then 0 else Rank(txns[0]) + TotalRank(txns[1..])
  }

  lemma {:induction false} TotalRankUpdate(txns: seq<Txn>, t: nat, next: Txn)
    requires t < |txns|
    ensures TotalRank(txns[t := next]) + Rank(txns[t]) == TotalRank(txns) + Rank(next)
  {
    var txns' := txns[t := next];
    if t == 0 {
      assert txns'[1..] == txns[1..];
    } else {
      assert txns'[1..] == txns[1..][t - 1 := next];
      TotalRankUpdate(txns[1..], t - 1, next);
    }
  }

  lemma {:induction false} FewRowsToLock(db: Db, hosts: seq<HostName>)
    ensures |set h | h in hosts && db.Knows(h)| <= |hosts|
  {
    if hosts != [] {
      var rest := set h | h in hosts[1..] && db.Knows(h);
      var all := set h | h in hosts && db.Knows(h);
      FewRowsToLock(db, hosts[1..]);
      if db.Knows(hosts[0]) {
        assert all == rest + {hosts[0]};
      } else {
        assert all == rest;
      }
    }
  }

  /** The transaction's value after a step, if the step does not end it, has a lower rank. */
  ghost predicate Lowers(effect: Effect, rank: nat) {
    match effect
    case Local(next) => Rank(next) < rank
    case LockCloud(next) => Rank(next) < rank
    case LockHost(_, next) => Rank(next) < rank
    case Rollback => 0 < rank
    case CommitRows => 0 < rank
  }

  lemma DecideLowers(config: Config, s: State, txn: Txn)
    requires txn.pc.Decide?
    ensures Lowers(DecideStep(config, s, txn), Rank(txn))
  {
    FewRowsToLock(s.db, txn.req.Hosts());
  }

  lemma HostsLowers(txn: Txn)
    requires txn.pc.WantHosts?
    ensures Lowers(HostsStep(txn), Rank(txn))
  {
    if txn.waiting != {} {
      assert |txn.waiting - {Lowest(txn.waiting)}| < |txn.waiting|;
    }
  }

  lemma ResolveLowers(config: Config, s: State, txn: Txn, lag: nat)
    requires txn.pc.Resolve? && txn.req.Single?
    ensures Lowers(ResolveStep(config, s, txn, lag), Rank(txn))
  {
  }

  lemma EntryLowers(s: State, txn: Txn, lag: nat)
    requires txn.pc.Entry?
    ensures Lowers(EntryStep(s, txn, lag), Rank(txn))
  {
  }

  lemma ChecksLower(mode: PreCheckMode, s: State, txn: Txn, choice: Choice)
    ensures txn.pc.PreCheck? ==> Lowers(PreCheckStep(mode, s, txn, choice), Rank(txn))
    ensures txn.pc.Check? ==> Lowers(CheckStep(s, txn), Rank(txn))
  {
  }

  /** A step that neither commits nor rolls back moves its transaction closer to the end. */
  lemma StepLowersOwnRank(config: Config, mode: PreCheckMode, s: State, txn: Txn, choice: Choice)
    requires !txn.pc.Done?
    ensures Lowers(NextEffect(config, mode, s, txn, choice), Rank(txn))
  {
    match txn.pc
    case Entry => EntryLowers(s, txn, choice.lag);
    case PreCheck(_) => ChecksLower(mode, s, txn, choice);
    case WantCloud =>
    case Decide => DecideLowers(config, s, txn);
    case WantHosts => HostsLowers(txn);
    case Resolve =>
      if txn.req.Single? {
        ResolveLowers(config, s, txn, choice.lag);
      }
    case Check(_) => ChecksLower(mode, s, txn, choice);
    case Commit =>
  }

  lemma StepLowersRank(config: Config, mode: PreCheckMode, s: State, t: nat, choice: Choice)
    requires CanAct(config, mode, s, t, choice)
    ensures TotalRank(Next(config, mode, s, Act(t, choice)).txns) < TotalRank(s.txns)
  {
    var effect := NextEffect(config, mode, s, s.txns[t], choice);
    var next := if effect.Local? || effect.LockCloud? || effect.LockHost? then effect.next
                else Goto(s.txns[t], Done(effect.CommitRows?));
    StepLowersOwnRank(config, mode, s, s.txns[t], choice);
    assert Next(config, mode, s, Act(t, choice)).txns == s.txns[t := next];
    TotalRankUpdate(s.txns, t, next);
  }

  function ActCount(events: seq<Event>): nat {
    if events == [] then 0 else (if events[0].Act? then 1 else 0) + ActCount(events[1..])
  }

  /** However the run is scheduled, its transactions take no more steps than their initial rank. */
  lemma {:induction false} StepsAreBounded(config: Config, mode: PreCheckMode, s: State, events: seq<Event>)
    requires Possible(config, mode, s, events)
    ensures ActCount(events) + TotalRank(Run(config, mode, s, events).txns) <= TotalRank(s.txns)
    decreases |events|
  {
    if events != [] {
      var s' := Next(config, mode, s, events[0]);
      if events[0].Act? {
        StepLowersRank(config, mode, s, events[0].t, events[0].choice);
      }
      StepsAreBounded(config, mode, s', events[1..]);
    }
  }

  lemma {:induction false} RunKeepsLocks(config: Config, mode: PreCheckMode, s: State, events: seq<Event>)
    requires LocksConsistent(s) && Possible(config, mode, s, events)
    ensures LocksConsistent(Run(config, mode, s, events))
    decreases |events|
  {
    if events != [] {
      StepKeepsLocks(config, mode, s, events[0]);
      RunKeepsLocks(config, mode, Next(config, mode, s, events[0]), events[1..]);
    }
  }

  ghost predicate AllDone(s: State) {
    forall t :: 0 <= t < |s.txns| ==> s.txns[t].pc.Done?
  }

  /** From any state with consistent locks, steps of the transactions alone finish every one of them. */
  lemma {:induction false} CanFinish(config: Config, mode: PreCheckMode, s: State) returns (events: seq<Event>)
    requires LocksConsistent(s)
    ensures (forall e :: e in events ==> e.Act?) && |events| <= TotalRank(s.txns)
    ensures Possible(config, mode, s, events) && AllDone(Run(config, mode, s, events))
    decreases TotalRank(s.txns)
  {
    if AllDone(s) {
      events := [];
    } else {
      var u :| 0 <= u < |s.txns| && !s.txns[u].pc.Done?;
      NoDeadlock(config, mode, s, u);
      var t, choice :| CanAct(config, mode, s, t, choice);
      StepLowersRank(config, mode, s, t, choice);
      StepKeepsLocks(config, mode, s, Act(t, choice));
      var rest := CanFinish(config, mode, Next(config, mode, s, Act(t, choice)));
      events := [Act(t, choice)] + rest;
      assert events[1..] == rest;
    }
  }

  /**
   Main result. Every run, however it has gone so far, can be continued by steps of its transactions alone until
   each has committed or rolled back; and over the whole of a run the transactions take no more steps than their
   initial rank, so no run keeps them busy for ever.
   */
  lemma EveryTransactionFinishes(config: Config, mode: PreCheckMode, s: State, events: seq<Event>)
    returns (more: seq<Event>)
    requires Initial(s) && Possible(config, mode, s, events)
    ensures var reached := Run(config, mode, s, events);
            && (forall e :: e in more ==> e.Act?)
            && Possible(config, mode, reached, more) && AllDone(Run(config, mode, reached, more))
            && ActCount(events) + |more| <= TotalRank(s.txns)
            && (SomeoneCanAct(config, mode, reached) <==> !AllDone(reached))
  {
    RunKeepsLocks(config, mode, s, events);
    StepsAreBounded(config, mode, s, events);
    var reached := Run(config, mode, s, events);
    if !AllDone(reached) {
      var t :| 0 <= t < |reached.txns| && !reached.txns[t].pc.Done?;
      NoDeadlock(config, mode, reached, t);
    }
    more := CanFinish(config, mode, reached);
  }
}
