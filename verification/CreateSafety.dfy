/** Safety of the create protocol: over every run, no host is ever reserved twice for one instant. */
module CreateSafety {
  import opened Wrappers
  import opened Reservations
  import opened CreateProtocol
  import Edits

  // ---------------------------------------------------------------- the lock discipline

  ghost predicate HoldsHost(s: State, t: nat, h: HostName) {
    && t < |s.txns|
    && s.txns[t].LocksHosts()
    && h !in s.txns[t].waiting
    && forall g :: g in s.txns[t].waiting ==> h < g
  }

  ghost predicate CloudLocksHeld(s: State) {
    && (forall c :: c in s.cloudLock ==>
          && s.cloudLock[c] < |s.txns|
          && s.txns[s.cloudLock[c]].LocksCloud()
          && s.txns[s.cloudLock[c]].req.cloud == c)
    && (forall t :: 0 <= t < |s.txns| && s.txns[t].LocksCloud() ==>
          s.txns[t].req.cloud in s.cloudLock && s.cloudLock[s.txns[t].req.cloud] == t)
  }

  ghost predicate HostLocksHeld(s: State) {
    && (forall h :: h in s.hostLock ==> HoldsHost(s, s.hostLock[h], h))
    && (forall t, h :: 0 <= t < |s.txns| && s.txns[t].LocksHosts() && h in RowsToLock(s.db, s.txns[t].req) ==>
          h in s.txns[t].waiting || (h in s.hostLock && s.hostLock[h] == t))
  }

  ghost predicate WaitingSound(s: State) {
    forall t :: 0 <= t < |s.txns| && s.txns[t].LocksHosts() ==>
      && s.txns[t].waiting <= RowsToLock(s.db, s.txns[t].req)
      && (s.txns[t].AllLocked() ==> s.txns[t].waiting == {})
  }

  /** Locks are held by exactly the transactions between taking and releasing them. */
  ghost predicate LocksConsistent(s: State) {
    CloudLocksHeld(s) && HostLocksHeld(s) && WaitingSound(s)
  }

  /** What a transaction has established when it reaches a step; its host locks keep it true. */
  ghost predicate Checked(db: Db, txn: Txn) {
    var hosts := txn.req.Hosts();
    && (txn.req.Batch? && !txn.pc.Entry? && !txn.pc.Done? ==> txn.start < txn.end)
    && (txn.pc.Check? ==>
          && txn.start < txn.end
          && txn.pc.i <= |hosts|
          && (!txn.refused ==> forall k :: 0 <= k < txn.pc.i ==> db.Free(hosts[k], txn.start, txn.end)))
    && (txn.pc.Commit? ==>
          && txn.start < txn.end
          && forall k :: 0 <= k < |hosts| ==> db.Free(hosts[k], txn.start, txn.end))
  }

  ghost predicate Safe(s: State) {
    && LocksConsistent(s)
    && Disjoint(s.db.rows) && Ordered(s.db.rows)
    && forall t :: 0 <= t < |s.txns| ==> Checked(s.db, s.txns[t])
  }

  // ---------------------------------------------------------------- every step keeps the locks consistent

  /** How the transaction that steps relates to its next value, for steps that neither take nor drop a lock. */
  ghost predicate KeepsLocks(db: Db, txn: Txn, next: Txn) {
    && next.req == txn.req
    && next.LocksCloud() == txn.LocksCloud()
    && (txn.LocksHosts() ==> next.LocksHosts() && next.waiting == txn.waiting)
    && (next.LocksHosts() ==>
          && (!txn.LocksHosts() ==> next.waiting == RowsToLock(db, next.req))
          && (next.AllLocked() ==> next.waiting == {}))
  }

  lemma LocalStepsKeepLocks(config: Config, mode: PreCheckMode, s: State, t: nat, choice: Choice)
    requires LocksConsistent(s) && t < |s.txns| && !s.txns[t].pc.Done?
    requires NextEffect(config, mode, s, s.txns[t], choice).Local?
    ensures KeepsLocks(s.db, s.txns[t], NextEffect(config, mode, s, s.txns[t], choice).next)
  {
  }

  lemma LocalKeepsLocks(s: State, t: nat, next: Txn)
    requires LocksConsistent(s) && t < |s.txns| && KeepsLocks(s.db, s.txns[t], next)
    ensures LocksConsistent(ApplyEffect(s, t, Local(next)))
  {
    var s' := s.(txns := s.txns[t := next]);
    assert CloudLocksHeld(s');
    assert WaitingSound(s');
    HostLocksFrame(s, s');
  }

  lemma LockCloudKeepsLocks(s: State, t: nat)
    requires LocksConsistent(s) && t < |s.txns| && s.txns[t].pc.WantCloud? && s.txns[t].req.cloud !in s.cloudLock
    ensures LocksConsistent(ApplyEffect(s, t, LockCloud(Goto(s.txns[t], Decide))))
  {
    var next := Goto(s.txns[t], Decide);
    var s' := s.(txns := s.txns[t := next], cloudLock := s.cloudLock[next.req.cloud := t]);
    assert CloudLocksHeld(s');
    assert WaitingSound(s');
    HostLocksFrame(s, s');
  }

  /** Host locks stay consistent when each transaction keeps its request, its waiting set and its host phase. */
  lemma HostLocksFrame(s: State, s': State)
    requires HostLocksHeld(s) && |s'.txns| == |s.txns|
    requires s'.hostLock == s.hostLock && s'.db.hosts == s.db.hosts
    requires forall u :: 0 <= u < |s.txns| ==>
      && s'.txns[u].req == s.txns[u].req
      && (s.txns[u].LocksHosts() ==> s'.txns[u].LocksHosts() && s'.txns[u].waiting == s.txns[u].waiting)
      && (s'.txns[u].LocksHosts() && !s.txns[u].LocksHosts() ==>
            s'.txns[u].waiting == RowsToLock(s.db, s.txns[u].req))
    ensures HostLocksHeld(s')
  {
    forall h | h in s'.hostLock
      ensures HoldsHost(s', s'.hostLock[h], h)
    {
      assert HoldsHost(s, s.hostLock[h], h);
    }
    forall u, h | 0 <= u < |s'.txns| && s'.txns[u].LocksHosts() && h in RowsToLock(s'.db, s'.txns[u].req)
      ensures h in s'.txns[u].waiting || (h in s'.hostLock && s'.hostLock[h] == u)
    {
      assert h in RowsToLock(s.db, s.txns[u].req);
    }
  }

  lemma LockHostKeepsHostLocks(s: State, t: nat, h: HostName)
    requires HostLocksHeld(s) && t < |s.txns| && s.txns[t].pc.WantHosts?
    requires s.txns[t].waiting != {} && h == Lowest(s.txns[t].waiting) && h !in s.hostLock
    ensures HostLocksHeld(ApplyEffect(s, t, LockHost(h, s.txns[t].(waiting := s.txns[t].waiting - {h}))))
  {
    var next := s.txns[t].(waiting := s.txns[t].waiting - {h});
    var s' := s.(txns := s.txns[t := next], hostLock := s.hostLock[h := t]);
    forall g | g in s'.hostLock
      ensures HoldsHost(s', s'.hostLock[g], g)
    {
      if g == h {
        assert forall k :: k in next.waiting ==> k in s.txns[t].waiting && k != h;
      } else {
        assert HoldsHost(s, s.hostLock[g], g);
      }
    }
    forall u, g | 0 <= u < |s'.txns| && s'.txns[u].LocksHosts() && g in RowsToLock(s'.db, s'.txns[u].req)
      ensures g in s'.txns[u].waiting || (g in s'.hostLock && s'.hostLock[g] == u)
    {
      assert s.txns[u].LocksHosts() && g in RowsToLock(s.db, s.txns[u].req);
    }
  }

  lemma LockHostKeepsCloudLocks(s: State, t: nat, h: HostName)
    requires CloudLocksHeld(s) && t < |s.txns| && s.txns[t].pc.WantHosts?
    ensures CloudLocksHeld(ApplyEffect(s, t, LockHost(h, s.txns[t].(waiting := s.txns[t].waiting - {h}))))
  {
  }

  lemma LockHostKeepsWaiting(s: State, t: nat, h: HostName)
    requires WaitingSound(s) && t < |s.txns| && s.txns[t].pc.WantHosts?
    ensures WaitingSound(ApplyEffect(s, t, LockHost(h, s.txns[t].(waiting := s.txns[t].waiting - {h}))))
  {
    var s' := ApplyEffect(s, t, LockHost(h, s.txns[t].(waiting := s.txns[t].waiting - {h})));
    forall u | 0 <= u < |s'.txns| && s'.txns[u].LocksHosts()
      ensures s'.txns[u].waiting <= RowsToLock(s'.db, s'.txns[u].req)
    {
      assert s'.txns[u].waiting <= s.txns[u].waiting;
    }
  }

  lemma LockHostKeepsLocks(s: State, t: nat, h: HostName)
    requires LocksConsistent(s) && t < |s.txns| && s.txns[t].pc.WantHosts?
    requires s.txns[t].waiting != {} && h == Lowest(s.txns[t].waiting) && h !in s.hostLock
    ensures LocksConsistent(ApplyEffect(s, t, LockHost(h, s.txns[t].(waiting := s.txns[t].waiting - {h}))))
  {
    LockHostKeepsHostLocks(s, t, h);
    LockHostKeepsCloudLocks(s, t, h);
    LockHostKeepsWaiting(s, t, h);
  }

  lemma FinishKeepsCloudLocks(s: State, t: nat, db: Db, ok: bool)
    requires CloudLocksHeld(s) && t < |s.txns|
    ensures CloudLocksHeld(Finish(s, t, db, ok))
  {
  }

  lemma FinishKeepsHostLocks(s: State, t: nat, db: Db, ok: bool)
    requires HostLocksHeld(s) && t < |s.txns| && db.hosts == s.db.hosts
    ensures HostLocksHeld(Finish(s, t, db, ok))
  {
    var s' := Finish(s, t, db, ok);
    forall h | h in s'.hostLock
      ensures HoldsHost(s', s'.hostLock[h], h)
    {
      assert HoldsHost(s, s.hostLock[h], h);
    }
    forall u, h | 0 <= u < |s'.txns| && s'.txns[u].LocksHosts() && h in RowsToLock(s'.db, s'.txns[u].req)
      ensures h in s'.txns[u].waiting || (h in s'.hostLock && s'.hostLock[h] == u)
    {
      assert h in RowsToLock(s.db, s.txns[u].req);
    }
  }

  lemma FinishKeepsLocks(s: State, t: nat, db: Db, ok: bool)
    requires LocksConsistent(s) && t < |s.txns| && db.hosts == s.db.hosts
    ensures LocksConsistent(Finish(s, t, db, ok))
  {
    FinishKeepsCloudLocks(s, t, db, ok);
    FinishKeepsHostLocks(s, t, db, ok);
    WaitingFrame(s, Finish(s, t, db, ok));
  }

  lemma WaitingFrame(s: State, s': State)
    requires WaitingSound(s) && |s'.txns| == |s.txns| && s'.db.hosts == s.db.hosts
    requires forall u :: 0 <= u < |s.txns| ==> s'.txns[u] == s.txns[u] || !s'.txns[u].LocksHosts()
    ensures WaitingSound(s')
  {
    forall u | 0 <= u < |s'.txns| && s'.txns[u].LocksHosts()
      ensures s'.txns[u].waiting <= RowsToLock(s'.db, s'.txns[u].req)
    {
      assert RowsToLock(s'.db, s'.txns[u].req) == RowsToLock(s.db, s.txns[u].req);
    }
  }

  lemma TablesKeepLocks(s: State, db: Db, now: Time)
    requires LocksConsistent(s) && db.hosts == s.db.hosts
    ensures LocksConsistent(s.(db := db, now := now))
  {
    var s' := s.(db := db, now := now);
    WaitingFrame(s, s');
    HostLocksFrame(s, s');
  }

  /** Which step takes which lock, and when a step commits. */
  lemma EffectShape(config: Config, mode: PreCheckMode, s: State, txn: Txn, choice: Choice)
    requires !txn.pc.Done?
    ensures match NextEffect(config, mode, s, txn, choice)
            case LockCloud(next) => txn.pc.WantCloud? && next == Goto(txn, Decide)
            case LockHost(h, next) =>
              && txn.pc.WantHosts? && txn.waiting != {} && h == Lowest(txn.waiting)
              && next == txn.(waiting := txn.waiting - {h})
            case CommitRows => txn.pc.Commit?
            case _ => true
  {
  }

  lemma ActKeepsLocks(config: Config, mode: PreCheckMode, s: State, t: nat, choice: Choice)
    requires LocksConsistent(s) && CanAct(config, mode, s, t, choice)
    ensures LocksConsistent(ApplyEffect(s, t, NextEffect(config, mode, s, s.txns[t], choice)))
  {
    var effect := NextEffect(config, mode, s, s.txns[t], choice);
    EffectShape(config, mode, s, s.txns[t], choice);
    match effect
    case Local(next) =>
      LocalStepsKeepLocks(config, mode, s, t, choice);
      LocalKeepsLocks(s, t, next);
    case LockCloud(_) => LockCloudKeepsLocks(s, t);
    case LockHost(h, _) => LockHostKeepsLocks(s, t, h);
    case Rollback => FinishKeepsLocks(s, t, s.db, false);
    case CommitRows => FinishKeepsLocks(s, t, Committed(s.db, s.txns[t]), true);
  }

  lemma StepKeepsLocks(config: Config, mode: PreCheckMode, s: State, e: Event)
    requires LocksConsistent(s) && Enabled(config, mode, s, e)
    ensures LocksConsistent(Next(config, mode, s, e))
  {
    match e
    case Act(t, choice) => ActKeepsLocks(config, mode, s, t, choice);
    case Tick(_) => TablesKeepLocks(s, s.db, Next(config, mode, s, e).now);
    case Cut(_, _) => TablesKeepLocks(s, Next(config, mode, s, e).db, s.now);
    case Deactivate(_) => TablesKeepLocks(s, Next(config, mode, s, e).db, s.now);
    case Extend(_, _) => TablesKeepLocks(s, Next(config, mode, s, e).db, s.now);
  }

  // ---------------------------------------------------------------- every step keeps the store safe

  /** What a step leaves of its own transaction, if it goes on, is checked. */
  ghost predicate LeavesChecked(db: Db, effect: Effect) {
    match effect
    case Local(next) => Checked(db, next)
    case LockCloud(next) => Checked(db, next)
    case LockHost(_, next) => Checked(db, next)
    case _ => true
  }

  lemma EntryIsChecked(s: State, txn: Txn, lag: nat)
    requires txn.pc.Entry? && Checked(s.db, txn)
    ensures LeavesChecked(s.db, EntryStep(s, txn, lag))
  {
  }

  lemma DecideIsChecked(config: Config, s: State, txn: Txn)
    requires txn.pc.Decide? && Checked(s.db, txn)
    ensures LeavesChecked(s.db, DecideStep(config, s, txn))
  {
  }

  lemma ResolveIsChecked(config: Config, s: State, txn: Txn, lag: nat)
    requires txn.pc.Resolve? && txn.req.Single? && Checked(s.db, txn)
    ensures LeavesChecked(s.db, ResolveStep(config, s, txn, lag))
  {
  }

  lemma CheckIsChecked(s: State, txn: Txn)
    requires txn.pc.Check? && Checked(s.db, txn)
    ensures LeavesChecked(s.db, CheckStep(s, txn))
  {
  }

  lemma StepOfOwnTxnIsChecked(config: Config, mode: PreCheckMode, s: State, t: nat, choice: Choice)
    requires t < |s.txns| && !s.txns[t].pc.Done? && Checked(s.db, s.txns[t])
    ensures LeavesChecked(s.db, NextEffect(config, mode, s, s.txns[t], choice))
  {
    var txn := s.txns[t];
    match txn.pc
    case Entry => EntryIsChecked(s, txn, choice.lag);
    case Decide => DecideIsChecked(config, s, txn);
    case Resolve =>
      if txn.req.Single? {
        ResolveIsChecked(config, s, txn, choice.lag);
      }
    case Check(_) => CheckIsChecked(s, txn);
    case _ =>
  }

  /** A committed batch or single request adds rows on hosts that were free, each host once. */
  lemma CommitKeepsDisjoint(db: Db, txn: Txn)
    requires Disjoint(db.rows) && Ordered(db.rows)
    requires txn.pc.Commit? && Checked(db, txn) && Distinct(txn.req.Hosts())
    ensures Disjoint(Committed(db, txn).rows) && Ordered(Committed(db, txn).rows)
  {
    if Committed(db, txn).rows != db.rows {
      var id := if txn.req.Batch? && txn.req.newAssignment then |db.assignments| else txn.assignment.value;
      InsertKeepsDisjoint(db.rows, NewRows(db, txn.req.Hosts(), id, txn.start, txn.end));
    }
  }

  /** A host a transaction found free is locked by it, so no other transaction's commit touches it. */
  lemma CommitLeavesOthersFree(s: State, t: nat, u: nat, h: HostName)
    requires LocksConsistent(s) && t < |s.txns| && u < |s.txns| && t != u
    requires s.txns[t].pc.Commit? && Checked(s.db, s.txns[t])
    requires s.txns[u].AllLocked() && h in s.txns[u].req.Hosts() && s.db.Free(h, s.txns[u].start, s.txns[u].end)
    ensures Committed(s.db, s.txns[t]).Free(h, s.txns[u].start, s.txns[u].end)
  {
    assert h in RowsToLock(s.db, s.txns[u].req);
    assert s.hostLock[h] == u;
    var db' := Committed(s.db, s.txns[t]);
    var hosts := s.txns[t].req.Hosts();
    forall k | 0 <= k < |hosts|
      ensures hosts[k] != h
    {
      assert s.db.Free(hosts[k], s.txns[t].start, s.txns[t].end);
      assert hosts[k] in RowsToLock(s.db, s.txns[t].req);
    }
    assert forall r :: r in db'.rows && r.host == h ==> r in s.db.rows;
  }

  lemma CommitKeepsSafe(s: State, t: nat)
    requires Safe(s) && t < |s.txns| && s.txns[t].pc.Commit? && Distinct(s.txns[t].req.Hosts())
    ensures Safe(ApplyEffect(s, t, CommitRows))
  {
    var s' := ApplyEffect(s, t, CommitRows);
    FinishKeepsLocks(s, t, s'.db, true);
    CommitKeepsDisjoint(s.db, s.txns[t]);
    forall u | 0 <= u < |s'.txns|
      ensures Checked(s'.db, s'.txns[u])
    {
      if u != t {
        var hosts := s.txns[u].req.Hosts();
        assert Checked(s.db, s.txns[u]);
        forall k | 0 <= k < |hosts| && s.txns[u].AllLocked() && s.db.Free(hosts[k], s.txns[u].start, s.txns[u].end)
          ensures s'.db.Free(hosts[k], s.txns[u].start, s.txns[u].end)
        {
          CommitLeavesOthersFree(s, t, u, hosts[k]);
        }
      }
    }
  }

  lemma CutKeepsSafe(s: State, row: nat, end: Time)
    requires Safe(s) && row < |s.db.rows| && s.db.rows[row].start <= end <= s.db.rows[row].end
    ensures Safe(s.(db := s.db.(rows := s.db.rows[row := s.db.rows[row].(end := end)])))
  {
    var db' := s.db.(rows := s.db.rows[row := s.db.rows[row].(end := end)]);
    TablesKeepLocks(s, db', s.now);
    forall h: HostName, a: Time, b: Time | a < b && s.db.Free(h, a, b)
      ensures db'.Free(h, a, b)
    {
      forall r | r in db'.rows && r.host == h
        ensures !Blocks(r, a, b)
      {
        var i :| 0 <= i < |db'.rows| && db'.rows[i] == r;
        assert s.db.rows[i] in s.db.rows && !Blocks(s.db.rows[i], a, b);
        BlocksMeansSharedInstant(s.db.rows[i], a, b);
        BlocksMeansSharedInstant(r, a, b);
      }
    }
  }

  // ---------------------------------------------------------------- extensions, which take no host lock

  /** A host that was free for a window stays free exactly when no extended row of it reaches into the window. */
  lemma FreeAfterExtend(s: State, selected: seq<nat>, target: Edits.Target, txn: Txn, k: nat)
    requires Ordered(s.db.rows) && MayExtend(s, selected, target) && k < |txn.req.Hosts()| && txn.start < txn.end
    requires s.db.Free(txn.req.Hosts()[k], txn.start, txn.end)
    ensures s.db.AfterExtend(selected, target).Free(txn.req.Hosts()[k], txn.start, txn.end)
            <==> forall i :: i in selected ==> !ReachesWindow(s.db.rows, i, target, txn, k)
  {
    var rows, rows', host := s.db.rows, s.db.AfterExtend(selected, target).rows, txn.req.Hosts()[k];
    forall i | 0 <= i < |rows| && rows[i].host == host
      ensures Blocks(rows'[i], txn.start, txn.end) <==> i in selected && ReachesWindow(rows, i, target, txn, k)
      ensures rows'[i] in rows'
    {
      assert rows[i] in rows && !Blocks(rows[i], txn.start, txn.end);
      BlocksMeansSharedInstant(rows'[i], txn.start, txn.end);
    }
  }

  lemma ExtendedIsDisjoint(s: State, selected: seq<nat>, target: Edits.Target)
    requires Disjoint(s.db.rows) && Ordered(s.db.rows) && MayExtend(s, selected, target)
    ensures var rows' := s.db.AfterExtend(selected, target).rows;
            && Disjoint(rows') && Ordered(rows')
            && forall i :: i in selected ==> i < |rows'| && rows'[i].start < rows'[i].end
  {
    Edits.ExtendKeepsDisjointAtEveryUpdate(s.db.hosts, s.db.rows, selected, target, |selected|);
    assert selected[..|selected|] == selected;
  }

  /** A commit next to a row that overlaps its window on one of its hosts. */
  lemma CommitOverlaps(db: Db, txn: Txn, i: nat, k: nat)
    requires Committed(db, txn) != db && i < |db.rows| && k < |txn.req.Hosts()| && txn.start < txn.end
    requires db.rows[i].host == txn.req.Hosts()[k] && db.rows[i].start < db.rows[i].end
    requires db.rows[i].start < txn.end && txn.start < db.rows[i].end
    ensures !Disjoint(Committed(db, txn).rows)
  {
    var rows := Committed(db, txn).rows;
    assert rows[i] == db.rows[i] && Overlap(rows[i], rows[|db.rows| + k]);
  }

  lemma ExtendKeepsChecked(s: State, selected: seq<nat>, target: Edits.Target, txn: Txn)
    requires Ordered(s.db.rows) && MayExtend(s, selected, target) && Checked(s.db, txn)
    ensures Checked(s.db.AfterExtend(selected, target), txn)
            <==> !Disturbs(s.db.rows, selected, target, txn)
  {
    forall k | 0 <= k < FoundFree(txn)
      ensures s.db.AfterExtend(selected, target).Free(txn.req.Hosts()[k], txn.start, txn.end)
              <==> forall i :: i in selected ==> !ReachesWindow(s.db.rows, i, target, txn, k)
    {
      FreeAfterExtend(s, selected, target, txn, k);
    }
  }

  /**
   The exact condition: an accepted extension keeps the state safe if and only if it reaches into no window for
   which a transaction under way has found the host free. The store itself it always leaves free of double booking.
   */
  lemma ExtendSafeExactlyWhen(config: Config, mode: PreCheckMode, s: State, selected: seq<nat>, target: Edits.Target)
    requires Safe(s) && Enabled(config, mode, s, Extend(selected, target))
    ensures var s' := Next(config, mode, s, Extend(selected, target));
            Disjoint(s'.db.rows) && Ordered(s'.db.rows) && (Safe(s') <==> Undisturbing(s, selected, target))
  {
    StepKeepsLocks(config, mode, s, Extend(selected, target));
    ExtendedIsDisjoint(s, selected, target);
    forall t | 0 <= t < |s.txns|
      ensures Checked(s.db.AfterExtend(selected, target), s.txns[t])
              <==> !Disturbs(s.db.rows, selected, target, s.txns[t])
    {
      ExtendKeepsChecked(s, selected, target, s.txns[t]);
    }
  }

  /**
   And what follows when it does: of an extension between a transaction's last check and its commit, the commit
   books a host twice if and only if the extension disturbed the transaction.
   */
  lemma CommitAfterExtend(s: State, selected: seq<nat>, target: Edits.Target, t: nat)
    requires Safe(s) && MayExtend(s, selected, target) && t < |s.txns| && s.txns[t].pc.Commit?
    requires Distinct(s.txns[t].req.Hosts()) && Committed(s.db, s.txns[t]) != s.db
    ensures var db := s.db.AfterExtend(selected, target);
            Disjoint(Committed(db, s.txns[t]).rows) <==> !Disturbs(s.db.rows, selected, target, s.txns[t])
  {
    var txn := s.txns[t];
    var db := s.db.AfterExtend(selected, target);
    assert Checked(s.db, txn);
    ExtendKeepsChecked(s, selected, target, txn);
    ExtendedIsDisjoint(s, selected, target);
    if Disturbs(s.db.rows, selected, target, txn) {
      var i, k :| i in selected && 0 <= k < FoundFree(txn) && ReachesWindow(s.db.rows, i, target, txn, k);
      CommitOverlaps(db, txn, i, k);
    } else {
      CommitKeepsDisjoint(db, txn);
    }
  }

  // ---------------------------------------------------------------- whole runs

  lemma StepKeepsRequests(config: Config, mode: PreCheckMode, s: State, t: nat, choice: Choice)
    requires t < |s.txns| && !s.txns[t].pc.Done?
    ensures var s' := ApplyEffect(s, t, NextEffect(config, mode, s, s.txns[t], choice));
            |s'.txns| == |s.txns| && forall u :: 0 <= u < |s.txns| ==> s'.txns[u].req == s.txns[u].req
  {
  }

  lemma ActKeepsSafe(config: Config, mode: PreCheckMode, s: State, t: nat, choice: Choice)
    requires Safe(s) && NoRepeatedHosts(s) && CanAct(config, mode, s, t, choice)
    ensures Safe(Next(config, mode, s, Act(t, choice)))
    ensures NoRepeatedHosts(Next(config, mode, s, Act(t, choice)))
  {
    var effect := NextEffect(config, mode, s, s.txns[t], choice);
    var s' := ApplyEffect(s, t, effect);
    StepKeepsLocks(config, mode, s, Act(t, choice));
    StepKeepsRequests(config, mode, s, t, choice);
    if effect.CommitRows? {
      CommitKeepsSafe(s, t);
    } else {
      StepOfOwnTxnIsChecked(config, mode, s, t, choice);
      assert s'.db == s.db && forall u :: 0 <= u < |s.txns| && u != t ==> s'.txns[u] == s.txns[u];
      assert Checked(s.db, s'.txns[t]);
    }
  }

  lemma {:induction false} StepKeepsSafe(config: Config, mode: PreCheckMode, s: State, e: Event)
    requires Safe(s) && NoRepeatedHosts(s) && Enabled(config, mode, s, e)
    requires e.Extend? ==> Undisturbing(s, e.selected, e.target)
    ensures Safe(Next(config, mode, s, e)) && NoRepeatedHosts(Next(config, mode, s, e))
  {
    match e
    case Act(t, choice) => ActKeepsSafe(config, mode, s, t, choice);
    case Tick(_) => StepKeepsLocks(config, mode, s, e);
    case Cut(row, end) => CutKeepsSafe(s, row, end);
    case Extend(selected, target) => ExtendSafeExactlyWhen(config, mode, s, selected, target);
    case Deactivate(_) =>
      StepKeepsLocks(config, mode, s, e);
      var s' := Next(config, mode, s, e);
      forall h: HostName, a: Time, b: Time | s.db.Free(h, a, b)
        ensures s'.db.Free(h, a, b)
      {
      }
  }

  lemma {:induction false} RunKeepsSafe(config: Config, mode: PreCheckMode, s: State, events: seq<Event>)
    requires Safe(s) && NoRepeatedHosts(s) && Possible(config, mode, s, events)
    requires Undisturbed(config, mode, s, events)
    ensures Safe(Run(config, mode, s, events))
    decreases |events|
  {
    if events != [] {
      StepKeepsSafe(config, mode, s, events[0]);
      RunKeepsSafe(config, mode, Next(config, mode, s, events[0]), events[1..]);
    }
  }

  lemma {:induction false} UndisturbedWithoutExtends(config: Config, mode: PreCheckMode, s: State, events: seq<Event>)
    requires Possible(config, mode, s, events) && forall e :: e in events ==> !e.Extend?
    ensures Undisturbed(config, mode, s, events)
    decreases |events|
  {
    if events != [] {
      assert events[0] in events;
      UndisturbedWithoutExtends(config, mode, Next(config, mode, s, events[0]), events[1..]);
    }
  }

  /**
   Main result. Whatever the interleaving, and whatever the unlocked pre-check answers (even arbitrarily),
   the committed reservations never promise a host twice for one instant.
   */
  lemma NeverDoubleBooked(config: Config, mode: PreCheckMode, s: State, events: seq<Event>)
    requires Initial(s) && NoRepeatedHosts(s) && Possible(config, mode, s, events)
    requires forall e :: e in events ==> !e.Extend?
    ensures Disjoint(Run(config, mode, s, events).db.rows)
    ensures Ordered(Run(config, mode, s, events).db.rows)
  {
    UndisturbedWithoutExtends(config, mode, s, events);
    RunKeepsSafe(config, mode, s, events);
  }

  /** The same with extensions in between, as long as each disturbs no transaction under way. */
  lemma NeverDoubleBookedByExtending(config: Config, mode: PreCheckMode, s: State, events: seq<Event>)
    requires Initial(s) && NoRepeatedHosts(s) && Possible(config, mode, s, events)
    requires Undisturbed(config, mode, s, events)
    ensures Disjoint(Run(config, mode, s, events).db.rows)
    ensures Ordered(Run(config, mode, s, events).db.rows)
  {
    RunKeepsSafe(config, mode, s, events);
  }

  /**
   Distinct host names are needed: a batch that names a free host twice passes every check, so a commit
   keeps the store free of double booking exactly when the request names no host twice.
   */
  lemma CommitSafeExactlyWhenHostsDistinct(db: Db, txn: Txn)
    requires Disjoint(db.rows) && Ordered(db.rows)
    requires txn.pc.Commit? && Checked(db, txn) && Committed(db, txn) != db
    ensures Disjoint(Committed(db, txn).rows) <==> Distinct(txn.req.Hosts())
  {
    var rows := Committed(db, txn).rows;
    var n := |db.rows|;
    var hosts := txn.req.Hosts();
    if Distinct(hosts) {
      CommitKeepsDisjoint(db, txn);
    } else {
      var i, j :| 0 <= i < j < |hosts| && hosts[i] == hosts[j];
      assert rows[n + i].host == rows[n + j].host && Overlap(rows[n + i], rows[n + j]);
    }
  }
}
