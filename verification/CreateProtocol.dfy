/**
 Creating reservations as a transaction protocol.

 Any number of single and batch requests run at once. Each transaction locks its cloud's row, then the rows
 of its hosts in name order, checks availability, inserts and commits, or rolls back. Locks are held until
 the transaction ends, reads see committed rows only. One step is the request for one lock, the availability
 check of one host, the commit, or one of the short groups of reads in between: those on entry, and the cloud's
 assignment with its current count. Between two steps of a transaction any others may run, the clock may advance,
 reservations may be cut short or extended and assignments ended.
 */
module CreateProtocol {
  import opened Wrappers
  import opened Reservations
  import Edits
  import SelfSchedule

  /** A date argument: the word "now", or a time. */
  datatype Moment = Now | At(time: Time) {
    function Resolve(now: Time): Time {
      match this
      case Now => now
      case At(time) => time
    }
  }

  datatype Dates = Missing | Malformed | Given(start: Moment, end: Moment)

  datatype Request =
    | Single(cloud: CloudName, host: HostName, admin: bool, dates: Dates)
    | Batch(cloud: CloudName, hostnames: seq<HostName>, dates: Dates, newAssignment: bool)
  {
    function Hosts(): seq<HostName> {
      if Single? then [host] else hostnames
    }
  }

  datatype Pc =
    | Entry            // nothing read yet
    | PreCheck(i: nat) // unlocked availability check of a batch, i hosts done
    | WantCloud        // about to lock the cloud row
    | Decide           // cloud locked: look up the assignment, check rights and caps
    | WantHosts        // locking host rows, the rows still to lock are in "waiting"
    | Resolve          // single requests: work out the window
    | Check(i: nat)    // hosts locked: availability check, i hosts done
    | Commit           // insert and commit
    | Done(ok: bool)   // committed, or refused and rolled back

  datatype Txn = Txn(
    req: Request,
    pc: Pc,
    waiting: set<HostName>,
    assignment: Option<AssignmentId>,
    start: Time,
    end: Time,
    refused: bool)
  {
    predicate LocksCloud() {
      pc.Decide? || LocksHosts()
    }

    predicate LocksHosts() {
      pc.WantHosts? || AllLocked()
    }

    predicate AllLocked() {
      pc.Resolve? || pc.Check? || pc.Commit?
    }
  }

  /** The tables; hosts and clouds do not change while requests run. */
  datatype Db = Db(hosts: seq<Host>, clouds: set<CloudName>, assignments: seq<Assignment>, rows: seq<Reservation>) {
    predicate Knows(host: HostName) {
      FindHost(hosts, host).Some?
    }

    /** The tables after the selected rows are extended. */
    function AfterExtend(selected: seq<nat>, target: Edits.Target): Db {
      this.(rows := Edits.WithEnds(rows, selected, Edits.SentExtension(target)))
    }

    predicate Free(host: HostName, start: Time, end: Time) {
      Available(hosts, rows, host, start, end)
    }
  }

  datatype State = State(
    db: Db,
    cloudLock: map<CloudName, nat>,
    hostLock: map<HostName, nat>,
    now: Time,
    txns: seq<Txn>)

  /** Configuration: the cap on hosts in a self-scheduled cloud, and the deadline rule. */
  datatype Config = Config(hostLimit: int, rule: SelfSchedule.DeadlineRule)

  /** What the unlocked pre-check answers: what it reads, or (to show it does not matter) anything at all. */
  datatype PreCheckMode = Honest | Arbitrary

  /** What a step leaves open: an arbitrary pre-check's answer, and the time between two readings of the clock. */
  datatype Choice = Choice(answer: bool, lag: nat)

  // ---------------------------------------------------------------- one transaction's next step

  /** What a step does beyond the transaction's own variables. */
  datatype Effect =
    | Local(next: Txn)
    | LockCloud(next: Txn)
    | LockHost(host: HostName, next: Txn)
    | Rollback
    | CommitRows

  ghost function Lowest(names: set<HostName>): (h: HostName)
    requires names != {}
    ensures h in names && forall g :: g in names ==> h <= g
  {
    var x :| x in names;
    var rest := names - {x};
    assert names == rest + {x};
    if rest == {} then x
    else
      var m := Lowest(rest);
      if m <= x then m else x
  }

  function Goto(txn: Txn, pc: Pc): Txn {
    txn.(pc := pc)
  }

  /** Reservations counted against a cloud's cap. */
  function CurrentCount(db: Db, cloud: CloudName, t: Time): nat {
    |CurrentOfCloud(db.rows, db.assignments, cloud, t)|
  }

  /** The requested hosts that have a row to lock. */
  function RowsToLock(db: Db, req: Request): set<HostName> {
    set h | h in req.Hosts() && db.Knows(h)
  }

  ghost function EntryStep(s: State, txn: Txn, lag: nat): Effect {
    match txn.req
    case Single(cloud, host, _, _) =>
      if cloud !in s.db.clouds || !s.db.Knows(host) then Rollback
      else Local(Goto(txn, WantCloud))
    case Batch(cloud, hostnames, dates, newAssignment) =>
      if hostnames == [] || !dates.Given? || cloud !in s.db.clouds then Rollback
      else
        var start, end := dates.start.Resolve(s.now), dates.end.Resolve(s.now + lag);
        if start >= end then Rollback
        else if newAssignment == ActiveOf(s.db.assignments, cloud).Some? then Rollback
        else Local(Goto(txn, PreCheck(0)).(start := start, end := end, refused := false))
  }

  /** Reads one host of the pre-check; when all are read, goes on unless one was unavailable. */
  ghost function PreCheckStep(mode: PreCheckMode, s: State, txn: Txn, choice: Choice): Effect
    requires txn.pc.PreCheck?
  {
    var hosts := txn.req.Hosts();
    if txn.pc.i < |hosts| then
      var bad := if mode.Honest? then !s.db.Free(hosts[txn.pc.i], txn.start, txn.end) else choice.answer;
      Local(Goto(txn, PreCheck(txn.pc.i + 1)).(refused := txn.refused || bad))
    else if txn.refused then Rollback
    else Local(Goto(txn, WantCloud))
  }

  ghost function DecideStep(config: Config, s: State, txn: Txn): Effect {
    var existing := ActiveOf(s.db.assignments, txn.req.cloud);
    var goOn := Local(Goto(txn, WantHosts).(assignment := existing, waiting := RowsToLock(s.db, txn.req)));
    match txn.req
    case Single(cloud, host, admin, _) =>
      if existing.None? then Rollback
      else
        var selfSchedule := s.db.assignments[existing.value].selfSchedule;
        if !selfSchedule && !admin then Rollback
        else if selfSchedule && CurrentCount(s.db, cloud, s.now) >= config.hostLimit then Rollback
        else goOn
    case Batch(_, _, _, newAssignment) =>
      if newAssignment == existing.Some? then Rollback else goOn
  }

  ghost function HostsStep(txn: Txn): Effect {
    if txn.waiting != {} then
      var h := Lowest(txn.waiting);
      LockHost(h, txn.(waiting := txn.waiting - {h}))
    else if txn.req.Single? then Local(Goto(txn, Resolve))
    else Local(Goto(txn, Check(0)).(refused := false))
  }

  /** The window of a single request: chosen by the deadline rule in a self-scheduled cloud, else as asked. */
  ghost function ResolveStep(config: Config, s: State, txn: Txn, lag: nat): Effect
    requires txn.req.Single?
  {
    var host := FindHost(s.db.hosts, txn.req.host);
    var check := Goto(txn, Check(0)).(refused := false);
    if host.None? || txn.assignment.None? || txn.assignment.value >= |s.db.assignments| then Rollback
    else if s.db.assignments[txn.assignment.value].selfSchedule then
      var end := SelfSchedule.SelfScheduleEnd(s.now, config.rule);
      if !host.value.canSelfSchedule || end.None? then Rollback
      else Local(check.(start := s.now, end := end.value))
    else if !txn.req.dates.Given? then Rollback
    else
      var start, end := txn.req.dates.start.Resolve(s.now), txn.req.dates.end.Resolve(s.now + lag);
      if start >= end then Rollback else Local(check.(start := start, end := end))
  }

  ghost function CheckStep(s: State, txn: Txn): Effect
    requires txn.pc.Check?
  {
    var hosts := txn.req.Hosts();
    if txn.pc.i < |hosts| then
      var bad := !s.db.Free(hosts[txn.pc.i], txn.start, txn.end);
      Local(Goto(txn, Check(txn.pc.i + 1)).(refused := txn.refused || bad))
    else if txn.refused then Rollback
    else Local(Goto(txn, Commit))
  }

  ghost function NextEffect(config: Config, mode: PreCheckMode, s: State, txn: Txn, choice: Choice): Effect
    requires !txn.pc.Done?
  {
    match txn.pc
    case Entry => EntryStep(s, txn, choice.lag)
    case PreCheck(_) => PreCheckStep(mode, s, txn, choice)
    case WantCloud => if txn.req.cloud in s.db.clouds then LockCloud(Goto(txn, Decide)) else Rollback
    case Decide => DecideStep(config, s, txn)
    case WantHosts => HostsStep(txn)
    case Resolve => if txn.req.Single? then ResolveStep(config, s, txn, choice.lag) else Rollback
    case Check(_) => CheckStep(s, txn)
    case Commit => CommitRows
  }

  /** A step that takes a lock waits while another transaction holds it; every other step can always run. */
  ghost predicate Ready(s: State, effect: Effect, cloud: CloudName) {
    (effect.LockCloud? ==> cloud !in s.cloudLock) && (effect.LockHost? ==> effect.host !in s.hostLock)
  }

  /** The rows of one request, with fresh identifiers. */
  function NewRows(db: Db, hosts: seq<HostName>, assignment: AssignmentId, start: Time, end: Time)
    : (r: seq<Reservation>)
    ensures |r| == |hosts|
  {
    seq(|hosts|, k requires 0 <= k < |hosts| => Reservation(|db.rows| + k, hosts[k], assignment, start, end))
  }

  /** The tables after a request's rows, and its assignment if it asked for one, are added. */
  function Booked(db: Db, req: Request, existing: Option<AssignmentId>, start: Time, end: Time): Db {
    if req.Batch? && req.newAssignment then
      db.(assignments := db.assignments + [Assignment(req.cloud, "", true, false)],
          rows := db.rows + NewRows(db, req.Hosts(), |db.assignments|, start, end))
    else if existing.Some? then db.(rows := db.rows + NewRows(db, req.Hosts(), existing.value, start, end))
    else db
  }

  function Committed(db: Db, txn: Txn): Db {
    Booked(db, txn.req, txn.assignment, txn.start, txn.end)
  }

  function Without(locks: map<nat, nat>, t: nat): map<nat, nat> {
    map k | k in locks && locks[k] != t :: locks[k]
  }

  /** The transaction ends and all its locks are released. */
  ghost function Finish(s: State, t: nat, db: Db, ok: bool): State
    requires t < |s.txns|
  {
    State(db, Without(s.cloudLock, t), Without(s.hostLock, t), s.now, s.txns[t := Goto(s.txns[t], Done(ok))])
  }

  ghost function ApplyEffect(s: State, t: nat, effect: Effect): State
    requires t < |s.txns|
  {
    match effect
    case Local(next) => s.(txns := s.txns[t := next])
    case LockCloud(next) => s.(txns := s.txns[t := next], cloudLock := s.cloudLock[next.req.cloud := t])
    case LockHost(h, next) => s.(txns := s.txns[t := next], hostLock := s.hostLock[h := t])
    case Rollback => Finish(s, t, s.db, false)
    case CommitRows => Finish(s, t, Committed(s.db, s.txns[t]), true)
  }

  // ---------------------------------------------------------------- runs

  /** One step of a transaction, or something happening around them. */
  datatype Event =
    | Act(t: nat, choice: Choice)
    | Tick(delta: nat)
    | Cut(row: nat, end: Time)     // a reservation is shortened: shrunk, or its assignment terminated
    | Deactivate(id: AssignmentId) // an assignment ends
    | Extend(selected: seq<nat>, target: Edits.Target) // an extension, with its checks and updates in one

  ghost predicate CanAct(config: Config, mode: PreCheckMode, s: State, t: nat, choice: Choice) {
    && t < |s.txns|
    && !s.txns[t].pc.Done?
    && Ready(s, NextEffect(config, mode, s, s.txns[t], choice), s.txns[t].req.cloud)
  }

  /** Current or future rows, none of them empty, that pass the command's checks; every update is accepted. */
  predicate MayExtend(s: State, selected: seq<nat>, target: Edits.Target) {
    && Edits.Selects(s.db.rows, selected)
    && Edits.CurrentOrFuture(s.db.rows, selected, s.now) && Edits.NoneEmpty(s.db.rows, selected)
    && Edits.AllExtendable(s.db.hosts, s.db.rows, selected, target)
    && Edits.AcceptedCount(s.db.rows, selected, Edits.SentExtension(target)) == |selected|
  }

  ghost predicate Enabled(config: Config, mode: PreCheckMode, s: State, e: Event) {
    match e
    case Act(t, choice) => CanAct(config, mode, s, t, choice)
    case Tick(_) => true
    case Cut(row, end) => row < |s.db.rows| && s.db.rows[row].start <= end <= s.db.rows[row].end
    case Deactivate(id) => id < |s.db.assignments|
    case Extend(selected, target) => MayExtend(s, selected, target)
  }

  ghost function Next(config: Config, mode: PreCheckMode, s: State, e: Event): State
    requires Enabled(config, mode, s, e)
  {
    match e
    case Act(t, choice) => ApplyEffect(s, t, NextEffect(config, mode, s, s.txns[t], choice))
    case Tick(delta) => s.(now := s.now + delta)
    case Cut(row, end) => s.(db := s.db.(rows := s.db.rows[row := s.db.rows[row].(end := end)]))
    case Deactivate(id) =>
      s.(db := s.db.(assignments := s.db.assignments[id := s.db.assignments[id].(active := false)]))
    case Extend(selected, target) => s.(db := s.db.AfterExtend(selected, target))
  }

  ghost predicate Possible(config: Config, mode: PreCheckMode, s: State, events: seq<Event>)
    decreases |events|
  {
    events == [] ||
    (Enabled(config, mode, s, events[0]) && Possible(config, mode, Next(config, mode, s, events[0]), events[1..]))
  }

  ghost function Run(config: Config, mode: PreCheckMode, s: State, events: seq<Event>): State
    requires Possible(config, mode, s, events)
    decreases |events|
  {
    if events == [] then s
    else Run(config, mode, Next(config, mode, s, events[0]), events[1..])
  }

  /** How many of its hosts a transaction has found free and relies on. */
  function FoundFree(txn: Txn): nat {
    var n := |txn.req.Hosts()|;
    if txn.pc.Commit? then n
    else if txn.pc.Check? && !txn.refused then (if txn.pc.i <= n then txn.pc.i else n)
    else 0
  }

  /** An extension reaches into the window for which a transaction has found the host free. */
  predicate Disturbs(rows: seq<Reservation>, selected: seq<nat>, target: Edits.Target, txn: Txn) {
    exists i, k :: i in selected && 0 <= k < FoundFree(txn) && ReachesWindow(rows, i, target, txn, k)
  }

  predicate ReachesWindow(rows: seq<Reservation>, i: nat, target: Edits.Target, txn: Txn, k: nat) {
    && i < |rows| && k < |txn.req.Hosts()| && rows[i].host == txn.req.Hosts()[k]
    && rows[i].start < txn.end && txn.start < Edits.SentExtension(target)(rows[i])
  }

  /** The extension disturbs no transaction that is under way. */
  predicate Undisturbing(s: State, selected: seq<nat>, target: Edits.Target) {
    forall t :: 0 <= t < |s.txns| ==> !Disturbs(s.db.rows, selected, target, s.txns[t])
  }

  /** Every extension of the run is made when it disturbs no transaction; a run without extensions always is. */
  ghost predicate Undisturbed(config: Config, mode: PreCheckMode, s: State, events: seq<Event>)
    requires Possible(config, mode, s, events)
    decreases |events|
  {
    events == [] ||
    (&& (events[0].Extend? ==> Undisturbing(s, events[0].selected, events[0].target))
     && Undisturbed(config, mode, Next(config, mode, s, events[0]), events[1..]))
  }

  /** Requests not yet started, no locks taken, a store without double booking. */
  ghost predicate Initial(s: State) {
    && s.cloudLock == map[] && s.hostLock == map[]
    && (forall t :: 0 <= t < |s.txns| ==> s.txns[t].pc.Entry?)
    && Disjoint(s.db.rows) && Ordered(s.db.rows)
  }

  /** No batch names a host twice. */
  ghost predicate NoRepeatedHosts(s: State) {
    forall t :: 0 <= t < |s.txns| ==> Distinct(s.txns[t].req.Hosts())
  }
}
