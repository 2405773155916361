/**
 Everything that writes reservations, one finished operation after the other: creates, extensions, shrinks and
 terminations. The invariants each operation needs are the ones every operation keeps.
 */
module History {
  import opened Wrappers
  import opened Reservations
  import opened CreateProtocol
  import CreateHandlers
  import Edits

  datatype Operation =
    | Create(req: Request, lag: nat)
    | Extend(asked: Edits.Asked, target: Edits.Target)
    | Shrink(asked: Edits.Asked, target: Edits.Target, immediate: bool, threshold: Time)
    | Terminate(id: AssignmentId)
    | Assign(assignment: Assignment)

  /** An operation and the instant at which it reads the clock. */
  datatype Timed = Timed(at: Time, op: Operation) {
    /** The last instant the operation reads; a create may read the clock twice. */
    function Finished(): Time {
      if op.Create? then at + op.lag else at
    }
  }

  /** The current rows of an active assignment. */
  function TerminatedRows(db: Db, id: AssignmentId, at: Time): seq<nat> {
    Edits.Positions(db.rows, (r: Reservation) => Covers(r, at) && r.assignment == id && IsActive(db.assignments, r))
  }

  function Terminated(db: Db, id: AssignmentId, at: Time): Db {
    if id >= |db.assignments| then db
    else
      db.(rows := Edits.TerminatedAt(db.rows, TerminatedRows(db, id, at), _ => at),
          assignments := db.assignments[id := db.assignments[id].(active := false)])
  }

  function After(config: Config, db: Db, timed: Timed): Db {
    var at := timed.at;
    match timed.op
    case Create(req, lag) =>
      var result := CreateHandlers.RequestResult(config, db, req, at, lag);
      if result.Some? then result.value else db
    case Extend(asked, target) =>
      db.(rows := Edits.ExtendedRows(db.hosts, db.rows, Edits.Selection(db.rows, asked, at), target))
    case Shrink(asked, target, immediate, threshold) =>
      db.(rows := Edits.ShrunkRows(db.rows, Edits.Selection(db.rows, asked, at), target, immediate, threshold))
    case Terminate(id) => Terminated(db, id, at)
    case Assign(assignment) => db.(assignments := db.assignments + [assignment])
  }

  function Run(config: Config, db: Db, history: seq<Timed>): Db
    decreases |history|
  {
    if history == [] then db else Run(config, After(config, db, history[0]), history[1..])
  }

  /** Operations follow each other in time. */
  predicate InOrder(clock: Time, history: seq<Timed>)
    decreases |history|
  {
    history == [] || (clock < history[0].at && InOrder(history[0].Finished(), history[1..]))
  }

  /** Times are asked for by the minute. */
  predicate OnMinute(moment: Moment) {
    moment.At? ==> moment.time % MINUTE == 0
  }

  /** What a request looks like: no host twice, dates by the minute. */
  predicate WellFormed(op: Operation) {
    op.Create? ==>
      && Distinct(op.req.Hosts())
      && (op.req.dates.Given? ==> OnMinute(op.req.dates.start) && OnMinute(op.req.dates.end))
  }

  /** What every finished operation leaves behind. */
  predicate Sound(rows: seq<Reservation>, clock: Time) {
    && Disjoint(rows) && Ordered(rows)
    && Edits.EmptyRowsStarted(rows, clock) && Edits.LaterStartsOnMinute(rows, clock)
  }

  lemma CreateKeepsSound(config: Config, db: Db, req: Request, lag: nat, clock: Time, at: Time)
    requires Sound(db.rows, clock) && clock < at && WellFormed(Create(req, lag))
    ensures Sound(After(config, db, Timed(at, Create(req, lag))).rows, at + lag)
  {
    if CreateHandlers.RequestResult(config, db, req, at, lag).Some? {
      CreateHandlers.ResultKeepsDisjoint(config, db, req, at, lag);
    }
  }

  lemma TerminateKeepsSound(db: Db, id: AssignmentId, clock: Time, at: Time)
    requires Sound(db.rows, clock) && clock < at
    ensures Sound(Terminated(db, id, at).rows, at)
  {
    var selected := TerminatedRows(db, id, at);
    assert forall k :: 0 <= k < |selected| ==> selected[k] in selected;
    Edits.TerminateKeepsDisjoint(db.rows, selected, _ => at, at);
  }

  /** Replacing ends by instants after the starts leaves no new empty row and no new start. */
  lemma EditKeepsStarts(rows: seq<Reservation>, rows': seq<Reservation>, clock: Time, at: Time)
    requires |rows'| == |rows| && Ordered(rows) && clock < at
    requires Edits.EmptyRowsStarted(rows, clock) && Edits.LaterStartsOnMinute(rows, clock)
    requires forall i :: 0 <= i < |rows| ==>
      && rows'[i].start == rows[i].start && (rows'[i].end != rows[i].end ==> rows[i].start < rows'[i].end)
    ensures Edits.EmptyRowsStarted(rows', at) && Edits.LaterStartsOnMinute(rows', at)
  {
  }

  lemma ExtendKeepsSound(hosts: seq<Host>, rows: seq<Reservation>, asked: Edits.Asked, target: Edits.Target,
                         clock: Time, at: Time)
    requires Sound(rows, clock) && clock < at
    ensures Sound(Edits.ExtendedRows(hosts, rows, Edits.Selection(rows, asked, at), target), at)
  {
    Edits.ExtendOfSelectionKeepsDisjoint(hosts, rows, asked, target, clock, at);
    EditKeepsStarts(rows, Edits.ExtendedRows(hosts, rows, Edits.Selection(rows, asked, at), target), clock, at);
  }

  lemma ShrinkKeepsSound(rows: seq<Reservation>, asked: Edits.Asked, target: Edits.Target, immediate: bool,
                         threshold: Time, clock: Time, at: Time)
    requires Sound(rows, clock) && clock < at
    ensures Sound(Edits.ShrunkRows(rows, Edits.Selection(rows, asked, at), target, immediate, threshold), at)
  {
    var selected := Edits.Selection(rows, asked, at);
    Edits.ShrinkOfSelectionKeepsDisjoint(rows, asked, target, immediate, threshold, clock, at);
    var rows' := Edits.ShrunkRows(rows, selected, target, immediate, threshold);
    if Edits.AllShrinkable(rows, selected, target, immediate, threshold) {
      forall i | 0 <= i < |rows| && i in selected
        ensures rows[i].start < rows'[i].end
      {
        Edits.ShrunkRow(rows, selected, target, immediate, threshold, i);
      }
    }
    EditKeepsStarts(rows, rows', clock, at);
  }

  lemma OperationKeepsSound(config: Config, db: Db, timed: Timed, clock: Time)
    requires Sound(db.rows, clock) && clock < timed.at && WellFormed(timed.op)
    ensures Sound(After(config, db, timed).rows, timed.Finished())
  {
    match timed.op
    case Create(req, lag) => CreateKeepsSound(config, db, req, lag, clock, timed.at);
    case Extend(asked, target) => ExtendKeepsSound(db.hosts, db.rows, asked, target, clock, timed.at);
    case Shrink(asked, target, immediate, threshold) =>
      ShrinkKeepsSound(db.rows, asked, target, immediate, threshold, clock, timed.at);
    case Terminate(id) => TerminateKeepsSound(db, id, clock, timed.at);
    case Assign(_) =>
  }

  function LastReading(clock: Time, history: seq<Timed>): Time
    decreases |history|
  {
    if history == [] then clock else LastReading(history[0].Finished(), history[1..])
  }

  /**
   Main result: no sequence of finished creates, extensions, shrinks and terminations, whatever they ask for and
   whatever the default lifetime is, ever books a host twice; and no empty row starts after the clock.
   */
  lemma {:induction false} HistoryNeverDoubleBooks(config: Config, db: Db, clock: Time, history: seq<Timed>)
    requires Sound(db.rows, clock) && InOrder(clock, history)
    requires forall i :: 0 <= i < |history| ==> WellFormed(history[i].op)
    ensures Sound(Run(config, db, history).rows, LastReading(clock, history))
    decreases |history|
  {
    if history != [] {
      OperationKeepsSound(config, db, history[0], clock);
      HistoryNeverDoubleBooks(config, After(config, db, history[0]), history[0].Finished(), history[1..]);
    }
  }
}
