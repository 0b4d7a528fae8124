/**
 The record of a file transfer in the database, and the threads that write it: the worker
 that copies or moves, the requests that stop it, and the monitor that looks for transfers
 whose process has gone. Every SQL statement is one step.
 */
module FileTransfer {
  import opened Text

  type Id = string

  datatype Status = InProgress | Completed | Cancelled | Failed | WaitingClient

  datatype Row = Row(status: Status, errorMsg: string)

  type Table = map<Id, Row>

  /** The process identifier of a transfer that has none recorded. */
  const NO_PROCESS: int := -1

  /** Whether `/proc` has an entry of that name. */
  predicate ProcessExists(running: set<int>, pid: int) {
    pid != NO_PROCESS && pid in running
  }

  /** The guarded UPDATE of `updateStatus`: a cancelled row is left alone. */
  function Updated(rows: Table, id: Id, status: Status, errorMsg: string): Table {
    if id in rows && rows[id].status != Cancelled then rows[id := Row(status, errorMsg)] else rows
  }

  /** The monitor's UPDATE: unguarded, and silent about the error. */
  function MarkedFailed(rows: Table, id: Id): Table {
    if id in rows then rows[id := rows[id].(status := Failed)] else rows
  }

  /** `stopThread` on one transfer: 0, or the error text it throws where the kill fails. */
  function StopOne(rows: Table, id: Id, pid: int, failure: Option<string>, user: string): (Table, Option<string>) {
    if pid == NO_PROCESS then (rows, None)
    else
      match failure
      case Some(reason) => (Updated(rows, id, Failed, reason), Some(reason))
      case None => (Updated(rows, id, Cancelled, "by: " + user), None)
  }

  /** The loop over the selected transfers, up to the first failure. */
  function StopAll(rows: Table, selected: seq<(Id, int)>, failures: int -> Option<string>, user: string)
    : (Table, Option<string>)
  {
    if selected == [] then (rows, None)
    else
      var (id, pid) := selected[0];
      var (next, error) := StopOne(rows, id, pid, failures(pid), user);
      if error.Some? then (next, error) else StopAll(next, selected[1..], failures, user)
  }

  const NONE_IN_PROGRESS := "There is no file transfer in progress "

  /** The transfer command's output without ssh's first line about terminals. */
  function CleanOutputMsg(output: string): string {
    if StartsWith(output, "Pseudo-terminal") && Contains(output, "\n")
    then output[Find(output, "\n", 0) + 1..] else output
  }

  /** What the worker writes, given the cleaned output of its last command. */
  function CopyOutcome(message: string): Row {
    if message != "" then Row(Failed, message) else Row(Completed, "")
  }

  /** Output without ssh's line is kept: none means a good copy, and any at all a failed one. */
  lemma OutputIsKept(output: string)
    requires !("Pseudo-terminal" <= output)
    ensures CleanOutputMsg(output) == output
    ensures CopyOutcome(CleanOutputMsg(output)) == if output == "" then Row(Completed, "") else Row(Failed, output)
  {
    assert !StartsWith(output, "Pseudo-terminal");
  }

  /** Of ssh's line and what follows, what follows counts; the line by itself is an error. */
  lemma FirstLineIsDropped(line: string, rest: string)
    requires "Pseudo-terminal" <= line && '\n' !in line
    ensures CleanOutputMsg(line + ("\n" + rest)) == rest && CleanOutputMsg(line) == line
    ensures CopyOutcome(CleanOutputMsg(line + "\n")) == Row(Completed, "")
    ensures CopyOutcome(CleanOutputMsg(line)) == Row(Failed, line)
  {
    NewlineFound(line, rest);
    NewlineFound(line, "");
    assert line + ("\n" + "") == line + "\n";
    FindInClean(line, "\n");
  }

  lemma NewlineFound(line: string, rest: string)
    requires "Pseudo-terminal" <= line && '\n' !in line
    ensures CleanOutputMsg(line + ("\n" + rest)) == rest
  {
    var output := line + ("\n" + rest);
    assert ("\n" + rest)[0..1] == "\n";
    FindAfterClean(line, "\n" + rest, "\n");
    assert output[0..|"Pseudo-terminal"|] == "Pseudo-terminal";
    assert output[|line| + 1..] == rest;
  }

  // ---- The statements in sequence, nobody interfering ----------------------------------

  class Database {
    var rows: Table
    var pids: map<Id, int>

    method UpdateStatus(status: Status, id: Id, errorMsg: string)
      modifies `rows
      ensures rows == Updated(old(rows), id, status, errorMsg)
    {
      if id in rows && rows[id].status != Cancelled {
        rows := rows[id := Row(status, errorMsg)];
      }
    }

    /** `first` and `second` are what the two runs of the command print, errors included. */
    method Copy(id: Id, first: (string, string), second: (string, string))
      modifies this
      ensures var last := if Contains(first.0, "Warning") || Contains(first.1, "Warning") then second else first;
              var row := CopyOutcome(CleanOutputMsg(last.0 + last.1));
              rows == Updated(old(rows), id, row.status, row.errorMsg)
      ensures id in old(rows) && old(rows)[id].status != Cancelled && first == ("", "") ==>
        rows == old(rows)[id := Row(Completed, "")]
    {
      assert first == ("", "") ==> CleanOutputMsg(first.0 + first.1) == "";
      var trResult := first;
      if Contains(trResult.1, "Warning") || Contains(trResult.0, "Warning") {
        trResult := second;
      }
      var allOutputMsg := CleanOutputMsg(trResult.0 + trResult.1);
      if |allOutputMsg| != 0 {
        UpdateStatus(Failed, id, allOutputMsg);
      } else {
        UpdateStatus(Completed, id, "");
      }
    }

    /** Stopping one transfer, given its process as it was selected. */
    method StopThread(id: Id, pid: int, failure: Option<string>, user: string) returns (error: Option<string>)
      modifies `rows
      ensures (rows, error) == StopOne(old(rows), id, pid, failure, user)
    {
      if pid != NO_PROCESS {
        if failure.Some? {
          UpdateStatus(Failed, id, failure.value);
          return failure;
        }
        UpdateStatus(Cancelled, id, "by: " + user);
      }
      error := None;
    }

    /**
     A stop request, given the transfers it selects with their processes, and what killing a
     process fails with; `named` says that the request names a transfer, a user or a machine.
     */
    method StopTransfers(named: bool, selected: seq<(Id, int)>, failures: int -> Option<string>, user: string)
      returns (error: Option<string>)
      modifies `rows
      ensures !named ==> error == None && rows == old(rows)
      ensures named && selected == [] ==> error == Some(NONE_IN_PROGRESS) && rows == old(rows)
      ensures named && selected != [] ==> (rows, error) == StopAll(old(rows), selected, failures, user)
    {
      if !named {
        return None;
      }
      if |selected| == 0 {
        return Some(NONE_IN_PROGRESS);
      }
      assert selected[0..] == selected;
      for i := 0 to |selected|
        invariant StopAll(old(rows), selected, failures, user) == StopAll(rows, selected[i..], failures, user)
      {
        assert selected[i..][1..] == selected[i + 1..];
        error := StopThread(selected[i].0, selected[i].1, failures(selected[i].1), user);
        if error.Some? {
          return;
        }
      }
      error := None;
    }

    /** One pass of the monitor over the transfers in progress, given the running processes. */
    method CheckFile(running: set<int>)
      requires rows.Keys == pids.Keys
      modifies `rows
      ensures rows == Checked(old(rows), pids, running)
    {
      var selected := set id | id in rows && rows[id].status == InProgress;
      var todo := selected;
      while todo != {}
        invariant todo <= selected && rows.Keys == old(rows).Keys
        invariant forall id | id in rows ::
          rows[id] == if id in selected && id !in todo && !ProcessExists(running, pids[id])
                      then old(rows)[id].(status := Failed) else old(rows)[id]
        decreases todo
      {
        var id :| id in todo;
        if !ProcessExists(running, pids[id]) {
          rows := MarkedFailed(rows, id);
        }
        todo := todo - {id};
      }
    }
  }

  /** The table with every transfer in progress whose process is gone marked failed. */
  function Checked(rows: Table, pids: map<Id, int>, running: set<int>): Table
    requires rows.Keys == pids.Keys
  {
    map id | id in rows ::
      if rows[id].status == InProgress && !ProcessExists(running, pids[id]) then rows[id].(status := Failed)
      else rows[id]
  }

  /** The monitor marks a transfer in progress unless a process is recorded for it and runs. */
  lemma CheckedEach(rows: Table, pids: map<Id, int>, running: set<int>, id: Id)
    requires rows.Keys == pids.Keys && id in rows
    ensures Checked(rows, pids, running).Keys == rows.Keys
    ensures Checked(rows, pids, running)[id] ==
            if rows[id].status == InProgress && (pids[id] == -1 || pids[id] !in running)
            then Row(Failed, rows[id].errorMsg) else rows[id]
  {
  }

  /** Stops that meet no failure let the request go on with the table they leave. */
  lemma {:induction false} StopsGoOn(
      rows: Table, a: seq<(Id, int)>, b: seq<(Id, int)>, failures: int -> Option<string>, user: string)
    requires forall p | p in a :: p.1 == -1 || failures(p.1).None?
    ensures StopAll(rows, a, failures, user).1.None?
    ensures StopAll(rows, a + b, failures, user) == StopAll(StopAll(rows, a, failures, user).0, b, failures, user)
    decreases |a|
  {
    if a == [] {
      assert a + b == b;
    } else {
      assert a[0] in a && (a + b)[1..] == a[1..] + b;
      StopsGoOn(StopOne(rows, a[0].0, a[0].1, failures(a[0].1), user).0, a[1..], b, failures, user);
    }
  }

  /** The first failed kill ends the request: its transfer is failed, the ones behind it keep running. */
  lemma FirstFailureEndsTheStop(
      rows: Table, a: seq<(Id, int)>, id: Id, pid: int, b: seq<(Id, int)>, failures: int -> Option<string>,
      user: string, reason: string)
    requires forall p | p in a :: p.1 == -1 || failures(p.1).None?
    requires pid != -1 && failures(pid) == Some(reason)
    ensures var before := StopAll(rows, a, failures, user).0;
            StopAll(rows, a + ([(id, pid)] + b), failures, user) ==
            (if id in before && before[id].status != Cancelled then before[id := Row(Failed, reason)] else before,
             Some(reason))
  {
    StopsGoOn(rows, a, [(id, pid)] + b, failures, user);
    assert ([(id, pid)] + b)[0] == (id, pid);
  }

  // ---- The interleaved protocol --------------------------------------------------------

  datatype Kind = Copy | Move

  /** The call that started a transfer, and its worker thread. */
  datatype Worker = Refused | ByClient | Copying(kind: Kind) | Removing | Done(kind: Kind)

  /**
   `pids` is the column of process identifiers. `stopping` holds transfers that stop requests
   have selected and not yet dealt with, `doomed` those the monitor has, each with its process
   as it was selected; `removed` records whose source removal was attempted.
   */
  datatype State = State(
    rows: Table, pids: map<Id, int>, workers: map<Id, Worker>,
    stopping: multiset<(Id, int)>, doomed: set<(Id, int)>, removed: set<Id>)

  const EMPTY := State(map[], map[], map[], multiset{}, {}, {})

  datatype Step =
    | Start(id: Id, kind: Kind)
    | StartRefused(id: Id, reason: string)
    | StartByClient(id: Id)
    | CopyEnds(id: Id, message: string)
    | RemovalWorks(id: Id)
    | RemovalFails(id: Id, what: string)
    | RecordsPid(id: Id, pid: int)
    | StopSelects(ids: set<Id>)
    | StopSkips(id: Id)
    | StopKills(id: Id, pid: int, user: string)
    | StopFails(id: Id, pid: int, reason: string)
    | MonitorSelects(ids: set<Id>)
    | MonitorSpares(id: Id, pid: int)
    | MonitorMarks(id: Id, pid: int)

  predicate InProgressAll(s: State, ids: set<Id>) {
    forall id | id in ids :: id in s.rows && id in s.pids && s.rows[id].status == InProgress
  }

  function WithPids(pids: map<Id, int>, ids: set<Id>): set<(Id, int)>
    requires ids <= pids.Keys
  {
    set id | id in ids :: (id, pids[id])
  }

  /** A new transfer's record; its process identifier is not known. */
  function Entered(s: State, id: Id, row: Row, worker: Worker): State {
    s.(rows := s.rows[id := row], pids := s.pids[id := NO_PROCESS], workers := s.workers[id := worker])
  }

  /**
   System error texts are never empty. A stop request skips a transfer it selected without a
   process; the monitor spares one only if there is a process for it.
   */
  predicate Enabled(s: State, step: Step) {
    match step
    case Start(id, _) => id !in s.workers
    case StartRefused(id, _) => id !in s.workers
    case StartByClient(id) => id !in s.workers
    case CopyEnds(id, _) => id in s.workers && s.workers[id].Copying?
    case RemovalWorks(id) => id in s.workers && s.workers[id].Removing?
    case RemovalFails(id, what) => id in s.workers && s.workers[id].Removing? && what != ""
    case RecordsPid(id, _) => id in s.workers && s.workers[id].Copying?
    case StopSelects(ids) => InProgressAll(s, ids)
    case StopSkips(id) => (id, NO_PROCESS) in s.stopping
    case StopKills(id, pid, _) => (id, pid) in s.stopping && pid != NO_PROCESS
    case StopFails(id, pid, reason) => (id, pid) in s.stopping && pid != NO_PROCESS && reason != ""
    case MonitorSelects(ids) => InProgressAll(s, ids)
    case MonitorSpares(id, pid) => (id, pid) in s.doomed && pid != NO_PROCESS
    case MonitorMarks(id, pid) => (id, pid) in s.doomed
  }

  function Apply(s: State, step: Step): State
    requires Enabled(s, step)
  {
    match step
    case Start(id, kind) => Entered(s, id, Row(InProgress, ""), Copying(kind))
    case StartRefused(id, reason) => Entered(s, id, Row(Failed, reason), Refused)
    case StartByClient(id) => Entered(s, id, Row(WaitingClient, ""), ByClient)
    case CopyEnds(id, message) =>
      var row := CopyOutcome(message);
      // the execution status a move tests is never set, so it goes on in either case
      s.(rows := Updated(s.rows, id, row.status, row.errorMsg),
         workers := s.workers[id := if s.workers[id].kind == Copy then Done(Copy) else Removing])
    case RemovalWorks(id) =>
      s.(workers := s.workers[id := Done(Move)], removed := s.removed + {id})
    case RemovalFails(id, what) =>
      s.(rows := Updated(s.rows, id, Failed, what), workers := s.workers[id := Done(Move)],
         removed := s.removed + {id})
    case RecordsPid(id, pid) => s.(pids := s.pids[id := pid])
    case StopSelects(ids) => s.(stopping := s.stopping + multiset(WithPids(s.pids, ids)))
    case StopSkips(id) => s.(stopping := s.stopping - multiset{(id, NO_PROCESS)})
    case StopKills(id, pid, user) =>
      s.(rows := StopOne(s.rows, id, pid, None, user).0, stopping := s.stopping - multiset{(id, pid)})
    case StopFails(id, pid, reason) =>
      s.(rows := StopOne(s.rows, id, pid, Some(reason), "").0, stopping := s.stopping - multiset{(id, pid)})
    case MonitorSelects(ids) => s.(doomed := WithPids(s.pids, ids))
    case MonitorSpares(id, pid) => s.(doomed := s.doomed - {(id, pid)})
    case MonitorMarks(id, pid) => s.(rows := MarkedFailed(s.rows, id), doomed := s.doomed - {(id, pid)})
  }

  ghost predicate Run(states: seq<State>, steps: seq<Step>) {
    && |states| == |steps| + 1
    && states[0] == EMPTY
    && forall i | 0 <= i < |steps| :: Enabled(states[i], steps[i]) && states[i + 1] == Apply(states[i], steps[i])
  }

  // ---- Safety --------------------------------------------------------------------------

  /** What a record can hold at each stage of its worker, whatever the monitor does. */
  predicate RowFits(row: Row, worker: Worker) {
    match worker
    case Refused => row.status == Failed
    case ByClient => row == Row(WaitingClient, "")
    case Copying(_) =>
      match row.status {
        case InProgress => row.errorMsg == ""
        case Cancelled => row.errorMsg != ""
        case Failed => true
        case _ => false
      }
    case _ =>
      match row.status {
        case Completed => row.errorMsg == ""
        case Cancelled => row.errorMsg != ""
        case Failed => true
        case _ => false
      }
  }

  predicate Copied(w: Worker) {
    w == Removing || w.Done?
  }

  /** A transfer that is said to have failed, without a word why. */
  predicate Mute(row: Row) {
    row.status == Failed && row.errorMsg == ""
  }

  predicate Served(w: Worker) {
    w != ByClient && w != Refused
  }

  ghost predicate SameKeys(s: State) {
    s.rows.Keys == s.workers.Keys == s.pids.Keys
  }

  ghost predicate Consistent(s: State) {
    && SameKeys(s)
    && (forall id | id in s.rows :: RowFits(s.rows[id], s.workers[id]))
    && (forall p | p in s.stopping :: p.0 in s.workers && Served(s.workers[p.0]))
    && (forall p | p in s.doomed :: p.0 in s.workers && Served(s.workers[p.0]))
  }

  /** Besides, the error text tells failed and cancelled transfers once the copy is over. */
  ghost predicate Inv(s: State) {
    && Consistent(s)
    && forall id | id in s.rows && Copied(s.workers[id]) :: !Mute(s.rows[id])
  }

  /** A monitor's mark on a transfer that has completed since the monitor selected it. */
  predicate LateMark(s: State, step: Step) {
    step.MonitorMarks? && step.id in s.rows && s.rows[step.id].status == Completed
  }

  // What a step does to one transfer's record, worker and process identifier.

  function Guarded(row: Row, next: Row): Row {
    if row.status == Cancelled then row else next
  }

  function RowAfter(row: Row, step: Step, id: Id): Row {
    match step
    case CopyEnds(k, message) => if k == id then Guarded(row, CopyOutcome(message)) else row
    case RemovalFails(k, what) => if k == id then Guarded(row, Row(Failed, what)) else row
    case StopKills(k, _, user) => if k == id then Guarded(row, Row(Cancelled, "by: " + user)) else row
    case StopFails(k, _, reason) => if k == id then Guarded(row, Row(Failed, reason)) else row
    case MonitorMarks(k, _) => if k == id then row.(status := Failed) else row
    case _ => row
  }

  function WorkerAfter(w: Worker, step: Step, id: Id): Worker {
    match step
    case CopyEnds(k, _) => if k == id && w.Copying? then if w.kind == Copy then Done(Copy) else Removing else w
    case RemovalWorks(k) => if k == id then Done(Move) else w
    case RemovalFails(k, _) => if k == id then Done(Move) else w
    case _ => w
  }

  function PidAfter(pid: int, step: Step, id: Id): int {
    if step.RecordsPid? && step.id == id then step.pid else pid
  }

  /** The record and worker a transfer enters with. */
  predicate Entry(row: Row, worker: Worker, step: Step, id: Id) {
    match step
    case Start(k, kind) => k == id && row == Row(InProgress, "") && worker == Copying(kind)
    case StartRefused(k, reason) => k == id && row == Row(Failed, reason) && worker == Refused
    case StartByClient(k) => k == id && row == Row(WaitingClient, "") && worker == ByClient
    case _ => false
  }

  predicate Known(s: State, id: Id) {
    id in s.rows && id in s.workers && id in s.pids
  }

  predicate Follows(s: State, step: Step, t: State, id: Id) {
    if Known(s, id) then
      && Known(t, id)
      && t.rows[id] == RowAfter(s.rows[id], step, id)
      && t.workers[id] == WorkerAfter(s.workers[id], step, id)
      && t.pids[id] == PidAfter(s.pids[id], step, id)
    else
      Known(t, id) ==> Entry(t.rows[id], t.workers[id], step, id) && t.pids[id] == NO_PROCESS
  }

  lemma StepFollows(s: State, step: Step, id: Id)
    requires SameKeys(s) && Enabled(s, step)
    ensures Follows(s, step, Apply(s, step), id)
  {
  }

  lemma StepKeepsKeys(s: State, step: Step)
    requires SameKeys(s) && Enabled(s, step)
    ensures SameKeys(Apply(s, step))
  {
  }

  /** Which steps a transfer's worker allows. */
  predicate Allows(s: State, step: Step, id: Id) {
    match step
    case CopyEnds(k, _) => k == id ==> Known(s, id) && s.workers[id].Copying?
    case RemovalWorks(k) => k == id ==> Known(s, id) && s.workers[id].Removing?
    case RemovalFails(k, what) => k == id ==> Known(s, id) && s.workers[id].Removing? && what != ""
    case StopKills(k, _, _) => k == id ==> Known(s, id) && Served(s.workers[id])
    case StopFails(k, _, reason) => k == id ==> Known(s, id) && Served(s.workers[id]) && reason != ""
    case MonitorMarks(k, _) => k == id ==> Known(s, id) && Served(s.workers[id])
    case _ => true
  }

  lemma EnabledAllows(s: State, step: Step, id: Id)
    requires Consistent(s) && Enabled(s, step)
    ensures Allows(s, step, id)
  {
  }

  lemma FitsNext(s: State, step: Step, t: State, id: Id)
    requires Follows(s, step, t, id) && Known(t, id)
    requires Allows(s, step, id) && (Known(s, id) ==> RowFits(s.rows[id], s.workers[id]))
    ensures RowFits(t.rows[id], t.workers[id])
    ensures Known(s, id) && Served(s.workers[id]) ==> Served(t.workers[id])
  {
    match step
    case StopKills(_, _, user) => assert "by: " + user != "";
    case _ =>
  }

  /** What a queue of selected transfers can hold after a step. */
  lemma StoppingAfter(s: State, step: Step, p: (Id, int))
    requires Enabled(s, step) && p in Apply(s, step).stopping
    ensures p in s.stopping || (step.StopSelects? && p in WithPids(s.pids, step.ids))
  {
  }

  lemma DoomedAfter(s: State, step: Step, p: (Id, int))
    requires Enabled(s, step) && p in Apply(s, step).doomed
    ensures p in s.doomed || (step.MonitorSelects? && p in WithPids(s.pids, step.ids))
  {
  }

  lemma QueuesServed(s: State, step: Step, p: (Id, int))
    requires Consistent(s) && Enabled(s, step)
    requires p in Apply(s, step).stopping || p in Apply(s, step).doomed
    ensures p.0 in s.workers && Served(s.workers[p.0])
  {
    if p in Apply(s, step).stopping { StoppingAfter(s, step, p); } else { DoomedAfter(s, step, p); }
    assert p.0 in s.rows ==> RowFits(s.rows[p.0], s.workers[p.0]);
  }

  lemma StepKeepsConsistent(s: State, step: Step)
    requires Consistent(s) && Enabled(s, step)
    ensures Consistent(Apply(s, step))
  {
    var t := Apply(s, step);
    StepKeepsKeys(s, step);
    forall id | id in t.rows ensures RowFits(t.rows[id], t.workers[id]) {
      StepFollows(s, step, id);
      EnabledAllows(s, step, id);
      FitsNext(s, step, t, id);
    }
    forall p | p in t.stopping || p in t.doomed ensures p.0 in t.workers && Served(t.workers[p.0]) {
      QueuesServed(s, step, p);
      StepFollows(s, step, p.0);
      EnabledAllows(s, step, p.0);
      FitsNext(s, step, t, p.0);
    }
  }

  /** A step that ends a copy or a removal, or stops them, with its own text. */
  predicate Writes(step: Step, id: Id) {
    match step
    case CopyEnds(k, _) => k == id
    case RemovalFails(k, _) => k == id
    case StopKills(k, _, _) => k == id
    case StopFails(k, _, _) => k == id
    case _ => false
  }

  lemma MutesNext(s: State, step: Step, t: State, id: Id)
    requires Follows(s, step, t, id) && Known(t, id) && Copied(t.workers[id])
    requires Allows(s, step, id) && (Known(s, id) ==> RowFits(s.rows[id], s.workers[id]))
    ensures Known(s, id)
    ensures Mute(t.rows[id]) <==>
      (LateMark(s, step) && step.id == id)
      || (Copied(s.workers[id]) && Mute(s.rows[id]) && !Writes(step, id))
  {
    match step
    case StopKills(_, _, user) => assert "by: " + user != "";
    case _ =>
  }

  /** Which step leaves a record mute: a late mark of it, or any that does not write it. */
  lemma StepMutes(s: State, step: Step, id: Id)
    requires Consistent(s) && Enabled(s, step)
    requires id in Apply(s, step).workers && Copied(Apply(s, step).workers[id])
    ensures id in s.rows && id in Apply(s, step).rows
    ensures Mute(Apply(s, step).rows[id]) <==>
      (LateMark(s, step) && step.id == id)
      || (Copied(s.workers[id]) && Mute(s.rows[id]) && !Writes(step, id))
  {
    StepKeepsKeys(s, step);
    StepFollows(s, step, id);
    EnabledAllows(s, step, id);
    MutesNext(s, step, Apply(s, step), id);
  }

  /** Every step keeps the invariant, except exactly a late mark. */
  lemma StepKeepsInv(s: State, step: Step)
    requires Inv(s) && Enabled(s, step)
    ensures Inv(Apply(s, step)) <==> !LateMark(s, step)
  {
    var t := Apply(s, step);
    StepKeepsConsistent(s, step);
    forall id | id in t.rows && Copied(t.workers[id])
      ensures Mute(t.rows[id]) <==> LateMark(s, step) && step.id == id
    {
      StepMutes(s, step, id);
    }
    if LateMark(s, step) {
      assert step.id in t.rows && Copied(t.workers[step.id]);
    }
  }

  lemma {:induction false} AlwaysConsistent(states: seq<State>, steps: seq<Step>, i: nat)
    requires Run(states, steps) && i < |states|
    ensures Consistent(states[i])
  {
    if i > 0 {
      AlwaysConsistent(states, steps, i - 1);
      StepKeepsConsistent(states[i - 1], steps[i - 1]);
    }
  }

  /** A run as one transfer goes through it. */
  ghost predicate Story(states: seq<State>, steps: seq<Step>, id: Id) {
    && |states| == |steps| + 1 && !Known(states[0], id)
    && (forall i | 0 <= i < |steps| :: Follows(states[i], steps[i], states[i + 1], id))
    && (forall i | 0 <= i < |states| :: Known(states[i], id) ==> RowFits(states[i].rows[id], states[i].workers[id]))
    && (forall i | 0 <= i < |steps| :: Allows(states[i], steps[i], id))
  }

  lemma RunTells(states: seq<State>, steps: seq<Step>, id: Id)
    requires Run(states, steps)
    ensures Story(states, steps, id)
  {
    forall i | 0 <= i < |states|
      ensures Known(states[i], id) ==> RowFits(states[i].rows[id], states[i].workers[id])
    {
      AlwaysConsistent(states, steps, i);
    }
    forall i | 0 <= i < |steps| ensures Follows(states[i], steps[i], states[i + 1], id) {
      AlwaysConsistent(states, steps, i);
      StepFollows(states[i], steps[i], id);
    }
    forall i | 0 <= i < |steps| ensures Allows(states[i], steps[i], id) {
      AlwaysConsistent(states, steps, i);
      EnabledAllows(states[i], steps[i], id);
    }
  }

  /** Without late marks, the invariant holds throughout. */
  lemma {:induction false} Safety(states: seq<State>, steps: seq<Step>, i: nat)
    requires Run(states, steps) && i < |states|
    requires forall j | 0 <= j < i :: !LateMark(states[j], steps[j])
    ensures Inv(states[i])
  {
    if i > 0 {
      Safety(states, steps, i - 1);
      StepKeepsInv(states[i - 1], steps[i - 1]);
    }
  }

  // ---- What a synchronous call returns -------------------------------------------------

  /** What a synchronous call returns when it is over: 0, or the error text it throws. */
  function Answer(s: State, id: Id): Option<string>
    requires id in s.rows && id in s.workers
  {
    if s.workers[id] == Refused || s.rows[id].errorMsg != "" then Some(s.rows[id].errorMsg) else None
  }

  predicate Over(w: Worker) {
    w.Done? || w == ByClient || w == Refused
  }

  predicate MarksLate(states: seq<State>, steps: seq<Step>, j: nat, id: Id)
    requires |states| == |steps| + 1 && j < |steps|
  {
    LateMark(states[j], steps[j]) && steps[j].id == id
  }

  predicate Unwritten(steps: seq<Step>, from: nat, to: nat, id: Id)
    requires to <= |steps|
  {
    forall k | from <= k < to :: !Writes(steps[k], id)
  }

  /** A late mark of the transfer that nothing has written over since. */
  ghost predicate Silenced(states: seq<State>, steps: seq<Step>, i: nat, id: Id)
    requires |states| == |steps| + 1 && i < |states|
  {
    exists j: nat :: j < i && MarksLate(states, steps, j, id) && Unwritten(steps, j + 1, i, id)
  }

  lemma SilencedNext(states: seq<State>, steps: seq<Step>, i: nat, id: Id)
    requires |states| == |steps| + 1 && i < |steps|
    ensures Silenced(states, steps, i + 1, id) <==>
      MarksLate(states, steps, i, id) || (Silenced(states, steps, i, id) && !Writes(steps[i], id))
  {
    if MarksLate(states, steps, i, id) {
      assert Unwritten(steps, i + 1, i + 1, id);
    }
    if Silenced(states, steps, i, id) && !Writes(steps[i], id) {
      var j: nat :| j < i && MarksLate(states, steps, j, id) && Unwritten(steps, j + 1, i, id);
      assert Unwritten(steps, j + 1, i + 1, id);
    }
    if Silenced(states, steps, i + 1, id) && !MarksLate(states, steps, i, id) {
      var j: nat :| j < i + 1 && MarksLate(states, steps, j, id) && Unwritten(steps, j + 1, i + 1, id);
      assert j < i && Unwritten(steps, j + 1, i, id) && !Writes(steps[i], id);
    }
  }

  lemma CopiedStays(s: State, step: Step, id: Id)
    requires Consistent(s) && Enabled(s, step)
    ensures id in s.workers && Copied(s.workers[id]) ==>
      id in Apply(s, step).workers && Copied(Apply(s, step).workers[id])
    ensures LateMark(s, step) && step.id == id ==> id in s.workers && Copied(s.workers[id])
  {
  }

  predicate MuteAfterCopy(s: State, id: Id) {
    id in s.rows && id in s.workers && Copied(s.workers[id]) && Mute(s.rows[id])
  }

  predicate CopyOver(s: State, id: Id) {
    id in s.workers && Copied(s.workers[id])
  }

  lemma MuteNext(s: State, step: Step, t: State, id: Id)
    requires Consistent(s) && Enabled(s, step) && t == Apply(s, step)
    ensures MuteAfterCopy(t, id) <==>
      (LateMark(s, step) && step.id == id) || (MuteAfterCopy(s, id) && !Writes(step, id))
  {
    StepKeepsConsistent(s, step);
    CopiedStays(s, step, id);
    if CopyOver(t, id) { StepMutes(s, step, id); }
  }

  /** In every run, a record is mute after its copy exactly if a late mark of it stands. */
  lemma {:induction false} MuteIffSilenced(states: seq<State>, steps: seq<Step>, i: nat, id: Id)
    requires Run(states, steps) && i < |states|
    ensures MuteAfterCopy(states[i], id) <==> Silenced(states, steps, i, id)
  {
    if i > 0 {
      MuteIffSilenced(states, steps, i - 1, id);
      AlwaysConsistent(states, steps, i - 1);
      SilencedNext(states, steps, i - 1, id);
      MuteNext(states[i - 1], steps[i - 1], states[i], id);
    }
  }

  /**
   In every run and at every moment after the call, a synchronous call returns 0 exactly when
   the transfer completed or was left to the client, and the error text is there exactly for
   failed and cancelled transfers: both if and only if no late mark of it stands.
   */
  lemma ZeroMeansCompleted(states: seq<State>, steps: seq<Step>, i: nat, id: Id)
    requires Run(states, steps) && i < |states|
    requires id in states[i].rows && id in states[i].workers && Over(states[i].workers[id])
    ensures (Answer(states[i], id) == None <==> states[i].rows[id].status in {Completed, WaitingClient})
       <==> !Silenced(states, steps, i, id)
    ensures states[i].workers[id].Done? ==>
      ((states[i].rows[id].errorMsg != "" <==> states[i].rows[id].status in {Failed, Cancelled})
       <==> !Silenced(states, steps, i, id))
    ensures Silenced(states, steps, i, id) ==>
      Answer(states[i], id) == None && states[i].rows[id].status == Failed
  {
    AlwaysConsistent(states, steps, i);
    MuteIffSilenced(states, steps, i, id);
  }

  // ---- Cancelled transfers -------------------------------------------------------------

  /** Of all steps only the monitor's mark can touch a cancelled record. */
  lemma OnlyTheMonitorTouchesCancelled(s: State, step: Step, id: Id)
    requires SameKeys(s) && Enabled(s, step)
    requires id in s.rows && s.rows[id].status == Cancelled
    ensures id in Apply(s, step).rows
    ensures Apply(s, step).rows[id] == s.rows[id] <==> !Marks(step, id)
  {
    StepFollows(s, step, id);
  }

  predicate Marks(step: Step, id: Id) {
    step.MonitorMarks? && step.id == id
  }

  ghost predicate UnchangedFrom(states: seq<State>, id: Id, i: nat, j: nat)
    requires i <= j < |states|
  {
    && id in states[i].rows
    && forall k | i <= k <= j :: id in states[k].rows && states[k].rows[id] == states[i].rows[id]
  }

  lemma {:induction false} CancelledInStory(states: seq<State>, steps: seq<Step>, id: Id, i: nat, j: nat)
    requires Story(states, steps, id) && i <= j < |states|
    requires Known(states[i], id) && states[i].rows[id].status == Cancelled
    ensures Known(states[j], id)
    ensures UnchangedFrom(states, id, i, j) <==> forall k | i <= k < j :: !Marks(steps[k], id)
  {
    if i < j {
      CancelledInStory(states, steps, id, i, j - 1);
      assert Follows(states[j - 1], steps[j - 1], states[j], id);
      if UnchangedFrom(states, id, i, j - 1) {
        assert states[j].rows[id] == states[i].rows[id] <==> !Marks(steps[j - 1], id);
        assert UnchangedFrom(states, id, i, j) <==> states[j].rows[id] == states[i].rows[id];
      }
    }
  }

  /** In every run, a cancelled record stays as it is exactly until the monitor marks it. */
  lemma CancelledUntilMarked(states: seq<State>, steps: seq<Step>, id: Id, i: nat, j: nat)
    requires Run(states, steps)
    requires i <= j < |states| && id in states[i].rows && states[i].rows[id].status == Cancelled
    ensures UnchangedFrom(states, id, i, j) <==> forall k | i <= k < j :: !Marks(steps[k], id)
  {
    AlwaysConsistent(states, steps, i);
    RunTells(states, steps, id);
    CancelledInStory(states, steps, id, i, j);
  }

  /** Where the monitor's selection and update are one step, a marked row is in progress. */
  predicate MarksInProgress(s: State, step: Step) {
    step.MonitorMarks? ==> step.id in s.rows && s.rows[step.id].status == InProgress
  }

  ghost predicate AtomicMonitor(states: seq<State>, steps: seq<Step>)
    requires |states| == |steps| + 1
  {
    forall i | 0 <= i < |steps| :: MarksInProgress(states[i], steps[i])
  }

  /** So with an atomic monitor a cancelled record never changes again. */
  lemma {:induction false} CancelledIsAbsorbing(states: seq<State>, steps: seq<Step>, id: Id, i: nat, j: nat)
    requires Run(states, steps) && AtomicMonitor(states, steps)
    requires i <= j < |states| && id in states[i].rows && states[i].rows[id].status == Cancelled
    ensures UnchangedFrom(states, id, i, j)
  {
    if i < j {
      CancelledIsAbsorbing(states, steps, id, i, j - 1);
      CancelledUntilMarked(states, steps, id, i, j - 1);
      CancelledUntilMarked(states, steps, id, i, j);
      assert MarksInProgress(states[j - 1], steps[j - 1]);
      assert states[j - 1].rows[id] == states[i].rows[id];
    }
  }

  /** One transfer by itself. */
  function Alone(
      id: Id, row: Row, pid: int, worker: Worker, stopping: multiset<(Id, int)>, doomed: set<(Id, int)>): State
  {
    State(map[id := row], map[id := pid], map[id := worker], stopping, doomed, {})
  }

  // ---- Stop requests -------------------------------------------------------------------

  /** Some selected transfer of that identifier came with a process. */
  ghost predicate SelectedWithProcess(selected: seq<(Id, int)>, id: Id) {
    exists k | 0 <= k < |selected| :: selected[k].0 == id && selected[k].1 != NO_PROCESS
  }

  lemma SelectedCons(selected: seq<(Id, int)>, id: Id)
    requires selected != []
    ensures SelectedWithProcess(selected, id) <==>
      (selected[0].0 == id && selected[0].1 != NO_PROCESS) || SelectedWithProcess(selected[1..], id)
  {
    if SelectedWithProcess(selected[1..], id) {
      var k :| 0 <= k < |selected[1..]| && selected[1..][k].0 == id && selected[1..][k].1 != NO_PROCESS;
      assert selected[k + 1].0 == id;
    }
    if SelectedWithProcess(selected, id) && !(selected[0].0 == id && selected[0].1 != NO_PROCESS) {
      var k :| 0 <= k < |selected| && selected[k].0 == id && selected[k].1 != NO_PROCESS;
      assert selected[1..][k - 1].0 == id;
    }
  }

  /**
   A stop request that returns 0 has cancelled what it selected, nobody interfering, exactly
   where a process was recorded; and it has changed nothing else.
   */
  lemma {:induction false} StopCancelsIffProcess(
      rows: Table, selected: seq<(Id, int)>, failures: int -> Option<string>, user: string, id: Id)
    requires id in rows && StopAll(rows, selected, failures, user).1 == None
    ensures var after := StopAll(rows, selected, failures, user).0;
            && id in after
            && (after[id].status == Cancelled <==> rows[id].status == Cancelled || SelectedWithProcess(selected, id))
            && (!SelectedWithProcess(selected, id) ==> after[id] == rows[id])
  {
    if selected != [] {
      var (k, pid) := selected[0];
      var next := StopOne(rows, k, pid, failures(pid), user).0;
      SelectedCons(selected, id);
      StopCancelsIffProcess(next, selected[1..], failures, user, id);
    }
  }

  /** Where no process is recorded a stop request returns 0 and does nothing. */
  lemma {:induction false} StopWithoutProcesses(
      rows: Table, selected: seq<(Id, int)>, failures: int -> Option<string>, user: string)
    requires forall k | 0 <= k < |selected| :: selected[k].1 == NO_PROCESS
    ensures StopAll(rows, selected, failures, user) == (rows, None)
  {
    if selected != [] { StopWithoutProcesses(rows, selected[1..], failures, user); }
  }

  /** And a pass of the monitor marks every transfer in progress, whatever is running. */
  lemma CheckWithoutProcesses(rows: Table, pids: map<Id, int>, running: set<int>)
    requires rows.Keys == pids.Keys && forall id | id in pids :: pids[id] == NO_PROCESS
    ensures Checked(rows, pids, running) == Checked(rows, pids, {})
    ensures forall id | id in rows :: Checked(rows, pids, running)[id].status != InProgress
  {
  }

  /** A step that writes a process identifier into the transfer's record. */
  predicate Records(step: Step, id: Id) {
    step.RecordsPid? && step.id == id && step.pid != NO_PROCESS
  }

  predicate Stops(step: Step, id: Id) {
    (step.StopKills? || step.StopFails?) && step.id == id
  }

  /** Nothing knows a process of the transfer. */
  ghost predicate Unreachable(s: State, id: Id) {
    && (Known(s, id) ==> s.pids[id] == NO_PROCESS && s.rows[id].status != Cancelled)
    && (forall p | p in s.stopping :: p.0 == id ==> p.1 == NO_PROCESS)
    && (forall p | p in s.doomed :: p.0 == id ==> p.1 == NO_PROCESS)
  }

  lemma StaysUnreachable(s: State, step: Step, id: Id)
    requires SameKeys(s) && Enabled(s, step) && Unreachable(s, id) && !Records(step, id)
    ensures !Stops(step, id) && !Spares(step, id) && Unreachable(Apply(s, step), id)
  {
    var t := Apply(s, step);
    NotStopped(s, step, id);
    StepKeepsKeys(s, step);
    StepFollows(s, step, id);
    forall p | p in t.stopping && p.0 == id ensures p.1 == NO_PROCESS {
      StoppingAfter(s, step, p);
    }
    forall p | p in t.doomed && p.0 == id ensures p.1 == NO_PROCESS {
      DoomedAfter(s, step, p);
    }
  }

  lemma NotStopped(s: State, step: Step, id: Id)
    requires Enabled(s, step) && Unreachable(s, id)
    ensures !Stops(step, id) && !Spares(step, id)
  {
  }

  predicate Spares(step: Step, id: Id) {
    step.MonitorSpares? && step.id == id
  }

  /**
   In every run, as long as no process of a transfer has been recorded, no stop request acts on
   it, the monitor never spares it, and its record is never cancelled.
   */
  lemma {:induction false} NoProcessNoStop(states: seq<State>, steps: seq<Step>, i: nat, id: Id)
    requires Run(states, steps) && i < |states|
    requires forall j | 0 <= j < i :: !Records(steps[j], id)
    ensures Unreachable(states[i], id)
    ensures forall j | 0 <= j < i :: !Stops(steps[j], id) && !Spares(steps[j], id)
  {
    if i > 0 {
      NoProcessNoStop(states, steps, i - 1, id);
      AlwaysConsistent(states, steps, i - 1);
      StaysUnreachable(states[i - 1], steps[i - 1], id);
    }
  }

  /** So where no process is ever recorded, no transfer is ever cancelled. */
  lemma NothingIsEverCancelled(states: seq<State>, steps: seq<Step>, i: nat, id: Id)
    requires Run(states, steps) && i < |states| && id in states[i].rows
    requires forall j | 0 <= j < |steps| :: !steps[j].RecordsPid?
    ensures states[i].rows[id].status != Cancelled
  {
    AlwaysConsistent(states, steps, i);
    NoProcessNoStop(states, steps, i, id);
  }

  /**
   A step that deals with a selected transfer without throwing leaves it cancelled exactly if
   it was selected with a process, or had been cancelled before.
   */
  lemma StopLeavesCancelledIff(s: State, step: Step)
    requires Consistent(s) && Enabled(s, step) && (step.StopKills? || step.StopSkips?)
    ensures step.id in s.rows && step.id in Apply(s, step).rows
    ensures Apply(s, step).rows[step.id].status == Cancelled <==>
            step.StopKills? || s.rows[step.id].status == Cancelled
  {
    StepFollows(s, step, step.id);
  }

  /** A stop request that returns 0 while the transfer it selected goes on and completes. */
  lemma StopLeavesItRunning(id: Id) returns (states: seq<State>, steps: seq<Step>)
    ensures steps == [Start(id, Copy), StopSelects({id}), StopSkips(id), CopyEnds(id, "")]
    ensures Run(states, steps) && id in states[4].rows && states[4].rows[id] == Row(Completed, "")
  {
    steps := [Start(id, Copy), StopSelects({id}), StopSkips(id), CopyEnds(id, "")];
    var s1 := Apply(EMPTY, steps[0]);
    var s2 := Apply(s1, steps[1]);
    assert (id, NO_PROCESS) in s2.stopping;
    var s3 := Apply(s2, steps[2]);
    states := [EMPTY, s1, s2, s3, Apply(s3, steps[3])];
  }

  // ---- Moves ---------------------------------------------------------------------------

  /** In every run, the removal of a source was tried exactly for the moves that are over. */
  lemma {:induction false} RemovedIffMoveOver(states: seq<State>, steps: seq<Step>, i: nat, id: Id)
    requires Run(states, steps) && i < |states|
    ensures id in states[i].removed <==> id in states[i].workers && states[i].workers[id] == Done(Move)
  {
    if i > 0 {
      RemovedIffMoveOver(states, steps, i - 1, id);
      AlwaysConsistent(states, steps, i - 1);
      assert states[i] == Apply(states[i - 1], steps[i - 1]);
    }
  }

  /** The end of a transfer's copy, and what the command said. */
  ghost predicate CopyEnded(steps: seq<Step>, i: nat, id: Id, message: string)
    requires i <= |steps|
  {
    exists j | 0 <= j < i :: steps[j] == CopyEnds(id, message)
  }

  /** A transfer's worker has left the copy only if the copy has ended, once. */
  lemma {:induction false} CopyEndsOnce(
      states: seq<State>, steps: seq<Step>, i: nat, id: Id, message: string, other: string)
    requires Story(states, steps, id) && i < |states|
    ensures CopyEnded(steps, i, id, message) ==> Known(states[i], id) && Copied(states[i].workers[id])
    ensures CopyEnded(steps, i, id, message) && CopyEnded(steps, i, id, other) ==> message == other
  {
    if i > 0 {
      CopyEndsOnce(states, steps, i - 1, id, message, other);
      CopyEndsOnce(states, steps, i - 1, id, other, message);
      assert Follows(states[i - 1], steps[i - 1], states[i], id);
      CopyEndedNext(steps, i - 1, id, message);
      CopyEndedNext(steps, i - 1, id, other);
      assert Allows(states[i - 1], steps[i - 1], id);
    }
  }

  lemma CopyEndedNext(steps: seq<Step>, i: nat, id: Id, message: string)
    requires i < |steps|
    ensures CopyEnded(steps, i + 1, id, message) <==>
            CopyEnded(steps, i, id, message) || steps[i] == CopyEnds(id, message)
  {
    if CopyEnded(steps, i, id, message) {
      var j :| 0 <= j < i && steps[j] == CopyEnds(id, message);
      assert j < i + 1;
    }
  }

  lemma {:induction false} CopyEndsFirst(states: seq<State>, steps: seq<Step>, i: nat, id: Id)
    returns (message: string)
    requires Story(states, steps, id) && i < |states| && Known(states[i], id) && Copied(states[i].workers[id])
    ensures CopyEnded(steps, i, id, message)
  {
    var step := steps[i - 1];
    assert Follows(states[i - 1], step, states[i], id);
    message := if step.CopyEnds? && step.id == id then step.message else "";
    if !(step.CopyEnds? && step.id == id) {
      message := CopyEndsFirst(states, steps, i - 1, id);
    }
    CopyEndedNext(steps, i - 1, id, message);
  }

  /** A source is only removed after its one copy has ended, but with whatever outcome. */
  lemma RemovalFollowsCopy(states: seq<State>, steps: seq<Step>, i: nat, id: Id) returns (message: string)
    requires Run(states, steps) && i < |states| && id in states[i].workers && Copied(states[i].workers[id])
    ensures CopyEnded(steps, i, id, message)
    ensures forall other :: CopyEnded(steps, i, id, other) ==> other == message
  {
    AlwaysConsistent(states, steps, i);
    RunTells(states, steps, id);
    message := CopyEndsFirst(states, steps, i, id);
    forall other | CopyEnded(steps, i, id, other) ensures other == message {
      CopyEndsOnce(states, steps, i, id, message, other);
    }
  }

  /** A copy of the transfer that ended well. */
  ghost predicate CopiedWell(steps: seq<Step>, i: nat, id: Id)
    requires i <= |steps|
  {
    exists message :: CopyEnded(steps, i, id, message) && CopyOutcome(message).status == Completed
  }

  /**
   In every run, a move that is over has removed its source; it did so after a good copy if and
   only if the one message its copy ended with is empty, which nothing in the move looks at.
   */
  lemma MoveRemovesAfterGoodCopyIff(states: seq<State>, steps: seq<Step>, i: nat, id: Id)
    returns (message: string)
    requires Run(states, steps) && i < |states|
    requires id in states[i].workers && states[i].workers[id] == Done(Move)
    ensures CopyEnded(steps, i, id, message)
    ensures forall other :: CopyEnded(steps, i, id, other) ==> other == message
    ensures id in states[i].removed && CopiedWell(steps, i, id) <==> message == ""
  {
    RemovedIffMoveOver(states, steps, i, id);
    message := RemovalFollowsCopy(states, steps, i, id);
  }

  /** A copy that fails, with any text, and the removal of its source after it. */
  lemma FailedCopyIsRemoved(id: Id, message: string) returns (states: seq<State>, steps: seq<Step>)
    requires message != ""
    ensures Run(states, steps) && steps == [Start(id, Move), CopyEnds(id, message), RemovalWorks(id)]
    ensures id in states[3].rows && states[3].rows[id] == Row(Failed, message) && id in states[3].removed
  {
    var s0 := EMPTY;
    steps := [Start(id, Move), CopyEnds(id, message), RemovalWorks(id)];
    var s1 := Apply(s0, steps[0]);
    var s2 := Apply(s1, steps[1]);
    states := [s0, s1, s2, Apply(s2, steps[2])];
  }

  // ---- What the monitor breaks when its two statements are apart -----------------------

  /** With a recorded process, a cancelled transfer that the monitor selected before becomes a failed one. */
  lemma LateMarkOverwritesCancelled(id: Id, pid: int, user: string) returns (states: seq<State>, steps: seq<Step>)
    requires pid != NO_PROCESS
    ensures steps == [Start(id, Copy), RecordsPid(id, pid), MonitorSelects({id}), StopSelects({id}),
                      StopKills(id, pid, user), MonitorMarks(id, pid)]
    ensures Run(states, steps) && id in states[5].rows && id in states[6].rows
    ensures states[5].rows[id].status == Cancelled && states[6].rows[id].status == Failed
  {
    steps := [Start(id, Copy), RecordsPid(id, pid), MonitorSelects({id}), StopSelects({id}),
              StopKills(id, pid, user), MonitorMarks(id, pid)];
    var p, begun := (id, pid), Row(InProgress, "");
    var ended := Row(Cancelled, "by: " + user);
    var s1 := Alone(id, begun, NO_PROCESS, Copying(Copy), multiset{}, {});
    var s2 := Alone(id, begun, pid, Copying(Copy), multiset{}, {});
    var s3 := Alone(id, begun, pid, Copying(Copy), multiset{}, {p});
    var s4 := Alone(id, begun, pid, Copying(Copy), multiset{p}, {p});
    var s5 := Alone(id, ended, pid, Copying(Copy), multiset{}, {p});
    var s6 := Alone(id, ended.(status := Failed), pid, Copying(Copy), multiset{}, {});
    AloneStarts(id);
    AloneRecords(id, pid);
    AloneSelected(id, pid);
    AloneStops(id, pid);
    AloneKilled(id, pid, user);
    AloneMarked(id, pid, ended);
    states := [EMPTY, s1, s2, s3, s4, s5, s6];
    SixSteps(states, steps);
  }

  ghost predicate Goes(s: State, step: Step, t: State) {
    Enabled(s, step) && t == Apply(s, step)
  }

  lemma SixSteps(states: seq<State>, steps: seq<Step>)
    requires |states| == 7 && |steps| == 6 && states[0] == EMPTY
    requires Goes(states[0], steps[0], states[1]) && Goes(states[1], steps[1], states[2])
    requires Goes(states[2], steps[2], states[3]) && Goes(states[3], steps[3], states[4])
    requires Goes(states[4], steps[4], states[5]) && Goes(states[5], steps[5], states[6])
    ensures Run(states, steps)
  {
    forall i | 0 <= i < 6 ensures Goes(states[i], steps[i], states[i + 1]) {
      assert i == 0 || i == 1 || i == 2 || i == 3 || i == 4 || i == 5;
    }
  }

  const BEGUN := Row(InProgress, "")

  lemma AloneStarts(id: Id)
    ensures Enabled(EMPTY, Start(id, Copy))
    ensures Apply(EMPTY, Start(id, Copy)) == Alone(id, BEGUN, NO_PROCESS, Copying(Copy), multiset{}, {})
  {
  }

  lemma AloneRecords(id: Id, pid: int)
    ensures var s := Alone(id, BEGUN, NO_PROCESS, Copying(Copy), multiset{}, {});
            Enabled(s, RecordsPid(id, pid)) && Apply(s, RecordsPid(id, pid)) == s.(pids := map[id := pid])
  {
  }

  lemma AloneSelected(id: Id, pid: int)
    ensures var s := Alone(id, BEGUN, pid, Copying(Copy), multiset{}, {});
            && Enabled(s, MonitorSelects({id}))
            && Apply(s, MonitorSelects({id})) == s.(doomed := {(id, pid)})
  {
    assert WithPids(map[id := pid], {id}) == {(id, pid)};
  }

  lemma AloneStops(id: Id, pid: int)
    ensures var s := Alone(id, BEGUN, pid, Copying(Copy), multiset{}, {(id, pid)});
            && Enabled(s, StopSelects({id}))
            && Apply(s, StopSelects({id})) == s.(stopping := multiset{(id, pid)})
  {
    assert WithPids(map[id := pid], {id}) == {(id, pid)};
  }

  lemma AloneKilled(id: Id, pid: int, user: string)
    requires pid != NO_PROCESS
    ensures var s := Alone(id, BEGUN, pid, Copying(Copy), multiset{(id, pid)}, {(id, pid)});
            && Enabled(s, StopKills(id, pid, user))
            && Apply(s, StopKills(id, pid, user))
               == s.(rows := map[id := Row(Cancelled, "by: " + user)], stopping := multiset{})
  {
  }

  lemma AloneMarked(id: Id, pid: int, row: Row)
    ensures var s := Alone(id, row, pid, Copying(Copy), multiset{}, {(id, pid)});
            && Enabled(s, MonitorMarks(id, pid))
            && Apply(s, MonitorMarks(id, pid)) == s.(rows := map[id := row.(status := Failed)], doomed := {})
  {
  }

  /** A completed copy becomes a failed one, and its call still returns 0. */
  lemma LateMarkFailsSilently(id: Id) returns (states: seq<State>, steps: seq<Step>)
    ensures steps == [Start(id, Copy), MonitorSelects({id}), CopyEnds(id, ""), MonitorMarks(id, NO_PROCESS)]
    ensures Run(states, steps)
    ensures id in states[4].rows && id in states[4].workers && Over(states[4].workers[id])
    ensures states[4].rows[id].status == Failed && Answer(states[4], id) == None
  {
    steps := [Start(id, Copy), MonitorSelects({id}), CopyEnds(id, ""), MonitorMarks(id, NO_PROCESS)];
    var s1 := Apply(EMPTY, steps[0]);
    var s2 := Apply(s1, steps[1]);
    var s3 := Apply(s2, steps[2]);
    states := [EMPTY, s1, s2, s3, Apply(s3, steps[3])];
  }
}
