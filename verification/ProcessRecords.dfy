/** Per-process records (app/services/workrecord.py:80-130) over the processes that syncs add and drop. */
module ProcessRecords {
  import opened Prelude
  import opened Relational
  import opened ProcessSync
  import opened ProcessFlush
  import opened ProcessSyncTheorems

  datatype Process = Process(standardId: int, content: Content)

  datatype Note = Note(condition: Option<int>, answer: Option<string>, voicePath: Option<string>)

  datatype ProcessRecord = ProcessRecord(
    scheduleId: int, processId: int, typ: string, startAt: int, endAt: Option<int>,
    startNote: Note, endNote: Note, process: Option<string>)

  /** The committed tables and their id sequences. */
  datatype World = World(
    schedules: set<int>, processes: map<int, Process>, nextProcessId: int,
    records: map<int, ProcessRecord>, nextRecordId: int)

  datatype Op =
    | BeginProcess(scheduleId: int, processId: int, typ: Option<string>, at: int, note: Note, process: Option<string>, commits: bool)
    | EndProcess(scheduleId: int, processId: int, at: int, note: Note, process: Option<string>, commits: bool)
    | Sync(standardId: int, loaded: seq<Row>, incoming: seq<Upsert>, commits: bool)

  datatype Problem = ScheduleNotFound | ProcessMissing | RecordNotFound | MultipleRows | SyncFailed(error: SyncError)

  datatype Reply = Done | Rejected(problem: Problem)

  function OpenOf(records: map<int, ProcessRecord>, scheduleId: int, processId: int): (ids: set<int>)
    ensures forall id :: id in ids <==>
              id in records && records[id].scheduleId == scheduleId && records[id].processId == processId && records[id].endAt.None?
  {
    set id | id in records && records[id].scheduleId == scheduleId && records[id].processId == processId && records[id].endAt.None?
  }

  const EMPTY_NOTE := Note(None, None, None)

  function NewRecord(op: Op): ProcessRecord
    requires op.BeginProcess?
  {
    ProcessRecord(op.scheduleId, op.processId, if op.typ.Some? && op.typ.value != "" then op.typ.value else "PROCESS",
                  op.at, None, op.note, EMPTY_NOTE, op.process)
  }

  function EndedRecord(r: ProcessRecord, op: Op): ProcessRecord
    requires op.EndProcess?
  {
    r.(endAt := Some(op.at), endNote := op.note, process := if op.process.Some? then op.process else r.process)
  }

  function BeginStep(w: World, op: Op): (World, Reply)
    requires op.BeginProcess?
  {
    if op.scheduleId !in w.schedules then (w, Rejected(ScheduleNotFound))
    else if op.processId !in w.processes then (w, Rejected(ProcessMissing))
    else
      (w.(records := if op.commits then w.records[w.nextRecordId := NewRecord(op)] else w.records,
          nextRecordId := w.nextRecordId + 1), Done)
  }

  ghost function EndStep(w: World, op: Op): (World, Reply)
    requires op.EndProcess?
  {
    match ScalarOneOrNone(OpenOf(w.records, op.scheduleId, op.processId))
    case SeveralRows => (w, Rejected(MultipleRows))
    case NoRow => (w, Rejected(RecordNotFound))
    case OneRow(id) =>
      (if op.commits then w.(records := w.records[id := EndedRecord(w.records[id], op)]) else w, Done)
  }

  function Referenced(records: map<int, ProcessRecord>): (ids: set<int>)
    ensures forall id :: id in records ==> records[id].processId in ids
  {
    set id | id in records :: records[id].processId
  }

  /** The rows as a table, under their standard. */
  function Stored(standardId: int, rows: seq<Row>): (m: map<int, Process>)
    ensures forall id :: id in m <==> HasId(rows, Some(id))
  {
    if rows == [] then map[]
    else
      var n := |rows| - 1;
      var m := Stored(standardId, rows[..n]);
      assert forall id :: HasId(rows, Some(id)) <==> HasId(rows[..n], Some(id)) || rows[n].id == Some(id) by {
        forall id ensures HasId(rows, Some(id)) <==> HasId(rows[..n], Some(id)) || rows[n].id == Some(id) {
          if HasId(rows, Some(id)) && rows[n].id != Some(id) {
            var i :| 0 <= i < |rows| && rows[i].id == Some(id);
            assert rows[..n][i].id == Some(id);
          }
          if HasId(rows[..n], Some(id)) {
            var i :| 0 <= i < n && rows[..n][i].id == Some(id);
            assert rows[i].id == Some(id);
          }
        }
      }
      if rows[n].id.Some? then m[rows[n].id.value := Process(standardId, rows[n].content)] else m
  }

  /** The processes of other standards, and these rows as those of one. */
  function Replaced(processes: map<int, Process>, standardId: int, rows: seq<Row>): map<int, Process> {
    var others := map id | id in processes && processes[id].standardId != standardId :: processes[id];
    others + Stored(standardId, rows)
  }

  function SyncStep(w: World, op: Op): (World, Reply)
    requires op.Sync?
  {
    match SyncRequest(op.loaded, w.nextProcessId, Referenced(w.records), op.incoming)
    case Err(e) => (w, Rejected(SyncFailed(e)))
    case Ok(rows) =>
      (w.(processes := if op.commits then Replaced(w.processes, op.standardId, rows) else w.processes,
          nextProcessId := w.nextProcessId + |NewRows(op.incoming)|), Done)
  }

  /** A sync works on the standard's own processes, in whatever order they were loaded. */
  ghost predicate Possible(w: World, op: Op) {
    op.Sync? ==>
      && Persisted(op.loaded)
      && (forall id :: HasId(op.loaded, Some(id)) <==> id in w.processes && w.processes[id].standardId == op.standardId)
      && (forall i :: 0 <= i < |op.loaded| && op.loaded[i].id.value in w.processes ==>
            w.processes[op.loaded[i].id.value].content == op.loaded[i].content)
  }

  ghost function Step(w: World, op: Op): (World, Reply) {
    match op
    case BeginProcess(_, _, _, _, _, _, _) => BeginStep(w, op)
    case EndProcess(_, _, _, _, _, _) => EndStep(w, op)
    case Sync(_, _, _, _) => SyncStep(w, op)
  }

  ghost predicate IsRun(w: World, ops: seq<Op>)
    decreases |ops|
  {
    ops == [] || (Possible(w, ops[0]) && IsRun(Step(w, ops[0]).0, ops[1..]))
  }

  ghost function After(w: World, ops: seq<Op>): World
    decreases |ops|
  {
    if ops == [] then w else After(Step(w, ops[0]).0, ops[1..])
  }

  // ---------------------------------------------------------------- the service, in place

  class WorkProcessRecordService {
    const schedules: set<int>
    const processes: map<int, Process>
    const nextProcessId: int
    var records: map<int, ProcessRecord>
    var nextRecordId: int

    /** One request against the given committed state. */
    constructor (w: World)
      ensures Snapshot() == w
    {
      schedules, processes, nextProcessId := w.schedules, w.processes, w.nextProcessId;
      records, nextRecordId := w.records, w.nextRecordId;
    }

    function Snapshot(): World
      reads this
    {
      World(schedules, processes, nextProcessId, records, nextRecordId)
    }

    method Begin(scheduleId: int, processId: int, typ: Option<string>, at: Option<int>, now: int, note: Note,
                 process: Option<string>, commits: bool) returns (reply: Reply)
      modifies this
      ensures (Snapshot(), reply) == BeginStep(old(Snapshot()), BeginProcess(scheduleId, processId, typ, at.GetOr(now), note, process, commits))
    {
      if scheduleId !in schedules {
        return Rejected(ScheduleNotFound);
      }
      if processId !in processes {
        return Rejected(ProcessMissing);
      }
      var kind := if typ.Some? && typ.value != "" then typ.value else "PROCESS";
      var r := ProcessRecord(scheduleId, processId, kind, at.GetOr(now), None, note, EMPTY_NOTE, process);
      var id := nextRecordId;
      nextRecordId := nextRecordId + 1;
      if commits {
        records := records[id := r];
      }
      reply := Done;
    }

    method End(scheduleId: int, processId: int, at: Option<int>, now: int, note: Note, process: Option<string>, commits: bool)
      returns (reply: Reply)
      modifies this
      ensures (Snapshot(), reply) == EndStep(old(Snapshot()), EndProcess(scheduleId, processId, at.GetOr(now), note, process, commits))
    {
      var found := FetchScalar(OpenOf(records, scheduleId, processId));
      if found.SeveralRows? {
        return Rejected(MultipleRows);
      }
      if found.NoRow? {
        return Rejected(RecordNotFound);
      }
      assert found.id in OpenOf(records, scheduleId, processId);
      var r := records[found.id].(endAt := Some(at.GetOr(now)), endNote := note);
      if process.Some? {
        r := r.(process := process);
      }
      if commits {
        records := records[found.id := r];
      }
      reply := Done;
    }
  }

  // ---------------------------------------------------------------- open counts

  /** `end_process` closes a record if and only if exactly one is open. */
  lemma EndsIffExactlyOneOpen(w: World, op: Op)
    requires op.EndProcess?
    ensures var open := OpenOf(w.records, op.scheduleId, op.processId);
            && (EndStep(w, op).1.Done? <==> |open| == 1)
            && (EndStep(w, op).1.Done? && op.commits ==> OpenOf(EndStep(w, op).0.records, op.scheduleId, op.processId) == {})
            && (!EndStep(w, op).1.Done? ==> EndStep(w, op).0 == w)
  {
    var open := OpenOf(w.records, op.scheduleId, op.processId);
    match ScalarOneOrNone(open)
    case OneRow(id) =>
      assert id in open;
      assert OpenOf(w.records[id := EndedRecord(w.records[id], op)], op.scheduleId, op.processId) == {};
    case NoRow =>
    case SeveralRows =>
      var a, b :| a in open && b in open && a != b;
      assert |open - {a}| == |open| - 1 && b in open - {a};
  }

  ghost predicate RecordIdsBelow(w: World) {
    forall id :: id in w.records ==> id < w.nextRecordId
  }

  /** A committed begin of this schedule and process. */
  ghost predicate Opens(w: World, op: Op, scheduleId: int, processId: int) {
    op.BeginProcess? && op.scheduleId == scheduleId && op.processId == processId && op.commits && BeginStep(w, op).1.Done?
  }

  /** A committed end of this schedule and process. */
  ghost predicate Closes(w: World, op: Op, scheduleId: int, processId: int) {
    op.EndProcess? && op.scheduleId == scheduleId && op.processId == processId && op.commits && EndStep(w, op).1.Done?
  }

  lemma BeginOpens(w: World, op: Op, scheduleId: int, processId: int)
    requires RecordIdsBelow(w) && op.BeginProcess?
    ensures RecordIdsBelow(BeginStep(w, op).0)
    ensures OpenOf(BeginStep(w, op).0.records, scheduleId, processId)
            == OpenOf(w.records, scheduleId, processId) + if Opens(w, op, scheduleId, processId) then {w.nextRecordId} else {}
    ensures w.nextRecordId !in OpenOf(w.records, scheduleId, processId)
  {
  }

  lemma EndCloses(w: World, op: Op, scheduleId: int, processId: int)
    requires RecordIdsBelow(w) && op.EndProcess?
    ensures RecordIdsBelow(EndStep(w, op).0)
    ensures var open, open' := OpenOf(w.records, scheduleId, processId), OpenOf(EndStep(w, op).0.records, scheduleId, processId);
            if Closes(w, op, scheduleId, processId) then |open| == 1 && open' == {} else open' == open
  {
    EndsIffExactlyOneOpen(w, op);
    var w' := EndStep(w, op).0;
    if w'.records != w.records && !(op.scheduleId == scheduleId && op.processId == processId) {
      assert OpenOf(w'.records, scheduleId, processId) == OpenOf(w.records, scheduleId, processId);
    }
  }

  lemma SyncKeepsRecords(w: World, op: Op)
    requires op.Sync?
    ensures SyncStep(w, op).0.records == w.records && SyncStep(w, op).0.nextRecordId == w.nextRecordId
  {
  }

  /** A committed begin adds one open record, a committed end takes the only one away, and nothing else counts. */
  lemma OpenCountStep(w: World, op: Op, scheduleId: int, processId: int)
    requires RecordIdsBelow(w)
    ensures RecordIdsBelow(Step(w, op).0)
    ensures var n, n' := |OpenOf(w.records, scheduleId, processId)|, |OpenOf(Step(w, op).0.records, scheduleId, processId)|;
            if Opens(w, op, scheduleId, processId) then n' == n + 1
            else if Closes(w, op, scheduleId, processId) then n == 1 && n' == 0
            else n' == n
  {
    if op.BeginProcess? {
      BeginOpens(w, op, scheduleId, processId);
    } else if op.EndProcess? {
      EndCloses(w, op, scheduleId, processId);
    } else {
      SyncKeepsRecords(w, op);
    }
  }

  /** Two open records of one schedule and process stay: nothing can end them any more. */
  lemma {:induction false} TwoOpenRecordsAreStuck(w: World, ops: seq<Op>, scheduleId: int, processId: int)
    requires RecordIdsBelow(w) && 2 <= |OpenOf(w.records, scheduleId, processId)|
    ensures |OpenOf(w.records, scheduleId, processId)| <= |OpenOf(After(w, ops).records, scheduleId, processId)|
    decreases |ops|
  {
    if ops != [] {
      OpenCountStep(w, ops[0], scheduleId, processId);
      TwoOpenRecordsAreStuck(Step(w, ops[0]).0, ops[1..], scheduleId, processId);
    }
  }

  /** And such a state is one request away: a begin is accepted whatever is open, so a second one leaves two, after
      which every end is refused. */
  lemma SecondBeginIsAccepted(w: World, op: Op, end: Op)
    requires RecordIdsBelow(w) && op.BeginProcess? && op.commits && op.scheduleId in w.schedules && op.processId in w.processes
    requires |OpenOf(w.records, op.scheduleId, op.processId)| == 1
    requires end.EndProcess? && end.scheduleId == op.scheduleId && end.processId == op.processId
    ensures Step(w, op).1 == Done && |OpenOf(Step(w, op).0.records, op.scheduleId, op.processId)| == 2
    ensures Step(Step(w, op).0, end).1 == Rejected(MultipleRows)
  {
    OpenCountStep(w, op, op.scheduleId, op.processId);
    EndsIffExactlyOneOpen(Step(w, op).0, end);
  }

  ghost predicate NeverTwoOpen(w: World, ops: seq<Op>, scheduleId: int, processId: int)
    decreases |ops|
  {
    |OpenOf(w.records, scheduleId, processId)| <= 1
    && (ops == [] || NeverTwoOpen(Step(w, ops[0]).0, ops[1..], scheduleId, processId))
  }

  ghost predicate BeginsMeetNone(w: World, ops: seq<Op>, scheduleId: int, processId: int)
    decreases |ops|
  {
    ops == [] || ((Opens(w, ops[0], scheduleId, processId) ==> OpenOf(w.records, scheduleId, processId) == {})
                  && BeginsMeetNone(Step(w, ops[0]).0, ops[1..], scheduleId, processId))
  }

  /** A run never has two open records exactly when it starts with at most one and every committed begin meets none. */
  lemma {:induction false} NeverTwoOpenIffBeginsMeetNone(w: World, ops: seq<Op>, scheduleId: int, processId: int)
    requires RecordIdsBelow(w)
    ensures NeverTwoOpen(w, ops, scheduleId, processId)
            <==> |OpenOf(w.records, scheduleId, processId)| <= 1 && BeginsMeetNone(w, ops, scheduleId, processId)
    decreases |ops|
  {
    if ops != [] {
      OpenCountStep(w, ops[0], scheduleId, processId);
      NeverTwoOpenIffBeginsMeetNone(Step(w, ops[0]).0, ops[1..], scheduleId, processId);
      assert |OpenOf(w.records, scheduleId, processId)| == 0 <==> OpenOf(w.records, scheduleId, processId) == {};
    }
  }

  // ---------------------------------------------------------------- references

  ghost predicate RefsOk(w: World) {
    && (forall id :: id in w.records ==> w.records[id].processId in w.processes && w.records[id].scheduleId in w.schedules)
    && (forall id :: id in w.processes ==> id < w.nextProcessId)
  }

  lemma LoadedBelow(w: World, op: Op)
    requires RefsOk(w) && op.Sync? && Possible(w, op)
    ensures IdsBelow(op.loaded, w.nextProcessId)
  {
    forall i | 0 <= i < |op.loaded| && op.loaded[i].id.Some?
      ensures op.loaded[i].id.value < w.nextProcessId
    {
      assert HasId(op.loaded, Some(op.loaded[i].id.value));
    }
  }

  lemma ReplacedKeepsRefs(w: World, op: Op, rows: seq<Row>, nextId: int)
    requires RefsOk(w) && op.Sync? && Possible(w, op) && w.nextProcessId <= nextId
    requires forall id :: id in Referenced(w.records) && HasId(op.loaded, Some(id)) ==> HasId(rows, Some(id))
    requires forall id :: HasId(rows, Some(id)) ==> id < nextId
    ensures RefsOk(w.(processes := Replaced(w.processes, op.standardId, rows), nextProcessId := nextId))
  {
    forall id | id in w.records
      ensures w.records[id].processId in Replaced(w.processes, op.standardId, rows)
    {
      var p := w.records[id].processId;
      if w.processes[p].standardId == op.standardId {
        assert HasId(op.loaded, Some(p)) && p in Referenced(w.records);
      }
    }
  }

  lemma SyncKeepsRefs(w: World, op: Op)
    requires RefsOk(w) && op.Sync? && Possible(w, op)
    ensures RefsOk(SyncStep(w, op).0)
  {
    var request := SyncRequest(op.loaded, w.nextProcessId, Referenced(w.records), op.incoming);
    if request.Ok? && op.commits {
      LoadedBelow(w, op);
      SuccessfulSync(op.loaded, w.nextProcessId, Referenced(w.records), op.incoming);
      SyncedIdsBelow(op.loaded, w.nextProcessId, op.incoming);
      ReplacedKeepsRefs(w, op, request.value, w.nextProcessId + |NewRows(op.incoming)|);
    }
  }

  /** The ids handed out stay below the advanced sequence. */
  lemma SyncedIdsBelow(rows: seq<Row>, nextId: int, incoming: seq<Upsert>)
    requires Persisted(rows) && IdsBelow(rows, nextId)
    ensures forall id :: HasId(AssignIds(Synced(rows, incoming), nextId), Some(id)) ==> id < nextId + |NewRows(incoming)|
  {
    var kept := Map(Kept(rows, incoming), (r: Row) => Overwritten(r, incoming));
    KeptIsPersisted(rows, incoming);
    NewRowsHaveNoId(incoming);
    AssignIdsAppend(kept, NewRows(incoming), nextId);
    AssignIdsCount(NewRows(incoming), nextId);
    var all := AssignIds(Synced(rows, incoming), nextId);
    forall id | HasId(all, Some(id))
      ensures id < nextId + |NewRows(incoming)|
    {
      var i :| 0 <= i < |all| && all[i].id == Some(id);
      if i < |kept| {
        assert all[i] == kept[i] && Kept(rows, incoming)[i] in rows;
      }
    }
  }

  lemma {:induction false} AssignIdsCount(rows: seq<Row>, nextId: int)
    requires forall i :: 0 <= i < |rows| ==> rows[i].id.None?
    ensures forall i :: 0 <= i < |rows| ==> AssignIds(rows, nextId)[i].id == Some(nextId + i)
  {
    if rows != [] {
      AssignIdsCount(rows[1..], nextId + 1);
    }
  }

  /** In every reachable state every record points to an existing process and schedule: a sync that would drop a
      recorded process fails. */
  lemma {:induction false} RunsKeepRefs(w: World, ops: seq<Op>)
    requires RefsOk(w) && IsRun(w, ops)
    ensures RefsOk(After(w, ops))
    decreases |ops|
  {
    if ops != [] {
      StepKeepsRefs(w, ops[0]);
      RunsKeepRefs(Step(w, ops[0]).0, ops[1..]);
    }
  }

  lemma StepKeepsRefs(w: World, op: Op)
    requires RefsOk(w) && Possible(w, op)
    ensures RefsOk(Step(w, op).0)
  {
    match op
    case Sync(_, _, _, _) => SyncKeepsRefs(w, op);
    case EndProcess(s, p, _, _, _, _) =>
      EndsIffExactlyOneOpen(w, op);
      match ScalarOneOrNone(OpenOf(w.records, s, p)) {
        case OneRow(id) => assert id in OpenOf(w.records, s, p);
        case _ =>
      }
    case BeginProcess(_, _, _, _, _, _, _) =>
  }

  // ---------------------------------------------------------------- what a sync and a record leave behind

  /** Exactly these rows, under this standard. */
  ghost predicate HoldsRows(processes: map<int, Process>, standardId: int, rows: seq<Row>) {
    && (forall id :: id in processes && processes[id].standardId == standardId <==> HasId(rows, Some(id)))
    && (forall i :: 0 <= i < |rows| && rows[i].id.Some? ==>
          rows[i].id.value in processes && processes[rows[i].id.value] == Process(standardId, rows[i].content))
  }

  /** The processes of every other standard are the same rows as before. */
  ghost predicate OthersKept(processes: map<int, Process>, processes': map<int, Process>, standardId: int) {
    forall id :: (id in processes && processes[id].standardId != standardId) || (id in processes' && processes'[id].standardId != standardId)
            ==> id in processes && id in processes' && processes'[id] == processes[id]
  }

  lemma {:induction false} StoredAt(standardId: int, rows: seq<Row>, i: nat)
    requires Persisted(rows) && i < |rows|
    ensures rows[i].id.value in Stored(standardId, rows)
    ensures Stored(standardId, rows)[rows[i].id.value] == Process(standardId, rows[i].content)
  {
    assert HasId(rows, Some(rows[i].id.value));
    var n := |rows| - 1;
    if i < n {
      assert rows[..n][i] == rows[i];
      StoredAt(standardId, rows[..n], i);
    }
  }

  lemma {:induction false} StoredUnder(standardId: int, rows: seq<Row>)
    ensures forall id :: id in Stored(standardId, rows) ==> Stored(standardId, rows)[id].standardId == standardId
  {
    if rows != [] {
      StoredUnder(standardId, rows[..|rows| - 1]);
    }
  }

  lemma ReplacedHolds(processes: map<int, Process>, standardId: int, rows: seq<Row>)
    requires Persisted(rows)
    requires forall id :: HasId(rows, Some(id)) && id in processes ==> processes[id].standardId == standardId
    ensures HoldsRows(Replaced(processes, standardId, rows), standardId, rows)
    ensures OthersKept(processes, Replaced(processes, standardId, rows), standardId)
  {
    StoredUnder(standardId, rows);
    forall i | 0 <= i < |rows| && rows[i].id.Some?
      ensures rows[i].id.value in Replaced(processes, standardId, rows)
      ensures Replaced(processes, standardId, rows)[rows[i].id.value] == Process(standardId, rows[i].content)
    {
      StoredAt(standardId, rows, i);
    }
  }

  /** What a sync leaves: committed, exactly the rows of its reply under its standard and every other standard as it was;
      refused or rolled back, nothing new.  It touches no record and no schedule. */
  lemma SyncStores(w: World, op: Op)
    requires RefsOk(w) && op.Sync? && Possible(w, op)
    ensures var (w', reply) := Step(w, op);
            var request := SyncRequest(op.loaded, w.nextProcessId, Referenced(w.records), op.incoming);
            && (reply == Done <==> request.Ok?) && (request.Err? ==> reply == Rejected(SyncFailed(request.error)))
            && w'.records == w.records && w'.schedules == w.schedules
            && (reply == Done && op.commits ==>
                  HoldsRows(w'.processes, op.standardId, request.value) && OthersKept(w.processes, w'.processes, op.standardId))
            && (reply != Done || !op.commits ==> w'.processes == w.processes)
  {
    var request := SyncRequest(op.loaded, w.nextProcessId, Referenced(w.records), op.incoming);
    if request.Ok? {
      LoadedBelow(w, op);
      SuccessfulSync(op.loaded, w.nextProcessId, Referenced(w.records), op.incoming);
      ReplacedHolds(w.processes, op.standardId, request.value);
    }
  }

  lemma OtherRequestsKeepProcesses(w: World, op: Op)
    requires !op.Sync?
    ensures Step(w, op).0.processes == w.processes
  {
  }

  /** An id that is gone, or was never given, and is below the sequence does not come back. */
  lemma {:induction false} GoneStaysGone(w: World, ops: seq<Op>, id: int)
    requires RefsOk(w) && IsRun(w, ops) && id < w.nextProcessId && id !in w.processes
    ensures id !in After(w, ops).processes
    decreases |ops|
  {
    if ops != [] {
      GoneForAStep(w, ops[0], id);
      StepKeepsRefs(w, ops[0]);
      GoneStaysGone(Step(w, ops[0]).0, ops[1..], id);
    }
  }

  lemma GoneForAStep(w: World, op: Op, id: int)
    requires RefsOk(w) && Possible(w, op) && id < w.nextProcessId && id !in w.processes
    ensures id !in Step(w, op).0.processes && id < Step(w, op).0.nextProcessId
  {
    if op.Sync? {
      SyncStores(w, op);
      var request := SyncRequest(op.loaded, w.nextProcessId, Referenced(w.records), op.incoming);
      if request.Ok? {
        LoadedBelow(w, op);
        SuccessfulSync(op.loaded, w.nextProcessId, Referenced(w.records), op.incoming);
      }
    } else {
      OtherRequestsKeepProcesses(w, op);
    }
  }

  ghost predicate SyncsStandard(w: World, op: Op, standardId: int) {
    op.Sync? && op.standardId == standardId && op.commits && SyncStep(w, op).1 == Done
  }

  ghost predicate NeverSyncs(w: World, ops: seq<Op>, standardId: int)
    decreases |ops|
  {
    ops == [] || (!SyncsStandard(w, ops[0], standardId) && NeverSyncs(Step(w, ops[0]).0, ops[1..], standardId))
  }

  /** A step leaves a process where it is or drops it; its content changes only by a committed sync of its standard. */
  lemma ProcessStep(w: World, op: Op, id: int)
    requires RefsOk(w) && Possible(w, op) && id in w.processes
    ensures var processes' := Step(w, op).0.processes;
            && (id in processes' ==> processes'[id].standardId == w.processes[id].standardId)
            && (!SyncsStandard(w, op, w.processes[id].standardId) ==> id in processes' && processes'[id] == w.processes[id])
  {
    if op.Sync? {
      SyncStores(w, op);
    } else {
      OtherRequestsKeepProcesses(w, op);
    }
  }

  /** Over every run a process never changes its standard, and without a committed sync of its standard it stays exactly
      as it is. */
  lemma {:induction false} ProcessesBelongToTheirStandard(w: World, ops: seq<Op>, id: int)
    requires RefsOk(w) && IsRun(w, ops) && id in w.processes
    ensures id in After(w, ops).processes ==> After(w, ops).processes[id].standardId == w.processes[id].standardId
    ensures NeverSyncs(w, ops, w.processes[id].standardId) ==>
              id in After(w, ops).processes && After(w, ops).processes[id] == w.processes[id]
    decreases |ops|
  {
    if ops != [] {
      var w' := Step(w, ops[0]).0;
      ProcessStep(w, ops[0], id);
      StepKeepsRefs(w, ops[0]);
      if id in w'.processes {
        ProcessesBelongToTheirStandard(w', ops[1..], id);
      } else {
        assert id < w'.nextProcessId;
        GoneStaysGone(w', ops[1..], id);
      }
    }
  }

  /** What a begin writes, and where its refusals come from. */
  lemma BeginMeans(w: World, op: Op)
    requires op.BeginProcess? && RecordIdsBelow(w)
    ensures var (w', reply) := Step(w, op);
            && (reply == Done <==> op.scheduleId in w.schedules && op.processId in w.processes)
            && (reply == Rejected(ScheduleNotFound) <==> op.scheduleId !in w.schedules)
            && (reply == Rejected(ProcessMissing) <==> op.scheduleId in w.schedules && op.processId !in w.processes)
            && w'.processes == w.processes && w'.schedules == w.schedules
            && (reply != Done || !op.commits ==> w'.records == w.records)
            && (reply == Done && op.commits ==>
                  && w.nextRecordId !in w.records && w.nextRecordId in w'.records && w'.records - {w.nextRecordId} == w.records
                  && var r := w'.records[w.nextRecordId];
                     && r.scheduleId == op.scheduleId && r.processId == op.processId && r.startAt == op.at && r.endAt.None?
                     && r.startNote == op.note && r.endNote == Note(None, None, None) && r.process == op.process
                     && r.typ == if op.typ.None? || op.typ.value == "" then "PROCESS" else op.typ.value)
  {
  }

  /** What an end writes: the end and its note, the process text if sent, into the one open record. */
  lemma EndMeans(w: World, op: Op)
    requires op.EndProcess?
    ensures var (w', reply) := Step(w, op);
            var open := OpenOf(w.records, op.scheduleId, op.processId);
            && (reply == Done <==> |open| == 1) && (reply == Rejected(RecordNotFound) <==> |open| == 0)
            && w'.processes == w.processes && w'.schedules == w.schedules && w'.records.Keys == w.records.Keys
            && (forall id :: id in w.records ==>
                  var r, r' := w.records[id], w'.records[id];
                  if reply == Done && op.commits && id in open
                  then && r'.endAt == Some(op.at) && r'.endNote == op.note && r'.process == (if op.process.Some? then op.process else r.process)
                       && r'.(endAt := r.endAt, endNote := r.endNote, process := r.process) == r
                  else r' == r)
  {
    EndsIffExactlyOneOpen(w, op);
    match ScalarOneOrNone(OpenOf(w.records, op.scheduleId, op.processId))
    case OneRow(id) => assert id in OpenOf(w.records, op.scheduleId, op.processId);
    case _ =>
  }

  /** The rows `list_process` joins: the schedule's records in the query's order, and the process table. */
  ghost predicate Scanned(w: World, scheduleId: int, rows: seq<(int, ProcessRecord)>, table: seq<(int, Process)>) {
    && (forall i :: 0 <= i < |rows| ==> rows[i].0 in w.records && w.records[rows[i].0] == rows[i].1)
    && (forall id :: id in w.records && w.records[id].scheduleId == scheduleId ==> (id, w.records[id]) in rows)
    && (forall i :: 0 <= i < |rows| ==> rows[i].1.scheduleId == scheduleId)
    && (forall i, j :: 0 <= i < j < |rows| ==> rows[i].0 != rows[j].0)
    && (forall id :: id in w.processes ==> (id, w.processes[id]) in table)
    && (forall i, j :: 0 <= i < j < |table| ==> table[i].0 != table[j].0)
  }

  /** `list_process` lists every record of the schedule exactly once, each with its own process. */
  lemma ListProcessIsComplete(w: World, ops: seq<Op>, scheduleId: int, rows: seq<(int, ProcessRecord)>, table: seq<(int, Process)>)
    requires RefsOk(w) && IsRun(w, ops) && Scanned(After(w, ops), scheduleId, rows, table)
    ensures var on := (r: (int, ProcessRecord), p: (int, Process)) => p.0 == r.1.processId;
            var listed := Join(rows, table, on);
            && |listed| == |rows|
            && forall i :: 0 <= i < |rows| ==> listed[i].0 == rows[i] && listed[i].1.0 == rows[i].1.processId
  {
    RunsKeepRefs(w, ops);
    JoinListsAll(After(w, ops), scheduleId, rows, table);
  }

  lemma JoinListsAll(w: World, scheduleId: int, rows: seq<(int, ProcessRecord)>, table: seq<(int, Process)>)
    requires RefsOk(w) && Scanned(w, scheduleId, rows, table)
    ensures var on := (r: (int, ProcessRecord), p: (int, Process)) => p.0 == r.1.processId;
            var listed := Join(rows, table, on);
            && |listed| == |rows|
            && forall i :: 0 <= i < |rows| ==> listed[i].0 == rows[i] && listed[i].1.0 == rows[i].1.processId
  {
    var on := (r: (int, ProcessRecord), p: (int, Process)) => p.0 == r.1.processId;
    forall i | 0 <= i < |rows|
      ensures HasOnlyMatch(rows[i], table, on)
    {
      var p := rows[i].1.processId;
      var id := rows[i].0;
      assert id in w.records;
      assert w.records[id].processId in w.processes;
      assert w.records[id] == rows[i].1;
      assert p in w.processes;
      assert (p, w.processes[p]) in table;
      var j :| 0 <= j < |table| && table[j] == (p, w.processes[p]);
      assert OnlyMatch(rows[i], table, on, j);
    }
    JoinOverKey(rows, table, on);
  }
}
