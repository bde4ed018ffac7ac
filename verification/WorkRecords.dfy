/** Work records: the ON/WORK/REST/OFF state machine of app/services/workrecord.py:36-64 and the closing of
    schedules, one request at a time. */
module WorkRecords {
  import opened Prelude
  import opened Relational

  datatype RecordType = ON | WORK | REST | OFF

  datatype WorkRecord = WorkRecord(scheduleId: int, typ: RecordType, startAt: int, endAt: Option<int>)

  datatype WorkSchedule = WorkSchedule(startAt: int, endAt: Option<int>)

  datatype Db = Db(schedules: map<int, WorkSchedule>, records: map<int, WorkRecord>, nextId: int)

  datatype Problem = ScheduleNotFound | AlreadyOpen | RecordNotFound | MultipleRows

  datatype Reply = Record(id: int, record: WorkRecord) | Closed | Rejected(problem: Problem)

  predicate IsOpen(r: WorkRecord, scheduleId: int, typ: RecordType) {
    r.scheduleId == scheduleId && r.typ == typ && r.endAt.None?
  }

  function OpenIds(records: map<int, WorkRecord>, scheduleId: int, typ: RecordType): (ids: set<int>)
    ensures forall id :: id in ids <==> id in records && IsOpen(records[id], scheduleId, typ)
  {
    set id | id in records && IsOpen(records[id], scheduleId, typ)
  }

  /** `commits` says whether the transaction holds; a rollback gives back everything but the id. */
  ghost function BeginStep(db: Db, scheduleId: int, typ: RecordType, at: int, commits: bool): (Db, Reply) {
    if scheduleId !in db.schedules then (db, Rejected(ScheduleNotFound))
    else match ScalarOneOrNone(OpenIds(db.records, scheduleId, typ))
      case SeveralRows => (db, Rejected(MultipleRows))
      case OneRow(_) => (db, Rejected(AlreadyOpen))
      case NoRow =>
        var r := WorkRecord(scheduleId, typ, at, None);
        (Db(db.schedules, if commits then db.records[db.nextId := r] else db.records, db.nextId + 1), Record(db.nextId, r))
  }

  ghost function EndStep(db: Db, scheduleId: int, typ: RecordType, at: int, commits: bool): (Db, Reply) {
    match ScalarOneOrNone(OpenIds(db.records, scheduleId, typ))
    case SeveralRows => (db, Rejected(MultipleRows))
    case NoRow => (db, Rejected(RecordNotFound))
    case OneRow(id) =>
      var r := db.records[id].(endAt := Some(at));
      var schedules := if typ == OFF && scheduleId in db.schedules
                       then db.schedules[scheduleId := db.schedules[scheduleId].(endAt := Some(at))] else db.schedules;
      (if commits then Db(schedules, db.records[id := r], db.nextId) else db, Record(id, r))
  }

  function CloseStep(db: Db, scheduleId: int, at: int, commits: bool): (Db, Reply) {
    if scheduleId !in db.schedules then (db, Rejected(ScheduleNotFound))
    else
      var s := db.schedules[scheduleId].(endAt := Some(at));
      (if commits then db.(schedules := db.schedules[scheduleId := s]) else db, Closed)
  }

  /** `req.at or datetime.now()` */
  function Instant(at: Option<int>, now: int): int {
    at.GetOr(now)
  }

  // ---------------------------------------------------------------- the service, in place

  class WorkRecordService {
    var schedules: map<int, WorkSchedule>
    var records: map<int, WorkRecord>
    var nextId: int

    constructor (schedules: map<int, WorkSchedule>)
      ensures Snapshot() == Db(schedules, map[], 1) && Valid()
    {
      this.schedules, records, nextId := schedules, map[], 1;
    }

    function Snapshot(): Db
      reads this
    {
      Db(schedules, records, nextId)
    }

    ghost predicate Valid()
      reads this
    {
      DbValid(Snapshot())
    }

    method FindOpenRecord(scheduleId: int, typ: RecordType) returns (f: Found)
      ensures f == ScalarOneOrNone(OpenIds(records, scheduleId, typ))
    {
      f := FetchScalar(OpenIds(records, scheduleId, typ));
    }

    method Begin(scheduleId: int, typ: RecordType, at: Option<int>, now: int, commits: bool) returns (reply: Reply)
      requires Valid()
      modifies this
      ensures Valid()
      ensures (Snapshot(), reply) == BeginStep(old(Snapshot()), scheduleId, typ, Instant(at, now), commits)
      ensures reply.Record? <==> scheduleId in schedules && forall id :: id in old(records) ==> !IsOpen(old(records)[id], scheduleId, typ)
      ensures reply.Record? ==> reply.id !in old(records)
                                && reply.record == WorkRecord(scheduleId, typ, if at.Some? then at.value else now, None)
      ensures records == if reply.Record? && commits then old(records)[reply.id := reply.record] else old(records)
      ensures schedules == old(schedules)
    {
      assert forall id :: id in OpenIds(records, scheduleId, typ) <==> id in records && IsOpen(records[id], scheduleId, typ);
      if scheduleId !in schedules {
        return Rejected(ScheduleNotFound);
      }
      var found := FindOpenRecord(scheduleId, typ);
      if found.SeveralRows? {
        return Rejected(MultipleRows);
      }
      if found.OneRow? {
        return Rejected(AlreadyOpen);
      }
      var r := WorkRecord(scheduleId, typ, Instant(at, now), None);
      var id := nextId;
      nextId := nextId + 1;
      ghost var before := records;
      if commits {
        records := records[id := r];
        InsertKeepsOne(before, id, r);
      }
      reply := Record(id, r);
    }

    method End(scheduleId: int, typ: RecordType, at: Option<int>, now: int, commits: bool) returns (reply: Reply)
      requires Valid()
      modifies this
      ensures Valid()
      ensures (Snapshot(), reply) == EndStep(old(Snapshot()), scheduleId, typ, Instant(at, now), commits)
      ensures reply.Record? <==> exists id :: id in old(records) && IsOpen(old(records)[id], scheduleId, typ)
      ensures reply.Record? ==>
                && reply.id in old(records) && IsOpen(old(records)[reply.id], scheduleId, typ)
                && reply.record == old(records)[reply.id].(endAt := Some(if at.Some? then at.value else now))
      ensures records == if reply.Record? && commits then old(records)[reply.id := reply.record] else old(records)
      ensures !(reply.Record? && commits && typ == OFF) ==> schedules == old(schedules)
      ensures reply.Record? && commits && typ == OFF ==>
                && schedules.Keys == old(schedules).Keys
                && (forall s :: s in schedules && s != scheduleId ==> schedules[s] == old(schedules)[s])
                && (scheduleId in schedules ==> schedules[scheduleId] == old(schedules)[scheduleId].(endAt := reply.record.endAt))
    {
      assert AtMostOneOpen(records, scheduleId, typ);
      assert forall id :: id in OpenIds(records, scheduleId, typ) <==> id in records && IsOpen(records[id], scheduleId, typ);
      var found := FindOpenRecord(scheduleId, typ);
      if found.SeveralRows? {
        return Rejected(MultipleRows);
      }
      if found.NoRow? {
        return Rejected(RecordNotFound);
      }
      assert found.id in OpenIds(records, scheduleId, typ);
      var r := records[found.id].(endAt := Some(Instant(at, now)));
      var workingSchedules := schedules;
      if typ == OFF {
        if r.scheduleId in workingSchedules {
          workingSchedules := workingSchedules[r.scheduleId := workingSchedules[r.scheduleId].(endAt := r.endAt)];
        }
      }
      if commits {
        CloseKeepsOne(records, found.id, r);
        records, schedules := records[found.id := r], workingSchedules;
      }
      reply := Record(found.id, r);
    }

    /** WorkScheduleService.close (app/services/schedule.py:154-157). */
    method Close(scheduleId: int, at: Option<int>, now: int, commits: bool) returns (reply: Reply)
      requires Valid()
      modifies this
      ensures Valid()
      ensures (Snapshot(), reply) == CloseStep(old(Snapshot()), scheduleId, Instant(at, now), commits)
      ensures reply == if scheduleId in old(schedules) then Closed else Rejected(ScheduleNotFound)
      ensures records == old(records) && schedules.Keys == old(schedules).Keys
      ensures forall s :: s in schedules ==>
                schedules[s] == if s == scheduleId && commits then old(schedules)[s].(endAt := Some(if at.Some? then at.value else now))
                                else old(schedules)[s]
    {
      if scheduleId !in schedules {
        return Rejected(ScheduleNotFound);
      }
      var s := schedules[scheduleId].(endAt := Some(Instant(at, now)));
      if commits {
        schedules := schedules[scheduleId := s];
      }
      reply := Closed;
    }
  }

  // ---------------------------------------------------------------- invariants

  ghost predicate AtMostOneOpen(records: map<int, WorkRecord>, scheduleId: int, typ: RecordType) {
    forall a, b :: a in OpenIds(records, scheduleId, typ) && b in OpenIds(records, scheduleId, typ) ==> a == b
  }

  ghost predicate OneOpenEach(records: map<int, WorkRecord>) {
    forall s, t :: AtMostOneOpen(records, s, t)
  }

  ghost predicate DbValid(db: Db) {
    && (forall id :: id in db.records ==> id < db.nextId)
    && OneOpenEach(db.records)
  }

  lemma InsertKeepsOne(records: map<int, WorkRecord>, id: int, r: WorkRecord)
    requires id !in records && OpenIds(records, r.scheduleId, r.typ) == {}
    requires OneOpenEach(records)
    ensures OneOpenEach(records[id := r])
  {
    var records' := records[id := r];
    forall s, t
      ensures AtMostOneOpen(records', s, t)
    {
      assert AtMostOneOpen(records, s, t);
      assert forall a :: a in OpenIds(records', s, t) && a != id ==> a in OpenIds(records, s, t);
    }
  }

  lemma CloseKeepsOne(records: map<int, WorkRecord>, id: int, r: WorkRecord)
    requires r.endAt.Some? && OneOpenEach(records)
    ensures OneOpenEach(records[id := r])
  {
    var records' := records[id := r];
    forall s, t
      ensures AtMostOneOpen(records', s, t)
    {
      assert AtMostOneOpen(records, s, t);
      assert forall a :: a in OpenIds(records', s, t) ==> a in OpenIds(records, s, t);
    }
  }

  // ---------------------------------------------------------------- serial runs

  datatype Op =
    | Begin(scheduleId: int, typ: RecordType, at: int, commits: bool)
    | End(scheduleId: int, typ: RecordType, at: int, commits: bool)
    | Close(scheduleId: int, at: int, commits: bool)

  ghost function Step(db: Db, op: Op): (Db, Reply) {
    match op
    case Begin(s, t, at, commits) => BeginStep(db, s, t, at, commits)
    case End(s, t, at, commits) => EndStep(db, s, t, at, commits)
    case Close(s, at, commits) => CloseStep(db, s, at, commits)
  }

  ghost function After(db: Db, ops: seq<Op>): Db {
    if ops == [] then db else Step(After(db, ops[..|ops| - 1]), ops[|ops| - 1]).0
  }

  lemma StepKeepsValid(db: Db, op: Op)
    requires DbValid(db)
    ensures DbValid(Step(db, op).0)
  {
    match op
    case Begin(s, t, at, commits) =>
      if commits && Step(db, op).1.Record? {
        InsertKeepsOne(db.records, db.nextId, WorkRecord(s, t, at, None));
      }
    case End(s, t, at, commits) =>
      if commits && Step(db, op).1.Record? {
        var id := Step(db, op).1.id;
        CloseKeepsOne(db.records, id, db.records[id].(endAt := Some(at)));
      }
    case Close(_, _, _) =>
  }

  /** In every serial run each schedule has at most one open record of each type. */
  lemma {:induction false} SerialRunsKeepOneOpen(db: Db, ops: seq<Op>)
    requires DbValid(db)
    ensures DbValid(After(db, ops))
  {
    if ops != [] {
      SerialRunsKeepOneOpen(db, ops[..|ops| - 1]);
      StepKeepsValid(After(db, ops[..|ops| - 1]), ops[|ops| - 1]);
    }
  }

  /** So no request of a serial run fails on several rows. */
  lemma NoMultipleRows(db: Db, ops: seq<Op>, op: Op)
    requires DbValid(db)
    ensures Step(After(db, ops), op).1 != Rejected(MultipleRows)
  {
    SerialRunsKeepOneOpen(db, ops);
    if op.Begin? || op.End? {
      assert AtMostOneOpen(After(db, ops).records, op.scheduleId, op.typ);
    }
  }

  datatype Kind = Began | Ended

  /** The accepted, committed begin or end that one request is for this schedule and type, if any. */
  ghost function AcceptedBy(db: Db, op: Op, scheduleId: int, typ: RecordType): seq<Kind> {
    if !op.Close? && op.scheduleId == scheduleId && op.typ == typ && op.commits && Step(db, op).1.Record?
    then [if op.Begin? then Began else Ended] else []
  }

  ghost function Accepted(db: Db, ops: seq<Op>, scheduleId: int, typ: RecordType): seq<Kind> {
    if ops == [] then []
    else
      Accepted(db, ops[..|ops| - 1], scheduleId, typ)
      + AcceptedBy(After(db, ops[..|ops| - 1]), ops[|ops| - 1], scheduleId, typ)
  }

  ghost predicate Alternates(log: seq<Kind>) {
    forall i :: 0 <= i < |log| ==> log[i] == if i % 2 == 0 then Began else Ended
  }

  /** Begins and ends strictly alternate, starting with a begin, and the record is open exactly in between. */
  lemma {:induction false} BeginsAndEndsAlternate(db: Db, ops: seq<Op>, scheduleId: int, typ: RecordType)
    requires DbValid(db) && OpenIds(db.records, scheduleId, typ) == {}
    ensures Alternates(Accepted(db, ops, scheduleId, typ))
    ensures OpenIds(After(db, ops).records, scheduleId, typ) == {} <==> |Accepted(db, ops, scheduleId, typ)| % 2 == 0
  {
    if ops != [] {
      var before, op := ops[..|ops| - 1], ops[|ops| - 1];
      BeginsAndEndsAlternate(db, before, scheduleId, typ);
      SerialRunsKeepOneOpen(db, before);
      AlternationStep(Accepted(db, before, scheduleId, typ), After(db, before), op, scheduleId, typ);
    }
  }

  lemma AlternationStep(log: seq<Kind>, db: Db, op: Op, s: int, t: RecordType)
    requires DbValid(db) && Alternates(log) && (OpenIds(db.records, s, t) == {} <==> |log| % 2 == 0)
    ensures var log' := log + AcceptedBy(db, op, s, t);
            Alternates(log') && (OpenIds(Step(db, op).0.records, s, t) == {} <==> |log'| % 2 == 0)
  {
    OpennessStep(db, op, s, t);
  }

  /** What one step does to the open record of one schedule and type. */
  lemma OpennessStep(db: Db, op: Op, s: int, t: RecordType)
    requires DbValid(db)
    ensures var open, open' := OpenIds(db.records, s, t), OpenIds(Step(db, op).0.records, s, t);
            var accepted := AcceptedBy(db, op, s, t);
            || (accepted == [] && open' == open)
            || (accepted == [Began] && open == {} && open' != {})
            || (accepted == [Ended] && open != {} && open' == {})
  {
    var (db', reply) := Step(db, op);
    assert AtMostOneOpen(db.records, s, t);
    if reply.Record? && op.commits {
      if op.Begin? {
        assert db'.records == db.records[reply.id := reply.record] && reply.id == db.nextId;
        assert IsOpen(reply.record, op.scheduleId, op.typ);
        if op.scheduleId == s && op.typ == t {
          assert reply.id in OpenIds(db'.records, s, t);
        } else {
          assert OpenIds(db'.records, s, t) == OpenIds(db.records, s, t);
        }
      } else {
        assert reply.id in OpenIds(db.records, op.scheduleId, op.typ);
        assert OpenIds(db'.records, s, t) == OpenIds(db.records, s, t) - {reply.id};
      }
    }
  }

  /** A closed record never changes again. */
  lemma {:induction false} ClosedRecordsAreFinal(db: Db, ops: seq<Op>, id: int)
    requires DbValid(db) && id in db.records && db.records[id].endAt.Some?
    ensures id in After(db, ops).records && After(db, ops).records[id] == db.records[id]
  {
    if ops != [] {
      var before, op := ops[..|ops| - 1], ops[|ops| - 1];
      ClosedRecordsAreFinal(db, before, id);
      SerialRunsKeepOneOpen(db, before);
      var mid := After(db, before);
      var (db', reply) := Step(mid, op);
      if op.End? && reply.Record? {
        assert reply.id in OpenIds(mid.records, op.scheduleId, op.typ);
      }
    }
  }

  /** What a committed end does, field by field: the record gets this end and nothing else; only an OFF ends the working
      day, with the same instant. */
  lemma EndMeans(db: Db, scheduleId: int, typ: RecordType, at: int, commits: bool)
    requires DbValid(db)
    ensures var (db', reply) := Step(db, End(scheduleId, typ, at, commits));
            && (reply.Record? <==> OpenIds(db.records, scheduleId, typ) != {})
            && db'.records.Keys == db.records.Keys && db'.schedules.Keys == db.schedules.Keys && db'.nextId == db.nextId
            && (forall id :: id in db.records ==>
                  var r, r' := db.records[id], db'.records[id];
                  if commits && r.scheduleId == scheduleId && r.typ == typ && r.endAt.None?
                  then r'.endAt == Some(at) && r'.startAt == r.startAt && r'.typ == typ && r'.scheduleId == scheduleId
                  else r' == r)
            && (forall s :: s in db.schedules ==>
                  var d, d' := db.schedules[s], db'.schedules[s];
                  d'.startAt == d.startAt && d'.endAt == if commits && reply.Record? && typ == OFF && s == scheduleId then Some(at) else d.endAt)
  {
    assert AtMostOneOpen(db.records, scheduleId, typ);
    assert forall id :: id in OpenIds(db.records, scheduleId, typ) <==> id in db.records && IsOpen(db.records[id], scheduleId, typ);
    var f := ScalarOneOrNone(OpenIds(db.records, scheduleId, typ));
    if f.OneRow? {
      assert f.id in OpenIds(db.records, scheduleId, typ);
    }
  }

  /** The request ends the working day: a close, or the committed end of its OFF record. */
  ghost predicate EndsDay(db: Db, op: Op, scheduleId: int) {
    op.commits && !op.Begin? && op.scheduleId == scheduleId
    && (op.Close? || (op.typ == OFF && OpenIds(db.records, scheduleId, OFF) != {}))
  }

  ghost predicate NeverEndsDay(db: Db, ops: seq<Op>, scheduleId: int) {
    ops == [] || (NeverEndsDay(db, ops[..|ops| - 1], scheduleId) && !EndsDay(After(db, ops[..|ops| - 1]), ops[|ops| - 1], scheduleId))
  }

  /** Over every serial run a schedule's end changes only by a close or by the committed end of its OFF record; its start
      never does, and no schedule is lost. */
  lemma {:induction false} OnlyOffOrCloseEndsTheDay(db: Db, ops: seq<Op>, scheduleId: int)
    requires DbValid(db) && scheduleId in db.schedules
    ensures scheduleId in After(db, ops).schedules && After(db, ops).schedules[scheduleId].startAt == db.schedules[scheduleId].startAt
    ensures NeverEndsDay(db, ops, scheduleId) ==> After(db, ops).schedules[scheduleId] == db.schedules[scheduleId]
  {
    if ops != [] {
      var before, op := ops[..|ops| - 1], ops[|ops| - 1];
      OnlyOffOrCloseEndsTheDay(db, before, scheduleId);
      SerialRunsKeepOneOpen(db, before);
      if op.End? {
        EndMeans(After(db, before), op.scheduleId, op.typ, op.at, op.commits);
      }
    }
  }
}
