/** Job-worker assignment (app/services/job.py:226-289) and the schedules made from it
    (app/services/schedule.py:117-152), one request at a time. */
module JobAssignments {
  import opened Prelude
  import opened Relational

  datatype JobWorker = JobWorker(companyWorkerId: int, standardId: int, active: bool)

  datatype Schedule = Schedule(jobWorkerId: int, chargerId: Option<int>, standardId: int, startAt: int, endAt: Option<int>, makeWorkDoc: bool)

  datatype World = World(
    companyWorkers: set<int>, standards: set<int>,
    jobWorkers: map<int, JobWorker>, nextJobWorkerId: int,
    schedules: map<int, Schedule>, nextScheduleId: int)

  datatype Problem = WorkerNotFound | StandardNotFound | AlreadyAssigned | JobWorkerNotFound | MultipleRows

  datatype Op =
    | Assign(companyWorkerId: int, standardId: int, commits: bool)
    | Unassign(jobWorkerId: int, commits: bool)
    | Create(jobWorkerId: int, chargerId: Option<int>, startAt: int, endAt: Option<int>, makeWorkDoc: Option<bool>, commits: bool)
    | BatchMake(standardId: int, startAt: int, chargerId: Option<int>, jobWorkerIds: seq<int>, commits: bool)

  /** The ids of the rows a request answers with. */
  type Reply = Result<seq<int>, Problem>

  function RowsOf(jobWorkers: map<int, JobWorker>, cw: int, std: int): (ids: set<int>)
    ensures forall id :: id in ids <==> id in jobWorkers && jobWorkers[id].companyWorkerId == cw && jobWorkers[id].standardId == std
  {
    set id | id in jobWorkers && jobWorkers[id].companyWorkerId == cw && jobWorkers[id].standardId == std
  }

  /** The abstract state: which company workers are assigned to which standards. */
  function Active(jobWorkers: map<int, JobWorker>): set<(int, int)> {
    set id | id in jobWorkers && jobWorkers[id].active :: (jobWorkers[id].companyWorkerId, jobWorkers[id].standardId)
  }

  ghost function AssignStep(w: World, op: Op): (World, Reply)
    requires op.Assign?
  {
    if op.companyWorkerId !in w.companyWorkers then (w, Err(WorkerNotFound))
    else if op.standardId !in w.standards then (w, Err(StandardNotFound))
    else match ScalarOneOrNone(RowsOf(w.jobWorkers, op.companyWorkerId, op.standardId))
      case SeveralRows => (w, Err(MultipleRows))
      case OneRow(id) =>
        if w.jobWorkers[id].active then (w, Err(AlreadyAssigned))
        else (if op.commits then w.(jobWorkers := w.jobWorkers[id := w.jobWorkers[id].(active := true)]) else w, Ok([id]))
      case NoRow =>
        var id := w.nextJobWorkerId;
        var row := JobWorker(op.companyWorkerId, op.standardId, true);
        (w.(jobWorkers := if op.commits then w.jobWorkers[id := row] else w.jobWorkers, nextJobWorkerId := id + 1), Ok([id]))
  }

  function UnassignStep(w: World, op: Op): (World, Reply)
    requires op.Unassign?
  {
    if op.jobWorkerId !in w.jobWorkers then (w, Err(JobWorkerNotFound))
    else (if op.commits then w.(jobWorkers := w.jobWorkers[op.jobWorkerId := w.jobWorkers[op.jobWorkerId].(active := false)]) else w, Ok([]))
  }

  /** Rows inserted by one flush get consecutive ids. */
  function Inserted(schedules: map<int, Schedule>, nextId: int, rows: seq<Schedule>): (m: map<int, Schedule>)
    ensures forall id :: id in m <==> id in schedules || nextId <= id < nextId + |rows|
    ensures forall i :: 0 <= i < |rows| ==> m[nextId + i] == rows[i]
    ensures forall id :: id in schedules && !(nextId <= id < nextId + |rows|) ==> m[id] == schedules[id]
  {
    if rows == [] then schedules
    else Inserted(schedules, nextId, rows[..|rows| - 1])[nextId + |rows| - 1 := rows[|rows| - 1]]
  }

  function Flushed(w: World, rows: seq<Schedule>, commits: bool): (World, Reply) {
    (w.(schedules := if commits then Inserted(w.schedules, w.nextScheduleId, rows) else w.schedules,
        nextScheduleId := w.nextScheduleId + |rows|),
     Ok(seq(|rows|, i => w.nextScheduleId + i)))
  }

  function CreateStep(w: World, op: Op): (World, Reply)
    requires op.Create?
  {
    if op.jobWorkerId !in w.jobWorkers then (w, Err(JobWorkerNotFound))
    else
      Flushed(w, [Schedule(op.jobWorkerId, op.chargerId, w.jobWorkers[op.jobWorkerId].standardId, op.startAt, op.endAt,
                           op.makeWorkDoc.GetOr(false))], op.commits)
  }

  /** The listed job workers that exist and belong to the standard. */
  function Matching(jobWorkers: map<int, JobWorker>, ids: seq<int>, std: int): seq<int> {
    Filter(ids, (id: int) => id in jobWorkers && jobWorkers[id].standardId == std)
  }

  /** Exactly one schedule per listed matching id, in the listed order. */
  function BatchRows(jobWorkers: map<int, JobWorker>, op: Op): seq<Schedule>
    requires op.BatchMake?
  {
    Map(Matching(jobWorkers, op.jobWorkerIds, op.standardId),
        (id: int) => Schedule(id, op.chargerId, op.standardId, op.startAt, None, false))
  }

  function BatchStep(w: World, op: Op): (World, Reply)
    requires op.BatchMake?
  {
    if op.standardId !in w.standards then (w, Err(StandardNotFound))
    else Flushed(w, BatchRows(w.jobWorkers, op), op.commits)
  }

  ghost function Step(w: World, op: Op): (World, Reply) {
    match op
    case Assign(_, _, _) => AssignStep(w, op)
    case Unassign(_, _) => UnassignStep(w, op)
    case Create(_, _, _, _, _, _) => CreateStep(w, op)
    case BatchMake(_, _, _, _, _) => BatchStep(w, op)
  }

  // ---------------------------------------------------------------- invariants over runs

  /** The unique constraint, and what `find` relies on. */
  ghost predicate OneRowPerPair(jobWorkers: map<int, JobWorker>) {
    forall a, b :: a in jobWorkers && b in jobWorkers
      && jobWorkers[a].companyWorkerId == jobWorkers[b].companyWorkerId && jobWorkers[a].standardId == jobWorkers[b].standardId
      ==> a == b
  }

  ghost predicate Inv(w: World) {
    && (forall id :: id in w.jobWorkers ==> id < w.nextJobWorkerId)
    && (forall id :: id in w.schedules ==> id < w.nextScheduleId)
    && OneRowPerPair(w.jobWorkers)
    && (forall s :: s in w.schedules ==> w.schedules[s].jobWorkerId in w.jobWorkers
                                         && w.schedules[s].standardId == w.jobWorkers[w.schedules[s].jobWorkerId].standardId)
  }

  lemma FlushKeepsInv(w: World, rows: seq<Schedule>, commits: bool)
    requires Inv(w)
    requires forall i :: 0 <= i < |rows| ==>
               rows[i].jobWorkerId in w.jobWorkers && rows[i].standardId == w.jobWorkers[rows[i].jobWorkerId].standardId
    ensures Inv(Flushed(w, rows, commits).0)
  {
    var w' := Flushed(w, rows, commits).0;
    forall s | s in w'.schedules
      ensures w'.schedules[s].jobWorkerId in w.jobWorkers
      ensures w'.schedules[s].standardId == w.jobWorkers[w'.schedules[s].jobWorkerId].standardId
    {
      if commits && w.nextScheduleId <= s < w.nextScheduleId + |rows| {
        assert w'.schedules[w.nextScheduleId + (s - w.nextScheduleId)] == rows[s - w.nextScheduleId];
      }
    }
  }

  lemma AssignKeepsInv(w: World, op: Op)
    requires Inv(w) && op.Assign?
    ensures Inv(AssignStep(w, op).0)
  {
    var w' := AssignStep(w, op).0;
    if w'.jobWorkers != w.jobWorkers {
      match ScalarOneOrNone(RowsOf(w.jobWorkers, op.companyWorkerId, op.standardId))
      case OneRow(id) => assert id in RowsOf(w.jobWorkers, op.companyWorkerId, op.standardId);
      case NoRow =>
        assert forall id :: id in w.jobWorkers && w.jobWorkers[id].companyWorkerId == op.companyWorkerId ==>
            w.jobWorkers[id].standardId != op.standardId by {
          forall id | id in w.jobWorkers && w.jobWorkers[id].companyWorkerId == op.companyWorkerId
            ensures w.jobWorkers[id].standardId != op.standardId
          {
            assert id !in RowsOf(w.jobWorkers, op.companyWorkerId, op.standardId);
          }
        }
      case SeveralRows =>
    }
  }

  lemma StepKeepsInv(w: World, op: Op)
    requires Inv(w)
    ensures Inv(Step(w, op).0)
  {
    match op
    case Assign(_, _, _) => AssignKeepsInv(w, op);
    case Unassign(_, _) =>
    case Create(id, chargerId, startAt, endAt, makeWorkDoc, commits) =>
      if id in w.jobWorkers {
        FlushKeepsInv(w, [Schedule(id, chargerId, w.jobWorkers[id].standardId, startAt, endAt, makeWorkDoc.GetOr(false))], commits);
      }
    case BatchMake(std, _, _, ids, commits) => FlushKeepsInv(w, BatchRows(w.jobWorkers, op), commits);
  }

  ghost function After(w: World, ops: seq<Op>): World {
    if ops == [] then w else Step(After(w, ops[..|ops| - 1]), ops[|ops| - 1]).0
  }

  /** In every reachable state there is at most one row per (company worker, standard), and every schedule carries
      the standard of its job worker. */
  lemma {:induction false} RunsKeepInv(w: World, ops: seq<Op>)
    requires Inv(w)
    ensures Inv(After(w, ops))
  {
    if ops != [] {
      RunsKeepInv(w, ops[..|ops| - 1]);
      StepKeepsInv(After(w, ops[..|ops| - 1]), ops[|ops| - 1]);
    }
  }

  /** Assignment refines a set of pairs: assign adds one that was absent, unassign takes one out, nothing else moves it. */
  lemma StepRefinesPairSet(w: World, op: Op)
    requires Inv(w)
    ensures var (w', reply) := Step(w, op);
            match op
            case Assign(cw, std, commits) =>
              && reply != Err(MultipleRows)
              && (reply.Ok? <==> cw in w.companyWorkers && std in w.standards && (cw, std) !in Active(w.jobWorkers))
              && (reply == Err(AlreadyAssigned) ==> (cw, std) in Active(w.jobWorkers))
              && (reply.Ok? ==> |reply.value| == 1)
              && (reply.Ok? && commits ==> reply.value[0] in w'.jobWorkers && w'.jobWorkers[reply.value[0]] == JobWorker(cw, std, true))
              && Active(w'.jobWorkers) == Active(w.jobWorkers) + if reply.Ok? && commits then {(cw, std)} else {}
            case Unassign(id, commits) =>
              && (reply.Ok? <==> id in w.jobWorkers)
              && Active(w'.jobWorkers)
                 == Active(w.jobWorkers) - if reply.Ok? && commits
                                           then {(w.jobWorkers[id].companyWorkerId, w.jobWorkers[id].standardId)} else {}
            case _ => w'.jobWorkers == w.jobWorkers
  {
    match op
    case Assign(cw, std, commits) => AssignRefines(w, op);
    case Unassign(id, commits) =>
      if id in w.jobWorkers && commits {
        var w' := UnassignStep(w, op).0;
        var pair := (w.jobWorkers[id].companyWorkerId, w.jobWorkers[id].standardId);
        forall p ensures p in Active(w'.jobWorkers) <==> p in Active(w.jobWorkers) - {pair} {
          if p in Active(w.jobWorkers) - {pair} {
            var k :| k in w.jobWorkers && w.jobWorkers[k].active && p == (w.jobWorkers[k].companyWorkerId, w.jobWorkers[k].standardId);
            assert w'.jobWorkers[k] == w.jobWorkers[k];
          }
        }
      }
    case _ =>
  }

  lemma AssignRefines(w: World, op: Op)
    requires Inv(w) && op.Assign?
    ensures var (w', reply) := AssignStep(w, op);
            var pair := (op.companyWorkerId, op.standardId);
            && reply != Err(MultipleRows)
            && (reply.Ok? <==> op.companyWorkerId in w.companyWorkers && op.standardId in w.standards && pair !in Active(w.jobWorkers))
            && (reply == Err(AlreadyAssigned) ==> pair in Active(w.jobWorkers))
            && Active(w'.jobWorkers) == Active(w.jobWorkers) + if reply.Ok? && op.commits then {pair} else {}
  {
    var (w', reply) := AssignStep(w, op);
    var ids := RowsOf(w.jobWorkers, op.companyWorkerId, op.standardId);
    var pair := (op.companyWorkerId, op.standardId);
    if pair in Active(w.jobWorkers) {
      var k :| k in w.jobWorkers && w.jobWorkers[k].active && pair == (w.jobWorkers[k].companyWorkerId, w.jobWorkers[k].standardId);
      assert k in ids;
    }
    if reply.Ok? && op.commits {
      var id := reply.value[0];
      forall p ensures p in Active(w'.jobWorkers) <==> p in Active(w.jobWorkers) + {pair} {
        if p in Active(w.jobWorkers) {
          var k :| k in w.jobWorkers && w.jobWorkers[k].active && p == (w.jobWorkers[k].companyWorkerId, w.jobWorkers[k].standardId);
          assert w'.jobWorkers[k] == w.jobWorkers[k];
        }
        assert w'.jobWorkers[id] == JobWorker(op.companyWorkerId, op.standardId, true);
      }
    }
  }

  // ---------------------------------------------------------------- the services, in place

  class AssignmentServices {
    const companyWorkers: set<int>
    const standards: set<int>
    var jobWorkers: map<int, JobWorker>
    var nextJobWorkerId: int
    var schedules: map<int, Schedule>
    var nextScheduleId: int

    constructor (w: World)
      requires Inv(w)
      ensures Snapshot() == w && Valid()
    {
      companyWorkers, standards := w.companyWorkers, w.standards;
      jobWorkers, nextJobWorkerId := w.jobWorkers, w.nextJobWorkerId;
      schedules, nextScheduleId := w.schedules, w.nextScheduleId;
    }

    function Snapshot(): World
      reads this
    {
      World(companyWorkers, standards, jobWorkers, nextJobWorkerId, schedules, nextScheduleId)
    }

    ghost predicate Valid()
      reads this
    {
      Inv(Snapshot())
    }

    method Assign(cw: int, std: int, commits: bool) returns (reply: Reply)
      requires Valid()
      modifies this
      ensures Valid()
      ensures (Snapshot(), reply) == AssignStep(old(Snapshot()), Op.Assign(cw, std, commits))
    {
      AssignKeepsInv(Snapshot(), Op.Assign(cw, std, commits));
      if cw !in companyWorkers {
        return Err(WorkerNotFound);
      }
      if std !in standards {
        return Err(StandardNotFound);
      }
      var found := FetchScalar(RowsOf(jobWorkers, cw, std));
      if found.SeveralRows? {
        return Err(MultipleRows);
      }
      if found.OneRow? {
        assert found.id in RowsOf(jobWorkers, cw, std);
        if jobWorkers[found.id].active {
          return Err(AlreadyAssigned);
        }
        if commits {
          jobWorkers := jobWorkers[found.id := jobWorkers[found.id].(active := true)];
        }
        return Ok([found.id]);
      }
      var id := nextJobWorkerId;
      nextJobWorkerId := nextJobWorkerId + 1;
      if commits {
        jobWorkers := jobWorkers[id := JobWorker(cw, std, true)];
      }
      reply := Ok([id]);
    }

    method Unassign(id: int, commits: bool) returns (reply: Reply)
      requires Valid()
      modifies this
      ensures Valid()
      ensures (Snapshot(), reply) == UnassignStep(old(Snapshot()), Op.Unassign(id, commits))
    {
      if id !in jobWorkers {
        return Err(JobWorkerNotFound);
      }
      if commits {
        jobWorkers := jobWorkers[id := jobWorkers[id].(active := false)];
      }
      reply := Ok([]);
    }

    method Create(id: int, chargerId: Option<int>, startAt: int, endAt: Option<int>, makeWorkDoc: Option<bool>, commits: bool)
      returns (reply: Reply)
      requires Valid()
      modifies this
      ensures Valid()
      ensures (Snapshot(), reply) == CreateStep(old(Snapshot()), Op.Create(id, chargerId, startAt, endAt, makeWorkDoc, commits))
    {
      if id !in jobWorkers {
        return Err(JobWorkerNotFound);
      }
      var s := Schedule(id, chargerId, jobWorkers[id].standardId, startAt, endAt, makeWorkDoc.GetOr(false));
      FlushKeepsInv(Snapshot(), [s], commits);
      reply := Flush([s], commits);
    }

    method Flush(rows: seq<Schedule>, commits: bool) returns (reply: Reply)
      modifies this
      ensures (Snapshot(), reply) == Flushed(old(Snapshot()), rows, commits)
    {
      var first := nextScheduleId;
      reply := Ok(seq(|rows|, i => first + i));
      if commits {
        schedules := Inserted(schedules, nextScheduleId, rows);
      }
      nextScheduleId := nextScheduleId + |rows|;
    }

    method BatchMake(std: int, startAt: int, chargerId: Option<int>, ids: seq<int>, commits: bool) returns (reply: Reply)
      requires Valid()
      modifies this
      ensures Valid()
      ensures (Snapshot(), reply) == BatchStep(old(Snapshot()), Op.BatchMake(std, startAt, chargerId, ids, commits))
    {
      if std !in standards {
        return Err(StandardNotFound);
      }
      ghost var op := Op.BatchMake(std, startAt, chargerId, ids, commits);
      var rows: seq<Schedule> := [];
      var k := 0;
      while k < |ids|
        invariant 0 <= k <= |ids|
        invariant Valid() && Snapshot() == old(Snapshot())
        invariant rows == BatchRows(jobWorkers, op.(jobWorkerIds := ids[..k]))
      {
        BatchRowsStep(jobWorkers, op, ids[..k], ids[k]);
        assert ids[..k + 1] == ids[..k] + [ids[k]];
        if ids[k] in jobWorkers && jobWorkers[ids[k]].standardId == std {
          rows := rows + [Schedule(ids[k], chargerId, std, startAt, None, false)];
        }
        k := k + 1;
      }
      assert ids[..k] == ids;
      assert rows == BatchRows(jobWorkers, op);
      FlushKeepsInv(Snapshot(), rows, commits);
      reply := Flush(rows, commits);
    }
  }

  lemma BatchRowsStep(jobWorkers: map<int, JobWorker>, op: Op, done: seq<int>, id: int)
    requires op.BatchMake?
    ensures BatchRows(jobWorkers, op.(jobWorkerIds := done + [id]))
            == BatchRows(jobWorkers, op.(jobWorkerIds := done))
               + if id in jobWorkers && jobWorkers[id].standardId == op.standardId
                 then [Schedule(id, op.chargerId, op.standardId, op.startAt, None, false)] else []
  {
    FilterAppend(done, [id], (k: int) => k in jobWorkers && jobWorkers[k].standardId == op.standardId);
  }

  /** The ids of the schedules a flush inserts, and that it touches nothing else. */
  ghost predicate AddsRows(w: World, w': World, rows: seq<Schedule>) {
    && (forall s :: s in w'.schedules <==> s in w.schedules || w.nextScheduleId <= s < w.nextScheduleId + |rows|)
    && (forall s :: s in w.schedules ==> s in w'.schedules && w'.schedules[s] == w.schedules[s])
    && (forall i :: 0 <= i < |rows| ==> w.nextScheduleId + i in w'.schedules && w'.schedules[w.nextScheduleId + i] == rows[i])
    && w' == w.(schedules := w'.schedules, nextScheduleId := w.nextScheduleId + |rows|)
  }

  lemma FlushAddsRows(w: World, rows: seq<Schedule>)
    requires forall s :: s in w.schedules ==> s < w.nextScheduleId
    ensures AddsRows(w, Flushed(w, rows, true).0, rows)
  {
  }

  /** A committed batch adds one schedule per listed matching job worker, repetitions included, in the listed order
      under consecutive ids, and touches nothing else. */
  lemma BatchMakesOnePerListedId(w: World, op: Op, id: int)
    requires Inv(w) && op.BatchMake? && op.commits && op.standardId in w.standards
    ensures var (w', reply) := BatchStep(w, op);
            var rows := BatchRows(w.jobWorkers, op);
            AddsRows(w, w', rows) && reply == Ok(seq(|rows|, i => w.nextScheduleId + i))
    ensures var made := Matching(w.jobWorkers, op.jobWorkerIds, op.standardId);
            && |BatchRows(w.jobWorkers, op)| == |made|
            && (forall i :: 0 <= i < |made| ==>
                  BatchRows(w.jobWorkers, op)[i] == Schedule(made[i], op.chargerId, op.standardId, op.startAt, None, false))
    ensures multiset(Matching(w.jobWorkers, op.jobWorkerIds, op.standardId))[id]
            == if id in w.jobWorkers && w.jobWorkers[id].standardId == op.standardId then multiset(op.jobWorkerIds)[id] else 0
  {
    FlushAddsRows(w, BatchRows(w.jobWorkers, op));
    FilterMultiset(op.jobWorkerIds, (k: int) => k in w.jobWorkers && w.jobWorkers[k].standardId == op.standardId, id);
  }

  /** A schedule created for a known job worker carries what was sent and that job worker's standard; nothing else
      changes, and an unknown job worker is refused. */
  lemma CreateMeans(w: World, op: Op)
    requires Inv(w) && op.Create?
    ensures var (w', reply) := Step(w, op);
            && (reply.Ok? <==> op.jobWorkerId in w.jobWorkers) && (reply.Err? ==> reply == Err(JobWorkerNotFound) && w' == w)
            && (reply.Ok? && !op.commits ==> w' == w.(nextScheduleId := w.nextScheduleId + 1))
            && (reply.Ok? && op.commits ==>
                  && reply.value == [w.nextScheduleId] && w.nextScheduleId !in w.schedules
                  && w.nextScheduleId in w'.schedules && w'.schedules - {w.nextScheduleId} == w.schedules
                  && w' == w.(schedules := w'.schedules, nextScheduleId := w.nextScheduleId + 1)
                  && var s := w'.schedules[w.nextScheduleId];
                     && s.jobWorkerId == op.jobWorkerId && s.standardId == w.jobWorkers[op.jobWorkerId].standardId
                     && s.chargerId == op.chargerId && s.startAt == op.startAt && s.endAt == op.endAt
                     && s.makeWorkDoc == (op.makeWorkDoc == Some(true)))
  {
    if op.jobWorkerId in w.jobWorkers && op.commits {
      var row := Schedule(op.jobWorkerId, op.chargerId, w.jobWorkers[op.jobWorkerId].standardId, op.startAt, op.endAt,
                          op.makeWorkDoc.GetOr(false));
      FlushAddsRows(w, [row]);
      assert Flushed(w, [row], true).0.schedules[w.nextScheduleId + 0] == row;
    }
  }

  /** Over every run a job worker stays in its pair, and its row is never lost. */
  lemma {:induction false} RowsKeepTheirPair(w: World, ops: seq<Op>, id: int)
    requires Inv(w) && id in w.jobWorkers
    ensures id in After(w, ops).jobWorkers
    ensures After(w, ops).jobWorkers[id].(active := w.jobWorkers[id].active) == w.jobWorkers[id]
  {
    if ops != [] {
      var before, op := ops[..|ops| - 1], ops[|ops| - 1];
      RowsKeepTheirPair(w, before, id);
      RunsKeepInv(w, before);
      PairStep(After(w, before), op, id);
    }
  }

  lemma PairStep(w: World, op: Op, id: int)
    requires Inv(w) && id in w.jobWorkers
    ensures id in Step(w, op).0.jobWorkers && Step(w, op).0.jobWorkers[id].(active := w.jobWorkers[id].active) == w.jobWorkers[id]
  {
  }
}
