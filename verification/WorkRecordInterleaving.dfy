/** Work records when requests overlap: begin is a check and a later commit, end a read and a later commit, and the
    only uniqueness guard is the check (app/services/workrecord.py:37-64; the schema has no unique index). */
module WorkRecordInterleaving {
  import opened Prelude
  import opened Relational
  import opened WorkRecords

  datatype Key = Key(scheduleId: int, typ: RecordType)

  /** The committed records, and the requests between their first query and their commit. */
  datatype State = State(
    records: map<int, WorkRecord>, nextId: int,
    begins: map<int, Key>,   // requests whose check found nothing open
    ends: map<int, int>)     // requests that read this open record

  datatype Event =
    | CheckBegin(pid: int, key: Key)
    | CommitBegin(pid: int, at: int)
    | ReadEnd(pid: int, key: Key)
    | CommitEnd(pid: int, at: int)
    | Abort(pid: int)

  ghost predicate Enabled(s: State, e: Event) {
    match e
    case CheckBegin(pid, _) => pid !in s.begins && pid !in s.ends
    case ReadEnd(pid, _) => pid !in s.begins && pid !in s.ends
    case CommitBegin(pid, _) => pid in s.begins
    case CommitEnd(pid, _) => pid in s.ends
    case Abort(_) => true
  }

  function Open(s: State, key: Key): set<int> {
    OpenIds(s.records, key.scheduleId, key.typ)
  }

  /** A check that finds an open record, and a read that does not find exactly one, end the request. */
  ghost function Apply(s: State, e: Event): State
    requires Enabled(s, e)
  {
    match e
    case CheckBegin(pid, key) => if Open(s, key) == {} then s.(begins := s.begins[pid := key]) else s
    case CommitBegin(pid, at) =>
      var key := s.begins[pid];
      s.(records := s.records[s.nextId := WorkRecord(key.scheduleId, key.typ, at, None)],
         nextId := s.nextId + 1, begins := s.begins - {pid})
    case ReadEnd(pid, key) =>
      (match ScalarOneOrNone(Open(s, key))
       case OneRow(id) => s.(ends := s.ends[pid := id])
       case _ => s)
    case CommitEnd(pid, at) =>
      var id := s.ends[pid];
      s.(records := if id in s.records then s.records[id := s.records[id].(endAt := Some(at))] else s.records,
         ends := s.ends - {pid})
    case Abort(pid) => s.(begins := s.begins - {pid}, ends := s.ends - {pid})
  }

  ghost predicate IsRun(s: State, events: seq<Event>)
    decreases |events|
  {
    events == [] || (Enabled(s, events[0]) && IsRun(Apply(s, events[0]), events[1..]))
  }

  ghost function After(s: State, events: seq<Event>): State
    requires IsRun(s, events)
    decreases |events|
  {
    if events == [] then s else After(Apply(s, events[0]), events[1..])
  }

  /** A begin for `key` starts while another one is between its check and its commit. */
  ghost predicate Overlap(s: State, e: Event, key: Key) {
    e.CheckBegin? && e.key == key && exists pid :: pid in s.begins && s.begins[pid] == key
  }

  ghost predicate NoOverlap(s: State, events: seq<Event>, key: Key)
    requires IsRun(s, events)
    decreases |events|
  {
    events == [] || (!Overlap(s, events[0], key) && NoOverlap(Apply(s, events[0]), events[1..], key))
  }

  ghost predicate Initial(s: State) {
    s.begins == map[] && s.ends == map[] && DbValid(Db(map[], s.records, s.nextId))
  }

  ghost predicate OneOpen(s: State, key: Key) {
    AtMostOneOpen(s.records, key.scheduleId, key.typ)
  }

  /** At most one request may be about to insert, and then nothing is open. */
  ghost predicate Inv(s: State, key: Key) {
    && (forall id :: id in s.records ==> id < s.nextId)
    && OneOpen(s, key)
    && (forall p, q :: p in s.begins && q in s.begins && s.begins[p] == key && s.begins[q] == key ==> p == q)
    && ((exists p :: p in s.begins && s.begins[p] == key) ==> Open(s, key) == {})
  }

  lemma ApplyKeepsInv(s: State, e: Event, key: Key)
    requires Inv(s, key) && Enabled(s, e) && !Overlap(s, e, key)
    ensures Inv(Apply(s, e), key)
  {
    var s' := Apply(s, e);
    match e
    case CheckBegin(_, _) =>
    case ReadEnd(_, _) =>
    case Abort(_) =>
    case CommitBegin(pid, at) =>
      if s.begins[pid] == key {
        assert Open(s, key) == {};
        assert forall a :: a in Open(s', key) ==> a == s.nextId;
      } else {
        assert Open(s', key) == Open(s, key);
      }
    case CommitEnd(pid, at) =>
      assert forall a :: a in Open(s', key) ==> a in Open(s, key);
      if Open(s, key) == {} {
        assert Open(s', key) == {};
      }
  }

  /** Whatever the ends and the begins of other keys do, as long as no two begins of one schedule and type overlap
      it never has two open records. */
  lemma {:induction false} NonOverlappingBeginsKeepOneOpen(s: State, events: seq<Event>, key: Key)
    requires Inv(s, key) && IsRun(s, events) && NoOverlap(s, events, key)
    ensures OneOpen(After(s, events), key)
    decreases |events|
  {
    if events != [] {
      ApplyKeepsInv(s, events[0], key);
      NonOverlappingBeginsKeepOneOpen(Apply(s, events[0]), events[1..], key);
    }
  }

  /** Where the overlap is. */
  lemma {:induction false} FirstOverlap(s: State, events: seq<Event>, key: Key)
    requires IsRun(s, events) && !NoOverlap(s, events, key)
    ensures exists i :: 0 <= i < |events| && IsRun(s, events[..i]) && Overlap(After(s, events[..i]), events[i], key)
    decreases |events|
  {
    if Overlap(s, events[0], key) {
      assert events[..0] == [] && After(s, events[..0]) == s;
    } else {
      var s', rest := Apply(s, events[0]), events[1..];
      FirstOverlap(s', rest, key);
      var j :| 0 <= j < |rest| && IsRun(s', rest[..j]) && Overlap(After(s', rest[..j]), rest[j], key);
      var front := events[..j + 1];
      assert front[0] == events[0] && front[1..] == rest[..j];
      assert After(s, front) == After(s', rest[..j]);
    }
  }

  /** Every run that breaks the invariant contains two overlapping begins for the key it breaks. */
  lemma BrokenRunsOverlap(s: State, events: seq<Event>, key: Key)
    requires Initial(s) && IsRun(s, events) && !OneOpen(After(s, events), key)
    ensures exists i :: 0 <= i < |events| && IsRun(s, events[..i]) && Overlap(After(s, events[..i]), events[i], key)
  {
    assert OneOpenEach(s.records);
    assert Inv(s, key);
    if NoOverlap(s, events, key) {
      NonOverlappingBeginsKeepOneOpen(s, events, key);
    }
    FirstOverlap(s, events, key);
  }

  /** And two overlapping begins that both commit do break it. */
  lemma OverlapBreaksIt(s: State, key: Key, a: int, b: int, at: int)
    requires Initial(s) && Open(s, key) == {} && a != b
    ensures var events := [CheckBegin(a, key), CheckBegin(b, key), CommitBegin(a, at), CommitBegin(b, at)];
            IsRun(s, events) && !OneOpen(After(s, events), key)
  {
    var events := [CheckBegin(a, key), CheckBegin(b, key), CommitBegin(a, at), CommitBegin(b, at)];
    var s1 := Apply(s, events[0]);
    var s2 := Apply(s1, events[1]);
    var s3 := Apply(s2, events[2]);
    var s4 := Apply(s3, events[3]);
    var r := WorkRecord(key.scheduleId, key.typ, at, None);
    assert s4.records == s.records[s.nextId := r][s.nextId + 1 := r];
    assert s.nextId in Open(s4, key) && s.nextId + 1 in Open(s4, key);
    assert events[1..] == [events[1], events[2], events[3]];
    assert events[1..][1..] == [events[2], events[3]];
    assert events[1..][1..][1..] == [events[3]];
    assert IsRun(s4, []) && IsRun(s3, [events[3]]) && After(s3, [events[3]]) == s4;
    assert IsRun(s2, [events[2], events[3]]) && After(s2, [events[2], events[3]]) == s4;
    assert IsRun(s1, events[1..]) && After(s1, events[1..]) == s4;
  }

  // ---------------------------------------------------------------- ends

  /** An end reads the open record while another one is between its read and its commit of it. */
  ghost predicate EndOverlap(s: State, e: Event, id: int) {
    e.ReadEnd? && Open(s, e.key) == {id} && exists pid :: pid in s.ends && s.ends[pid] == id
  }

  ghost predicate NoEndOverlap(s: State, events: seq<Event>, id: int)
    requires IsRun(s, events)
    decreases |events|
  {
    events == [] || (!EndOverlap(s, events[0], id) && NoEndOverlap(Apply(s, events[0]), events[1..], id))
  }

  /** At most one end holds the record, and none once it is closed. */
  ghost predicate EndInv(s: State, id: int) {
    && (forall i :: i in s.records ==> i < s.nextId)
    && (forall p, q :: p in s.ends && q in s.ends && s.ends[p] == id && s.ends[q] == id ==> p == q)
    && ((exists p :: p in s.ends && s.ends[p] == id) ==> id in s.records && s.records[id].endAt.None?)
  }

  lemma ApplyKeepsEndInv(s: State, e: Event, id: int)
    requires EndInv(s, id) && Enabled(s, e) && !EndOverlap(s, e, id)
    ensures EndInv(Apply(s, e), id)
    ensures id in s.records && s.records[id].endAt.Some? ==> id in Apply(s, e).records && Apply(s, e).records[id] == s.records[id]
  {
    if e.ReadEnd? && ScalarOneOrNone(Open(s, e.key)).OneRow? {
      assert ScalarOneOrNone(Open(s, e.key)).id in Open(s, e.key);
    }
  }

  /** A closed record never changes again in any run in which no two ends of it overlap, whatever else does. */
  lemma {:induction false} ClosedIsFinalWithoutEndOverlap(s: State, events: seq<Event>, id: int)
    requires EndInv(s, id) && IsRun(s, events) && NoEndOverlap(s, events, id)
    requires id in s.records && s.records[id].endAt.Some?
    ensures id in After(s, events).records && After(s, events).records[id] == s.records[id]
    decreases |events|
  {
    if events != [] {
      ApplyKeepsEndInv(s, events[0], id);
      ClosedIsFinalWithoutEndOverlap(Apply(s, events[0]), events[1..], id);
    }
  }

  lemma {:induction false} NoEndOverlapKeepsEndInv(s: State, events: seq<Event>, id: int)
    requires EndInv(s, id) && IsRun(s, events) && NoEndOverlap(s, events, id)
    ensures EndInv(After(s, events), id)
    decreases |events|
  {
    if events != [] {
      ApplyKeepsEndInv(s, events[0], id);
      NoEndOverlapKeepsEndInv(Apply(s, events[0]), events[1..], id);
    }
  }

  /** So over a whole run from the start: a record that some prefix closed is the same at the end. */
  lemma ClosedOnceIsFinal(s: State, first: seq<Event>, rest: seq<Event>, id: int)
    requires Initial(s) && IsRun(s, first) && NoEndOverlap(s, first, id)
    requires IsRun(After(s, first), rest) && NoEndOverlap(After(s, first), rest, id)
    requires id in After(s, first).records && After(s, first).records[id].endAt.Some?
    ensures var closed, last := After(s, first).records, After(After(s, first), rest).records;
            id in last && last[id] == closed[id]
  {
    NoEndOverlapKeepsEndInv(s, first, id);
    ClosedIsFinalWithoutEndOverlap(After(s, first), rest, id);
  }

  /** Two ends of one record that overlap and both commit rewrite it after it was closed. */
  lemma OverlappingEndsRewrite(s: State, key: Key, id: int, a: int, b: int, at: int, later: int)
    requires Initial(s) && Open(s, key) == {id} && a != b && at != later
    ensures var first, rest := [ReadEnd(a, key), ReadEnd(b, key), CommitEnd(a, at)], [CommitEnd(b, later)];
            && IsRun(s, first) && IsRun(After(s, first), rest)
            && id in After(s, first).records && After(s, first).records[id].endAt == Some(at)
            && id in After(After(s, first), rest).records && After(After(s, first), rest).records[id].endAt == Some(later)
  {
    var first, rest := [ReadEnd(a, key), ReadEnd(b, key), CommitEnd(a, at)], [CommitEnd(b, later)];
    assert id in Open(s, key);
    assert forall x :: x in Open(s, key) ==> x == id;
    assert ScalarOneOrNone(Open(s, key)) == OneRow(id);
    var s1 := Apply(s, first[0]);
    var s2 := Apply(s1, first[1]);
    var s3 := Apply(s2, first[2]);
    var s4 := Apply(s3, rest[0]);
    assert first[1..] == [first[1], first[2]] && first[1..][1..] == [first[2]];
    assert IsRun(s3, []) && IsRun(s2, [first[2]]) && After(s2, [first[2]]) == s3;
    assert IsRun(s1, first[1..]) && After(s1, first[1..]) == s3;
    assert IsRun(s4, []) && After(s3, rest) == s4;
  }

  // ---------------------------------------------------------------- without interruption

  /** A begin that nothing interrupts is the serial one. */
  lemma UninterruptedBeginIsSerial(s: State, schedules: map<int, WorkSchedule>, key: Key, pid: int, at: int)
    requires pid !in s.begins && pid !in s.ends && key.scheduleId in schedules
    ensures var (db', reply) := BeginStep(Db(schedules, s.records, s.nextId), key.scheduleId, key.typ, at, true);
            var checked := Apply(s, CheckBegin(pid, key));
            && (reply.Record? <==> pid in checked.begins)
            && (reply.Record? ==> var s' := Apply(checked, CommitBegin(pid, at));
                                  s'.records == db'.records && s'.nextId == db'.nextId && s'.begins == s.begins && s'.ends == s.ends)
            && (!reply.Record? ==> checked == s && db'.records == s.records)
  {
  }

  /** And so is an end, on the records. */
  lemma UninterruptedEndIsSerial(s: State, schedules: map<int, WorkSchedule>, key: Key, pid: int, at: int)
    requires pid !in s.begins && pid !in s.ends
    ensures var (db', reply) := EndStep(Db(schedules, s.records, s.nextId), key.scheduleId, key.typ, at, true);
            var read := Apply(s, ReadEnd(pid, key));
            && (reply.Record? <==> pid in read.ends)
            && (reply.Record? ==> var s' := Apply(read, CommitEnd(pid, at));
                                  s'.records == db'.records && s'.begins == s.begins && s'.ends == s.ends)
            && (!reply.Record? ==> read == s && db'.records == s.records)
  {
    var f := ScalarOneOrNone(Open(s, key));
    if f.OneRow? {
      assert f.id in Open(s, key);
    }
  }
}
