/** Process-list reconciliation: JobStandardService.sync_processes (app/services/job.py:135-188). */
module ProcessSync {
  import opened Prelude

  datatype Content = Content(
    name: string, sequence: nat, videoPath: Option<string>, startMessage: Option<string>, endMessage: Option<string>,
    context: Option<string>, processTime: nat)

  /** One entry of the request. */
  datatype Upsert = Upsert(id: Option<int>, content: Content)

  /** The value of a process; the id is None until its first flush. */
  datatype Row = Row(id: Option<int>, content: Content)

  // ---------------------------------------------------------------- the specification

  predicate Requests(incoming: seq<Upsert>, id: Option<int>) {
    id.Some? && exists k :: 0 <= k < |incoming| && incoming[k].id == id
  }

  predicate HasId(rows: seq<Row>, id: Option<int>) {
    exists i :: 0 <= i < |rows| && rows[i].id == id
  }

  /** Every id sent names a process of the standard. */
  predicate AllKnown(rows: seq<Row>, incoming: seq<Upsert>) {
    forall k :: 0 <= k < |incoming| && incoming[k].id.Some? ==> HasId(rows, incoming[k].id)
  }

  /** The processes of a standard as loaded: persisted, hence with distinct ids. */
  ghost predicate Persisted(rows: seq<Row>) {
    && (forall i :: 0 <= i < |rows| ==> rows[i].id.Some?)
    && (forall i, j :: 0 <= i < j < |rows| ==> rows[i].id != rows[j].id)
  }

  /** The row after the entries carrying its id have been written into it, one after the other. */
  function Overwritten(row: Row, incoming: seq<Upsert>): (r: Row)
    ensures r.id == row.id
  {
    if incoming == [] then row
    else
      var last := incoming[|incoming| - 1];
      if last.id.Some? && last.id == row.id then Row(row.id, last.content)
      else Overwritten(row, incoming[..|incoming| - 1])
  }

  /** One new row per entry without id, in the order sent. */
  function NewRows(incoming: seq<Upsert>): seq<Row> {
    if incoming == [] then []
    else
      var last := incoming[|incoming| - 1];
      NewRows(incoming[..|incoming| - 1]) + if last.id.None? then [Row(None, last.content)] else []
  }

  /** The processes that stay: those whose id was sent, in their old order. */
  function Kept(rows: seq<Row>, incoming: seq<Upsert>): seq<Row> {
    Filter(rows, (r: Row) => Requests(incoming, r.id))
  }

  function Synced(rows: seq<Row>, incoming: seq<Upsert>): seq<Row> {
    Map(Kept(rows, incoming), (r: Row) => Overwritten(r, incoming)) + NewRows(incoming)
  }

  /** The positions of the processes that stay. */
  function KeptAt(rows: seq<Row>, incoming: seq<Upsert>): (ix: seq<nat>)
    ensures forall i, j :: 0 <= i < j < |ix| ==> ix[i] < ix[j]
    ensures forall i :: 0 <= i < |ix| ==> ix[i] < |rows|
    ensures Pick(rows, ix) == Kept(rows, incoming)
  {
    if rows == [] then []
    else
      var n := |rows| - 1;
      KeptLast(rows, incoming);
      KeptAt(rows[..n], incoming) + if Requests(incoming, rows[n].id) then [n] else []
  }

  lemma KeptLast(rows: seq<Row>, incoming: seq<Upsert>)
    requires rows != []
    ensures var n := |rows| - 1;
            Kept(rows, incoming) == Kept(rows[..n], incoming) + if Requests(incoming, rows[n].id) then [rows[n]] else []
  {
    var n := |rows| - 1;
    assert rows == rows[..n] + [rows[n]];
    FilterAppend(rows[..n], [rows[n]], (r: Row) => Requests(incoming, r.id));
  }

  function Pick<T>(items: seq<T>, ix: seq<nat>): (r: seq<T>)
    requires forall i :: 0 <= i < |ix| ==> ix[i] < |items|
  {
    seq(|ix|, i requires 0 <= i < |ix| => items[ix[i]])
  }

  lemma KeptAtStep(rows: seq<Row>, incoming: seq<Upsert>, i: nat)
    requires i < |rows|
    ensures KeptAt(rows[..i + 1], incoming) == KeptAt(rows[..i], incoming) + if Requests(incoming, rows[i].id) then [i] else []
  {
    assert rows[..i + 1][..i] == rows[..i];
  }

  lemma PickAppend<T>(items: seq<T>, ix: seq<nat>, n: nat)
    requires n < |items| && forall i :: 0 <= i < |ix| ==> ix[i] < |items|
    ensures Pick(items, ix + [n]) == Pick(items, ix) + [items[n]]
  {
  }

  // ---------------------------------------------------------------- the service, in place

  class JobProcess {
    var id: Option<int>
    var name: string
    var sequence: nat
    var videoPath: Option<string>
    var startMessage: Option<string>
    var endMessage: Option<string>
    var context: Option<string>
    var processTime: nat

    constructor (p: Upsert)
      ensures Value() == Row(None, p.content)
    {
      id := None;
      name, sequence, videoPath := p.content.name, p.content.sequence, p.content.videoPath;
      startMessage, endMessage, context := p.content.startMessage, p.content.endMessage, p.content.context;
      processTime := p.content.processTime;
    }

    function Value(): Row
      reads this
    {
      Row(id, Content(name, sequence, videoPath, startMessage, endMessage, context, processTime))
    }

    method Overwrite(p: Upsert)
      modifies this
      ensures Value() == Row(old(id), p.content)
    {
      name := p.content.name;
      sequence := p.content.sequence;
      videoPath := p.content.videoPath;
      startMessage := p.content.startMessage;
      endMessage := p.content.endMessage;
      context := p.content.context;
      processTime := p.content.processTime;
    }
  }

  function Values(processes: seq<JobProcess>): (r: seq<Row>)
    reads processes
    ensures |r| == |processes|
    ensures forall i :: 0 <= i < |r| ==> r[i] == processes[i].Value()
  {
    seq(|processes|, i requires 0 <= i < |processes| reads processes => processes[i].Value())
  }

  class JobStandard {
    var processes: seq<JobProcess>

    constructor (processes: seq<JobProcess>)
      ensures this.processes == processes
    {
      this.processes := processes;
    }

    /** As loaded by the session: distinct objects for distinct rows. */
    ghost predicate Loaded()
      reads this, processes
    {
      Distinct(processes) && Persisted(Values(processes))
    }

    /** During the sync: distinct objects, and no two share a persisted id. */
    ghost predicate Editing()
      reads this, processes
    {
      Distinct(processes) && DistinctIds(Values(processes))
    }

    /** Drops the processes that were not sent: `s.processes[:] = keep`. */
    method KeepRequested(incoming: seq<Upsert>)
      requires Loaded()
      modifies this
      ensures processes == Pick(old(processes), KeptAt(old(Values(processes)), incoming))
    {
      var keep: seq<JobProcess> := [];
      ghost var rows, ix: seq<nat> := Values(processes), [];
      var i := 0;
      while i < |processes|
        invariant 0 <= i <= |processes| && processes == old(processes)
        invariant ix == KeptAt(rows[..i], incoming) && keep == Pick(processes, ix)
      {
        KeptAtStep(rows, incoming, i);
        if processes[i].id.None? || Requests(incoming, processes[i].id) {
          PickAppend(processes, ix, i);
          keep, ix := keep + [processes[i]], ix + [i];
        }
        i := i + 1;
      }
      assert rows[..i] == rows;
      processes := keep;
    }

    /** `next((x for x in s.processes if x.id == id), None)` */
    method FindProcess(id: Option<int>) returns (found: Option<nat>)
      ensures found.Some? ==> found.value < |processes| && processes[found.value].id == id
      ensures found.None? ==> forall i :: 0 <= i < |processes| ==> processes[i].id != id
    {
      var i := 0;
      while i < |processes|
        invariant 0 <= i <= |processes|
        invariant forall j :: 0 <= j < i ==> processes[j].id != id
      {
        if processes[i].id == id {
          return Some(i);
        }
        i := i + 1;
      }
      found := None;
    }

    /** One turn of the update/add loop; false means the entry's id is unknown. */
    method Enter(p: Upsert) returns (ok: bool)
      requires Editing()
      modifies this, processes
      ensures ok <==> p.id.Some? ==> HasId(old(Values(processes)), p.id)
      ensures ok ==> Editing() && Values(processes) == Entered(old(Values(processes)), p)
      ensures old(processes) <= processes
      ensures forall i :: |old(processes)| <= i < |processes| ==> fresh(processes[i])
    {
      ghost var rows := Values(processes);
      ok := true;
      if p.id.None? {
        var added := new JobProcess(p);
        processes := processes + [added];
        assert Values(processes) == rows + [Row(None, p.content)];
      } else {
        var found := FindProcess(p.id);
        if found.None? {
          assert forall i :: 0 <= i < |rows| ==> rows[i].id != p.id;
          return false;
        }
        assert rows[found.value].id == p.id;
        processes[found.value].Overwrite(p);
        assert Values(processes) == Entered(rows, p);
      }
    }

    /** The update/add loop. */
    method EnterAll(incoming: seq<Upsert>) returns (ok: bool)
      requires Editing()
      modifies this, processes
      ensures ok <==> AllEnter(old(Values(processes)), incoming)
      ensures ok ==> Values(processes) == EnteredAll(old(Values(processes)), incoming)
      ensures old(processes) <= processes
      ensures forall i :: |old(processes)| <= i < |processes| ==> fresh(processes[i])
    {
      ghost var kept := Values(processes);
      var k := 0;
      while k < |incoming|
        invariant 0 <= k <= |incoming|
        invariant Editing() && Values(processes) == EnteredAll(kept, incoming[..k])
        invariant old(processes) <= processes
        invariant forall i :: |old(processes)| <= i < |processes| ==> fresh(processes[i])
        invariant AllEnter(kept, incoming[..k])
      {
        EnteredAllStep(kept, incoming, k);
        ok := Enter(incoming[k]);
        if !ok {
          AllEnterPrefix(kept, incoming, k + 1);
          return;
        }
        k := k + 1;
      }
      assert incoming[..k] == incoming;
      ok := true;
    }

    /** Reconciles the list with the request, raising at the first unknown id.  On success the kept objects are
        the old ones, rewritten in place, and the rest are new. */
    method SyncProcesses(incoming: seq<Upsert>) returns (ok: bool)
      requires Loaded()
      modifies this, processes
      ensures ok <==> AllKnown(old(Values(processes)), incoming)
      ensures ok ==> Values(processes) == Synced(old(Values(processes)), incoming)
      ensures var objects := Pick(old(processes), KeptAt(old(Values(processes)), incoming));
              objects <= processes && forall i :: |objects| <= i < |processes| ==> fresh(processes[i])
    {
      ghost var rows := Values(processes);
      KeepRequested(incoming);
      assert Values(processes) == Kept(rows, incoming);
      KeptIsPersisted(rows, incoming);
      ok := EnterAll(incoming);
      EnteredAllIsPartial(rows, incoming, |incoming|);
      assert incoming[..|incoming|] == incoming;
    }
  }

  // ---------------------------------------------------------------- the loop, on values

  ghost predicate DistinctIds(rows: seq<Row>) {
    forall i, j :: 0 <= i < j < |rows| && rows[i].id.Some? ==> rows[i].id != rows[j].id
  }

  /** What one entry does to the list. */
  function Entered(rows: seq<Row>, p: Upsert): seq<Row> {
    if p.id.None? then rows + [Row(None, p.content)]
    else Map(rows, (r: Row) => if r.id == p.id then Row(r.id, p.content) else r)
  }

  /** The list after some of the entries. */
  function Partial(kept: seq<Row>, done: seq<Upsert>): seq<Row> {
    Map(kept, (r: Row) => Overwritten(r, done)) + NewRows(done)
  }

  lemma {:induction false} NewRowsHaveNoId(incoming: seq<Upsert>)
    ensures forall j :: 0 <= j < |NewRows(incoming)| ==> NewRows(incoming)[j].id.None?
  {
    if incoming != [] {
      NewRowsHaveNoId(incoming[..|incoming| - 1]);
    }
  }

  lemma {:induction false} KeptIsPersisted(rows: seq<Row>, incoming: seq<Upsert>)
    requires Persisted(rows)
    ensures Persisted(Kept(rows, incoming))
    ensures forall i :: 0 <= i < |Kept(rows, incoming)| ==> Kept(rows, incoming)[i] in rows
  {
    var ix := KeptAt(rows, incoming);
    assert Pick(rows, ix) == Kept(rows, incoming);
  }

  /** A requested id is in the list exactly when it was in the loaded one. */
  lemma PartialHasRequestedIds(rows: seq<Row>, incoming: seq<Upsert>, done: seq<Upsert>, id: Option<int>)
    requires Requests(incoming, id)
    ensures HasId(Partial(Kept(rows, incoming), done), id) <==> HasId(rows, id)
  {
    var kept := Kept(rows, incoming);
    NewRowsHaveNoId(done);
    if HasId(rows, id) {
      var n :| 0 <= n < |rows| && rows[n].id == id;
      assert rows[n] in kept;
      var i :| 0 <= i < |kept| && kept[i] == rows[n];
      assert Partial(kept, done)[i].id == id;
    }
    if HasId(Partial(kept, done), id) {
      var i :| 0 <= i < |Partial(kept, done)| && Partial(kept, done)[i].id == id;
      assert i < |kept| && kept[i].id == id && kept[i] in rows;
    }
  }

  lemma PartialStepNew(kept: seq<Row>, done: seq<Upsert>, p: Upsert)
    requires p.id.None?
    ensures Entered(Partial(kept, done), p) == Partial(kept, done + [p])
  {
    var more := done + [p];
    assert more[..|more| - 1] == done;
    assert Map(kept, (r: Row) => Overwritten(r, more)) == Map(kept, (r: Row) => Overwritten(r, done));
    assert NewRows(more) == NewRows(done) + [Row(None, p.content)];
  }

  lemma PartialStepKnown(kept: seq<Row>, done: seq<Upsert>, p: Upsert)
    requires p.id.Some?
    ensures Entered(Partial(kept, done), p) == Partial(kept, done + [p])
  {
    var more := done + [p];
    assert more[..|more| - 1] == done;
    var f := (r: Row) => if r.id == p.id then Row(r.id, p.content) else r;
    var before := Map(kept, (r: Row) => Overwritten(r, done));
    MapAppend(before, NewRows(done), f);
    NewRowsHaveNoId(done);
    assert Map(NewRows(done), f) == NewRows(done) == NewRows(more);
    assert Map(before, f) == Map(kept, (r: Row) => Overwritten(r, more));
  }

  lemma PartialStep(rows: seq<Row>, incoming: seq<Upsert>, k: nat)
    requires k < |incoming| && AllKnown(rows, incoming[..k])
    ensures var kept := Kept(rows, incoming);
            && Entered(Partial(kept, incoming[..k]), incoming[k]) == Partial(kept, incoming[..k + 1])
            && ((incoming[k].id.Some? ==> HasId(Partial(kept, incoming[..k]), incoming[k].id)) <==> AllKnown(rows, incoming[..k + 1]))
  {
    var kept, done, p := Kept(rows, incoming), incoming[..k], incoming[k];
    assert incoming[..k + 1] == done + [p];
    if p.id.Some? {
      PartialStepKnown(kept, done, p);
      PartialHasRequestedIds(rows, incoming, done, p.id);
    } else {
      PartialStepNew(kept, done, p);
    }
  }

  /** The entries one after the other. */
  function EnteredAll(rows: seq<Row>, entries: seq<Upsert>): seq<Row> {
    if entries == [] then rows else Entered(EnteredAll(rows, entries[..|entries| - 1]), entries[|entries| - 1])
  }

  /** No entry meets an unknown id. */
  ghost predicate AllEnter(rows: seq<Row>, entries: seq<Upsert>) {
    entries == [] ||
    (var before, last := entries[..|entries| - 1], entries[|entries| - 1];
     AllEnter(rows, before) && (last.id.Some? ==> HasId(EnteredAll(rows, before), last.id)))
  }

  lemma EnteredAllStep(rows: seq<Row>, entries: seq<Upsert>, k: nat)
    requires k < |entries|
    ensures EnteredAll(rows, entries[..k + 1]) == Entered(EnteredAll(rows, entries[..k]), entries[k])
    ensures AllEnter(rows, entries[..k + 1])
            <==> AllEnter(rows, entries[..k]) && (entries[k].id.Some? ==> HasId(EnteredAll(rows, entries[..k]), entries[k].id))
  {
    assert entries[..k + 1][..k] == entries[..k];
  }

  lemma {:induction false} AllEnterPrefix(rows: seq<Row>, entries: seq<Upsert>, k: nat)
    requires k <= |entries| && !AllEnter(rows, entries[..k])
    ensures !AllEnter(rows, entries)
    decreases |entries| - k
  {
    if k == |entries| {
      assert entries[..k] == entries;
    } else {
      EnteredAllStep(rows, entries, k);
      AllEnterPrefix(rows, entries, k + 1);
    }
  }

  /** Over the kept processes, the loop succeeds exactly on known ids and builds the specified list. */
  lemma {:induction false} EnteredAllIsPartial(rows: seq<Row>, incoming: seq<Upsert>, k: nat)
    requires k <= |incoming|
    ensures AllEnter(Kept(rows, incoming), incoming[..k]) <==> AllKnown(rows, incoming[..k])
    ensures AllKnown(rows, incoming[..k]) ==>
              EnteredAll(Kept(rows, incoming), incoming[..k]) == Partial(Kept(rows, incoming), incoming[..k])
  {
    var kept := Kept(rows, incoming);
    if k == 0 {
      assert incoming[..0] == [];
      assert Partial(kept, []) == kept;
    } else {
      EnteredAllIsPartial(rows, incoming, k - 1);
      EnteredAllStep(kept, incoming, k - 1);
      if AllKnown(rows, incoming[..k - 1]) {
        PartialStep(rows, incoming, k - 1);
      } else {
        UnknownPrefix(rows, incoming[..k], k - 1);
      }
    }
  }

  lemma UnknownPrefix(rows: seq<Row>, incoming: seq<Upsert>, k: nat)
    requires k <= |incoming| && !AllKnown(rows, incoming[..k])
    ensures !AllKnown(rows, incoming)
  {
    var j :| 0 <= j < k && incoming[..k][j].id.Some? && !HasId(rows, incoming[..k][j].id);
    assert incoming[j].id.Some? && !HasId(rows, incoming[j].id);
  }
}
