/** The flush that ends a process sync (app/services/job.py:171), statement by statement.  The unit of work sends the
    UPDATEs in primary-key order, then the INSERTs, then the DELETEs, and uq_job_process_seq
    (migrations/V1__init_schema.sql:167) is not deferrable, so every statement meets the rows that are still there. */
module ProcessFlush {
  import opened Prelude
  import opened ProcessSync
  import opened ProcessSyncTheorems

  datatype SyncError = ProcessNotFound | SequenceTaken | ProcessReferenced

  /** The processes of one standard. */
  type Table = map<int, Content>

  function Id(r: Row): int {
    r.id.GetOr(0)
  }

  // ---------------------------------------------------------------- the statements

  predicate Taken(table: Table, id: int, sequence: nat) {
    exists other :: other in table && other != id && table[other].sequence == sequence
  }

  /** The UPDATEs and INSERTs, one after the other.  (An UPDATE that changes nothing is not sent; it could not fail.) */
  function Write(table: Table, rows: seq<Row>): Result<Table, SyncError> {
    if rows == [] then Ok(table)
    else
      var last := rows[|rows| - 1];
      match Write(table, rows[..|rows| - 1])
      case Err(e) => Err(e)
      case Ok(t) => if Taken(t, Id(last), last.content.sequence) then Err(SequenceTaken) else Ok(t[Id(last) := last.content])
  }

  /** The DELETEs; a process with records restricts (migrations/V1__init_schema.sql:229). */
  function Delete(table: Table, rows: seq<Row>, referenced: set<int>): Result<Table, SyncError> {
    if rows == [] then Ok(table)
    else if Id(rows[0]) in referenced then Err(ProcessReferenced)
    else Delete(table - {Id(rows[0])}, rows[1..], referenced)
  }

  function InsertById(r: Row, sorted: seq<Row>): (s: seq<Row>)
    ensures multiset(s) == multiset{r} + multiset(sorted)
  {
    if sorted == [] || Id(r) <= Id(sorted[0]) then [r] + sorted
    else
      assert sorted == [sorted[0]] + sorted[1..];
      [sorted[0]] + InsertById(r, sorted[1..])
  }

  function SortById(rows: seq<Row>): (s: seq<Row>)
    ensures multiset(s) == multiset(rows)
  {
    if rows == [] then []
    else
      assert rows == [rows[0]] + rows[1..];
      InsertById(rows[0], SortById(rows[1..]))
  }

  function Updates(rows: seq<Row>, incoming: seq<Upsert>): seq<Row> {
    SortById(Map(Kept(rows, incoming), (r: Row) => Overwritten(r, incoming)))
  }

  function Inserts(incoming: seq<Upsert>, nextId: int): seq<Row> {
    AssignIds(NewRows(incoming), nextId)
  }

  function Dropped(rows: seq<Row>, incoming: seq<Upsert>): seq<Row> {
    SortById(Filter(rows, (r: Row) => !Requests(incoming, r.id)))
  }

  function Flush(rows: seq<Row>, incoming: seq<Upsert>, nextId: int, referenced: set<int>): Result<Table, SyncError> {
    match Write(TableOf(rows), Updates(rows, incoming) + Inserts(incoming, nextId))
    case Err(e) => Err(e)
    case Ok(t) => Delete(t, Dropped(rows, incoming), referenced)
  }

  /** The whole request: reconcile, then flush; the reply lists the reconciled rows with the ids they were given. */
  function SyncRequest(rows: seq<Row>, nextId: int, referenced: set<int>, incoming: seq<Upsert>): Result<seq<Row>, SyncError> {
    if !AllKnown(rows, incoming) then Err(ProcessNotFound)
    else match Flush(rows, incoming, nextId, referenced)
      case Err(e) => Err(e)
      case Ok(_) => Ok(AssignIds(Synced(rows, incoming), nextId))
  }

  // ---------------------------------------------------------------- writes, declaratively

  /** The table with these rows written into it. */
  function Written(table: Table, rows: seq<Row>): Table {
    if rows == [] then table
    else Written(table, rows[..|rows| - 1])[Id(rows[|rows| - 1]) := rows[|rows| - 1].content]
  }

  function TableOf(rows: seq<Row>): Table {
    Written(map[], rows)
  }

  ghost predicate Names(rows: seq<Row>, n: nat, id: int)
    requires n <= |rows|
  {
    exists k :: 0 <= k < n && Id(rows[k]) == id
  }

  ghost predicate DistinctRowIds(rows: seq<Row>) {
    forall i, j :: 0 <= i < j < |rows| ==> Id(rows[i]) != Id(rows[j])
  }

  lemma {:induction false} WrittenAt(table: Table, rows: seq<Row>, id: int)
    requires DistinctRowIds(rows)
    ensures id in Written(table, rows) <==> id in table || Names(rows, |rows|, id)
    ensures !Names(rows, |rows|, id) && id in table ==> Written(table, rows)[id] == table[id]
    ensures forall k :: 0 <= k < |rows| && Id(rows[k]) == id ==> Written(table, rows)[id] == rows[k].content
  {
    if rows != [] {
      var n := |rows| - 1;
      WrittenAt(table, rows[..n], id);
      if Names(rows, |rows|, id) && id != Id(rows[n]) {
        var k :| 0 <= k < |rows| && Id(rows[k]) == id;
        assert Id(rows[..n][k]) == id;
      }
      if Names(rows[..n], n, id) {
        var k :| 0 <= k < n && Id(rows[..n][k]) == id;
        assert Id(rows[k]) == id;
      }
    }
  }

  /** No earlier write and no row still in its old state holds the sequence that write `i` wants. */
  ghost predicate ClearAt(table: Table, rows: seq<Row>, i: nat)
    requires i < |rows|
  {
    && (forall k :: 0 <= k < i ==> rows[k].content.sequence != rows[i].content.sequence)
    && (forall id :: id in table && !Names(rows, i + 1, id) ==> table[id].sequence != rows[i].content.sequence)
  }

  ghost predicate Clear(table: Table, rows: seq<Row>) {
    forall i :: 0 <= i < |rows| ==> ClearAt(table, rows, i)
  }

  lemma TakenIffNotClear(table: Table, rows: seq<Row>, n: nat)
    requires n < |rows| && DistinctRowIds(rows)
    ensures Taken(Written(table, rows[..n]), Id(rows[n]), rows[n].content.sequence) <==> !ClearAt(table, rows, n)
  {
    var before, id, sequence := rows[..n], Id(rows[n]), rows[n].content.sequence;
    var t := Written(table, before);
    if Taken(t, id, sequence) {
      var other :| other in t && other != id && t[other].sequence == sequence;
      WrittenAt(table, before, other);
      if Names(before, n, other) {
        var k :| 0 <= k < n && Id(before[k]) == other;
        assert rows[k].content.sequence == sequence;
      } else {
        assert !Names(rows, n + 1, other) by { SameNames(rows, n, other); }
      }
    }
    if !ClearAt(table, rows, n) {
      if k :| 0 <= k < n && rows[k].content.sequence == sequence {
        WrittenAt(table, before, Id(rows[k]));
        assert Id(before[k]) == Id(rows[k]) && t[Id(rows[k])].sequence == sequence;
      } else {
        var other :| other in table && !Names(rows, n + 1, other) && table[other].sequence == sequence;
        SameNames(rows, n, other);
        assert other != id by { assert Id(rows[n]) == id; }
        WrittenAt(table, before, other);
        assert t[other].sequence == sequence;
      }
    }
  }

  lemma SameNames(rows: seq<Row>, n: nat, id: int)
    requires n < |rows|
    ensures Names(rows, n + 1, id) <==> Names(rows[..n], n, id) || Id(rows[n]) == id
  {
    if Names(rows[..n], n, id) {
      var k :| 0 <= k < n && Id(rows[..n][k]) == id;
      assert Id(rows[k]) == id;
    }
    if Names(rows, n + 1, id) && Id(rows[n]) != id {
      var k :| 0 <= k < n + 1 && Id(rows[k]) == id;
      assert Id(rows[..n][k]) == id;
    }
  }

  lemma ClearPrefix(table: Table, rows: seq<Row>, n: nat)
    requires n <= |rows|
    ensures Clear(table, rows[..n]) <==> forall i :: 0 <= i < n ==> ClearAt(table, rows, i)
  {
    var before := rows[..n];
    forall i | 0 <= i < n
      ensures ClearAt(table, before, i) <==> ClearAt(table, rows, i)
    {
      var m := i + 1;
      forall id
        ensures Names(before, m, id) <==> Names(rows, m, id)
      {
        assert forall k :: 0 <= k < m ==> before[k] == rows[k];
      }
    }
  }

  lemma {:induction false} WriteIffClear(table: Table, rows: seq<Row>)
    requires DistinctRowIds(rows)
    ensures Write(table, rows) == if Clear(table, rows) then Ok(Written(table, rows)) else Err(SequenceTaken)
  {
    if rows != [] {
      var n := |rows| - 1;
      WriteIffClear(table, rows[..n]);
      TakenIffNotClear(table, rows, n);
      ClearPrefix(table, rows, n);
    }
  }

  function Without(table: Table, rows: seq<Row>): Table {
    if rows == [] then table else Without(table - {Id(rows[0])}, rows[1..])
  }

  ghost predicate AnyReferenced(rows: seq<Row>, referenced: set<int>) {
    exists r :: r in rows && Id(r) in referenced
  }

  lemma {:induction false} DeleteIffUnreferenced(table: Table, rows: seq<Row>, referenced: set<int>)
    ensures Delete(table, rows, referenced)
            == if AnyReferenced(rows, referenced) then Err(ProcessReferenced) else Ok(Without(table, rows))
  {
    if rows != [] {
      DeleteIffUnreferenced(table - {Id(rows[0])}, rows[1..], referenced);
      assert forall r :: r in rows <==> r == rows[0] || r in rows[1..];
    }
  }

  lemma {:induction false} WithoutAt(table: Table, rows: seq<Row>, id: int)
    ensures id in Without(table, rows) <==> id in table && forall r :: r in rows ==> Id(r) != id
    ensures id in Without(table, rows) ==> Without(table, rows)[id] == table[id]
  {
    if rows != [] {
      WithoutAt(table - {Id(rows[0])}, rows[1..], id);
      assert forall r :: r in rows <==> r == rows[0] || r in rows[1..];
    }
  }

  // ---------------------------------------------------------------- the condition

  /** The sequences the standard ends up with are distinct. */
  ghost predicate NoDuplicate(rows: seq<Row>, incoming: seq<Upsert>) {
    DistinctSequences(Synced(rows, incoming))
  }

  /** No sequence of a dropped process is taken over by a kept or new one. */
  ghost predicate NoTakeover(rows: seq<Row>, incoming: seq<Upsert>) {
    forall i, j :: 0 <= i < |rows| && !Requests(incoming, rows[i].id) && 0 <= j < |Synced(rows, incoming)|
              ==> rows[i].content.sequence != Synced(rows, incoming)[j].content.sequence
  }

  /** No kept process moves to the old sequence of a kept process with a larger id. */
  ghost predicate NoOvertaking(rows: seq<Row>, incoming: seq<Upsert>) {
    forall i, j :: 0 <= i < |rows| && 0 <= j < |rows| && Requests(incoming, rows[i].id) && Requests(incoming, rows[j].id)
              && Id(rows[i]) < Id(rows[j])
              ==> Overwritten(rows[i], incoming).content.sequence != rows[j].content.sequence
  }

  ghost predicate SequencesFree(rows: seq<Row>, incoming: seq<Upsert>) {
    NoDuplicate(rows, incoming) && NoTakeover(rows, incoming) && NoOvertaking(rows, incoming)
  }

  ghost predicate DropsReferenced(rows: seq<Row>, incoming: seq<Upsert>, referenced: set<int>) {
    exists i :: 0 <= i < |rows| && !Requests(incoming, rows[i].id) && Id(rows[i]) in referenced
  }

  ghost predicate Ascending(rows: seq<Row>) {
    forall i, j :: 0 <= i < j < |rows| ==> Id(rows[i]) < Id(rows[j])
  }

  lemma {:induction false} InsertKeepsOrder(r: Row, sorted: seq<Row>)
    requires Ascending(sorted) && forall i :: 0 <= i < |sorted| ==> Id(sorted[i]) != Id(r)
    ensures Ascending(InsertById(r, sorted))
  {
    if sorted != [] && Id(sorted[0]) < Id(r) {
      var rest := InsertById(r, sorted[1..]);
      InsertKeepsOrder(r, sorted[1..]);
      forall i | 0 <= i < |rest|
        ensures Id(sorted[0]) < Id(rest[i])
      {
        assert rest[i] in multiset(rest) && (rest[i] == r || rest[i] in multiset(sorted[1..]));
      }
    }
  }

  lemma {:induction false} SortedByIdAscends(rows: seq<Row>)
    requires DistinctRowIds(rows)
    ensures Ascending(SortById(rows))
  {
    if rows != [] {
      SortedByIdAscends(rows[1..]);
      var sorted := SortById(rows[1..]);
      forall i | 0 <= i < |sorted|
        ensures Id(sorted[i]) != Id(rows[0])
      {
        assert sorted[i] in multiset(rows[1..]);
        var k :| 0 <= k < |rows[1..]| && rows[1..][k] == sorted[i];
        assert rows[k + 1] == sorted[i];
      }
      InsertKeepsOrder(rows[0], sorted);
    }
  }

  // ---------------------------------------------------------------- the flush meets the condition

  /** The row is what the request makes of stored row `m`. */
  ghost predicate Rewrites(rows: seq<Row>, incoming: seq<Upsert>, r: Row, m: nat) {
    m < |rows| && Requests(incoming, rows[m].id) && r == Overwritten(rows[m], incoming)
  }

  lemma PersistedIds(rows: seq<Row>)
    requires Persisted(rows)
    ensures DistinctRowIds(rows)
  {
    forall i, j | 0 <= i < j < |rows|
      ensures Id(rows[i]) != Id(rows[j])
    {
      assert rows[i].id == Some(Id(rows[i])) && rows[j].id == Some(Id(rows[j]));
    }
  }

  lemma UpdatesAscend(rows: seq<Row>, incoming: seq<Upsert>)
    requires Persisted(rows)
    ensures Ascending(Updates(rows, incoming))
  {
    KeptIsPersisted(rows, incoming);
    PersistedIds(Kept(rows, incoming));
    SortedByIdAscends(Map(Kept(rows, incoming), (r: Row) => Overwritten(r, incoming)));
  }

  lemma UpdateRewrites(rows: seq<Row>, incoming: seq<Upsert>, p: nat) returns (m: nat)
    requires Persisted(rows) && p < |Updates(rows, incoming)|
    ensures Rewrites(rows, incoming, Updates(rows, incoming)[p], m)
  {
    var kept := Kept(rows, incoming);
    var rewritten := Map(kept, (r: Row) => Overwritten(r, incoming));
    var r := Updates(rows, incoming)[p];
    assert r in multiset(Updates(rows, incoming));
    var k :| 0 <= k < |rewritten| && rewritten[k] == r;
    KeptIsPersisted(rows, incoming);
    assert kept[k] in rows;
    m :| m < |rows| && rows[m] == kept[k];
  }

  lemma RewriteIsUpdate(rows: seq<Row>, incoming: seq<Upsert>, m: nat) returns (p: nat)
    requires m < |rows| && Requests(incoming, rows[m].id)
    ensures p < |Updates(rows, incoming)| && Updates(rows, incoming)[p] == Overwritten(rows[m], incoming)
  {
    var kept := Kept(rows, incoming);
    var rewritten := Map(kept, (r: Row) => Overwritten(r, incoming));
    assert rows[m] in kept;
    var k :| 0 <= k < |kept| && kept[k] == rows[m];
    assert rewritten[k] in multiset(Updates(rows, incoming));
    p :| p < |Updates(rows, incoming)| && Updates(rows, incoming)[p] == rewritten[k];
  }

  function Writes(rows: seq<Row>, incoming: seq<Upsert>, nextId: int): seq<Row> {
    Updates(rows, incoming) + Inserts(incoming, nextId)
  }

  ghost predicate Good(rows: seq<Row>, incoming: seq<Upsert>, nextId: int) {
    Persisted(rows) && AllKnown(rows, incoming) && IdsBelow(rows, nextId)
  }

  lemma InsertIdsAreNew(incoming: seq<Upsert>, nextId: int)
    ensures forall i :: 0 <= i < |Inserts(incoming, nextId)| ==> Inserts(incoming, nextId)[i].id.Some? && nextId <= Id(Inserts(incoming, nextId)[i])
    ensures DistinctRowIds(Inserts(incoming, nextId))
  {
    NewRowsHaveNoId(incoming);
    AssignIdsSpec(NewRows(incoming), nextId);
    PersistedIds(Inserts(incoming, nextId));
  }

  lemma UpdatesBelow(rows: seq<Row>, incoming: seq<Upsert>, nextId: int)
    requires Good(rows, incoming, nextId)
    ensures forall p :: 0 <= p < |Updates(rows, incoming)| ==> Id(Updates(rows, incoming)[p]) < nextId
  {
    forall p | 0 <= p < |Updates(rows, incoming)|
      ensures Id(Updates(rows, incoming)[p]) < nextId
    {
      var m := UpdateRewrites(rows, incoming, p);
    }
  }

  lemma DistinctAround(a: seq<Row>, b: seq<Row>, bound: int)
    requires Ascending(a) && DistinctRowIds(b)
    requires (forall i :: 0 <= i < |a| ==> Id(a[i]) < bound) && (forall i :: 0 <= i < |b| ==> bound <= Id(b[i]))
    ensures DistinctRowIds(a + b)
  {
  }

  lemma WritesHaveDistinctIds(rows: seq<Row>, incoming: seq<Upsert>, nextId: int)
    requires Good(rows, incoming, nextId)
    ensures DistinctRowIds(Writes(rows, incoming, nextId))
  {
    UpdatesAscend(rows, incoming);
    UpdatesBelow(rows, incoming, nextId);
    InsertIdsAreNew(incoming, nextId);
    DistinctAround(Updates(rows, incoming), Inserts(incoming, nextId), nextId);
  }

  /** The writes carry the contents of the reconciled list. */
  lemma WritesCarrySynced(rows: seq<Row>, incoming: seq<Upsert>, nextId: int)
    requires Good(rows, incoming, nextId)
    ensures multiset(Contents(Writes(rows, incoming, nextId))) == multiset(Contents(Synced(rows, incoming)))
    ensures DistinctSequences(Writes(rows, incoming, nextId)) <==> NoDuplicate(rows, incoming)
  {
    var f := (r: Row) => r.content;
    var rewritten := Map(Kept(rows, incoming), (r: Row) => Overwritten(r, incoming));
    var w, s := Writes(rows, incoming, nextId), Synced(rows, incoming);
    NewRowsHaveNoId(incoming);
    AssignIdsSpec(NewRows(incoming), nextId);
    MapPermutation(Updates(rows, incoming), rewritten, f);
    MapAppend(Updates(rows, incoming), Inserts(incoming, nextId), f);
    MapAppend(rewritten, NewRows(incoming), f);
    if DistinctSequences(w) { SequencesPermutation(w, s); }
    if DistinctSequences(s) { SequencesPermutation(s, w); }
  }

  lemma SameContentIn(a: seq<Row>, b: seq<Row>, i: nat) returns (j: nat)
    requires i < |a| && multiset(Contents(a)) == multiset(Contents(b))
    ensures j < |b| && b[j].content == a[i].content
  {
    assert Contents(a)[i] in multiset(Contents(b));
    j :| j < |Contents(b)| && Contents(b)[j] == Contents(a)[i];
  }

  lemma TableHolds(rows: seq<Row>, m: nat)
    requires Persisted(rows) && m < |rows|
    ensures Id(rows[m]) in TableOf(rows) && TableOf(rows)[Id(rows[m])] == rows[m].content
  {
    PersistedIds(rows);
    WrittenAt(map[], rows, Id(rows[m]));
  }

  /** A dropped row is never written. */
  lemma DroppedIsNotWritten(rows: seq<Row>, incoming: seq<Upsert>, nextId: int, m: nat)
    requires Good(rows, incoming, nextId) && m < |rows| && !Requests(incoming, rows[m].id)
    ensures forall n :: 0 <= n <= |Writes(rows, incoming, nextId)| ==> !Names(Writes(rows, incoming, nextId), n, Id(rows[m]))
  {
    var u, w := Updates(rows, incoming), Writes(rows, incoming, nextId);
    InsertIdsAreNew(incoming, nextId);
    PersistedIds(rows);
    forall k | 0 <= k < |w|
      ensures Id(w[k]) != Id(rows[m])
    {
      if k < |u| {
        var i := UpdateRewrites(rows, incoming, k);
        assert Id(w[k]) == Id(rows[i]) && i != m;
      } else {
        assert w[k] == Inserts(incoming, nextId)[k - |u|];
      }
    }
  }

  lemma ClearGivesFree(rows: seq<Row>, incoming: seq<Upsert>, nextId: int)
    requires Good(rows, incoming, nextId) && Clear(TableOf(rows), Writes(rows, incoming, nextId))
    ensures SequencesFree(rows, incoming)
  {
    var w, s := Writes(rows, incoming, nextId), Synced(rows, incoming);
    WritesCarrySynced(rows, incoming, nextId);
    assert DistinctSequences(w) by {
      forall k, i | 0 <= k < i < |w| ensures w[k].content.sequence != w[i].content.sequence { assert ClearAt(TableOf(rows), w, i); }
    }
    forall m, j | 0 <= m < |rows| && !Requests(incoming, rows[m].id) && 0 <= j < |s|
      ensures rows[m].content.sequence != s[j].content.sequence
    {
      var p := SameContentIn(s, w, j);
      TableHolds(rows, m);
      DroppedIsNotWritten(rows, incoming, nextId, m);
      assert ClearAt(TableOf(rows), w, p);
    }
    forall i, j | 0 <= i < |rows| && 0 <= j < |rows| && Requests(incoming, rows[i].id) && Requests(incoming, rows[j].id)
                  && Id(rows[i]) < Id(rows[j])
      ensures Overwritten(rows[i], incoming).content.sequence != rows[j].content.sequence
    {
      var p := LaterUpdateIsPending(rows, incoming, nextId, i, j);
      TableHolds(rows, j);
      assert ClearAt(TableOf(rows), w, p);
    }
  }

  /** When a row is updated, one with a larger id still has its old sequence. */
  lemma LaterUpdateIsPending(rows: seq<Row>, incoming: seq<Upsert>, nextId: int, i: nat, j: nat) returns (p: nat)
    requires Persisted(rows) && i < |rows| && j < |rows| && Requests(incoming, rows[i].id) && Id(rows[i]) < Id(rows[j])
    ensures p < |Writes(rows, incoming, nextId)| && Writes(rows, incoming, nextId)[p] == Overwritten(rows[i], incoming)
    ensures !Names(Writes(rows, incoming, nextId), p + 1, Id(rows[j]))
  {
    UpdatesAscend(rows, incoming);
    p := RewriteIsUpdate(rows, incoming, i);
    LargerIsUnnamed(Updates(rows, incoming), Inserts(incoming, nextId), p, Id(rows[j]));
  }

  lemma LargerIsUnnamed(u: seq<Row>, rest: seq<Row>, p: nat, id: int)
    requires Ascending(u) && p < |u| && Id(u[p]) < id
    ensures !Names(u + rest, p + 1, id)
  {
    forall k | 0 <= k < p + 1
      ensures Id((u + rest)[k]) < id
    {
      assert (u + rest)[k] == u[k] && (k == p || Id(u[k]) < Id(u[p]));
    }
  }

  lemma FreeGivesClear(rows: seq<Row>, incoming: seq<Upsert>, nextId: int)
    requires Good(rows, incoming, nextId) && SequencesFree(rows, incoming)
    ensures Clear(TableOf(rows), Writes(rows, incoming, nextId))
  {
    var w := Writes(rows, incoming, nextId);
    WritesCarrySynced(rows, incoming, nextId);
    PersistedIds(rows);
    forall p | 0 <= p < |w|
      ensures ClearAt(TableOf(rows), w, p)
    {
      forall id | id in TableOf(rows) && !Names(w, p + 1, id)
        ensures TableOf(rows)[id].sequence != w[p].content.sequence
      {
        WrittenAt(map[], rows, id);
        var m :| 0 <= m < |rows| && Id(rows[m]) == id;
        if Requests(incoming, rows[m].id) {
          PendingRowIsLater(rows, incoming, nextId, p, m);
        } else {
          var j := SameContentIn(w, Synced(rows, incoming), p);
        }
      }
    }
  }

  lemma PendingRowIsLater(rows: seq<Row>, incoming: seq<Upsert>, nextId: int, p: nat, m: nat)
    requires Good(rows, incoming, nextId) && NoOvertaking(rows, incoming)
    requires p < |Writes(rows, incoming, nextId)| && m < |rows| && Requests(incoming, rows[m].id)
    requires !Names(Writes(rows, incoming, nextId), p + 1, Id(rows[m]))
    ensures rows[m].content.sequence != Writes(rows, incoming, nextId)[p].content.sequence
  {
    var u, w := Updates(rows, incoming), Writes(rows, incoming, nextId);
    UpdatesAscend(rows, incoming);
    var q := RewriteIsUpdate(rows, incoming, m);
    assert w[q] == u[q] && Id(w[q]) == Id(rows[m]);
    assert p < q;
    var i := UpdateRewrites(rows, incoming, p);
    assert Id(rows[i]) == Id(u[p]) < Id(u[q]);
  }

  /** Exactly when the flush succeeds, with which error it fails otherwise, and what it stores. */
  lemma FlushOutcome(rows: seq<Row>, incoming: seq<Upsert>, nextId: int, referenced: set<int>)
    requires Good(rows, incoming, nextId)
    ensures Flush(rows, incoming, nextId, referenced)
            == if !SequencesFree(rows, incoming) then Err(SequenceTaken)
               else if DropsReferenced(rows, incoming, referenced) then Err(ProcessReferenced)
               else Ok(TableOf(AssignIds(Synced(rows, incoming), nextId)))
  {
    var w, dropped := Writes(rows, incoming, nextId), Dropped(rows, incoming);
    WritesHaveDistinctIds(rows, incoming, nextId);
    WriteIffClear(TableOf(rows), w);
    if Clear(TableOf(rows), w) {
      ClearGivesFree(rows, incoming, nextId);
      DeleteIffUnreferenced(Written(TableOf(rows), w), dropped, referenced);
      DropsIffAnyReferenced(rows, incoming, referenced);
      StoredIsSynced(rows, incoming, nextId);
    } else if SequencesFree(rows, incoming) {
      FreeGivesClear(rows, incoming, nextId);
    }
  }

  lemma InDropped(rows: seq<Row>, incoming: seq<Upsert>, r: Row)
    ensures r in Dropped(rows, incoming) <==> r in rows && !Requests(incoming, r.id)
  {
    var kept := Filter(rows, (x: Row) => !Requests(incoming, x.id));
    assert r in Dropped(rows, incoming) <==> r in multiset(Dropped(rows, incoming));
    assert r in kept <==> r in multiset(kept);
  }

  lemma DropsIffAnyReferenced(rows: seq<Row>, incoming: seq<Upsert>, referenced: set<int>)
    ensures AnyReferenced(Dropped(rows, incoming), referenced) <==> DropsReferenced(rows, incoming, referenced)
  {
    if AnyReferenced(Dropped(rows, incoming), referenced) {
      var r :| r in Dropped(rows, incoming) && Id(r) in referenced;
      InDropped(rows, incoming, r);
    }
    if DropsReferenced(rows, incoming, referenced) {
      var i :| 0 <= i < |rows| && !Requests(incoming, rows[i].id) && Id(rows[i]) in referenced;
      InDropped(rows, incoming, rows[i]);
    }
  }

  /** Writing and deleting leaves the reconciled list, under the ids of the reply. */
  lemma StoredIsSynced(rows: seq<Row>, incoming: seq<Upsert>, nextId: int)
    requires Good(rows, incoming, nextId)
    ensures Without(Written(TableOf(rows), Writes(rows, incoming, nextId)), Dropped(rows, incoming))
            == TableOf(AssignIds(Synced(rows, incoming), nextId))
  {
    var t := Without(Written(TableOf(rows), Writes(rows, incoming, nextId)), Dropped(rows, incoming));
    var t' := TableOf(AssignIds(Synced(rows, incoming), nextId));
    forall id
      ensures SameAt(t, t', id)
    {
      StoredAt(rows, incoming, nextId, id);
    }
    SameEverywhere(t, t');
  }

  ghost predicate SameAt(t: Table, t': Table, id: int) {
    (id in t <==> id in t') && (id in t ==> t[id] == t'[id])
  }

  lemma SameEverywhere(t: Table, t': Table)
    requires forall id :: SameAt(t, t', id)
    ensures t == t'
  {
    forall id ensures id in t <==> id in t' { assert SameAt(t, t', id); }
    forall id | id in t ensures t[id] == t'[id] { assert SameAt(t, t', id); }
  }

  /** The stored rows are the written ones. */
  lemma StoredRows(rows: seq<Row>, incoming: seq<Upsert>, nextId: int)
    requires Good(rows, incoming, nextId)
    ensures multiset(AssignIds(Synced(rows, incoming), nextId)) == multiset(Writes(rows, incoming, nextId))
    ensures DistinctRowIds(AssignIds(Synced(rows, incoming), nextId))
  {
    var rewritten := Map(Kept(rows, incoming), (r: Row) => Overwritten(r, incoming));
    KeptIsPersisted(rows, incoming);
    AssignIdsAppend(rewritten, NewRows(incoming), nextId);
    SyncedIds(rows, incoming);
    assert IdsBelow(Synced(rows, incoming), nextId);
    AssignIdsSpec(Synced(rows, incoming), nextId);
    PersistedIds(AssignIds(Synced(rows, incoming), nextId));
  }

  lemma SameIdsNamed(a: seq<Row>, b: seq<Row>, id: int)
    requires multiset(a) == multiset(b) && Names(a, |a|, id)
    ensures Names(b, |b|, id)
  {
    var k :| 0 <= k < |a| && Id(a[k]) == id;
    assert a[k] in multiset(b);
    var j :| 0 <= j < |b| && b[j] == a[k];
  }

  /** Of a stored row, either its rewriting is written or it is dropped. */
  lemma WrittenOrDropped(rows: seq<Row>, incoming: seq<Upsert>, nextId: int, m: nat)
    requires Good(rows, incoming, nextId) && m < |rows|
    ensures Names(Writes(rows, incoming, nextId), |Writes(rows, incoming, nextId)|, Id(rows[m])) <==> rows[m] !in Dropped(rows, incoming)
  {
    InDropped(rows, incoming, rows[m]);
    if Requests(incoming, rows[m].id) {
      var p := RewriteIsUpdate(rows, incoming, m);
      assert Id(Writes(rows, incoming, nextId)[p]) == Id(rows[m]);
    } else {
      DroppedIsNotWritten(rows, incoming, nextId, m);
    }
  }

  lemma StoredAt(rows: seq<Row>, incoming: seq<Upsert>, nextId: int, id: int)
    requires Good(rows, incoming, nextId)
    ensures SameAt(Without(Written(TableOf(rows), Writes(rows, incoming, nextId)), Dropped(rows, incoming)),
                   TableOf(AssignIds(Synced(rows, incoming), nextId)), id)
  {
    var w, stored, dropped := Writes(rows, incoming, nextId), AssignIds(Synced(rows, incoming), nextId), Dropped(rows, incoming);
    WritesHaveDistinctIds(rows, incoming, nextId);
    StoredRows(rows, incoming, nextId);
    PersistedIds(rows);
    WrittenAt(map[], rows, id);
    WrittenAt(TableOf(rows), w, id);
    WrittenAt(map[], stored, id);
    WithoutAt(Written(TableOf(rows), w), dropped, id);
    if Names(stored, |stored|, id) { SameIdsNamed(stored, w, id); }
    forall m | 0 <= m < |rows|
      ensures Names(w, |w|, Id(rows[m])) <==> rows[m] !in dropped
    {
      WrittenOrDropped(rows, incoming, nextId, m);
    }
    forall r | r in dropped
      ensures r in rows
    {
      InDropped(rows, incoming, r);
    }
    if Names(w, |w|, id) {
      var k :| 0 <= k < |w| && Id(w[k]) == id;
      assert w[k] in multiset(stored);
      var j :| 0 <= j < |stored| && stored[j] == w[k];
    }
  }

  // ---------------------------------------------------------------- what a request may rely on

  /** A request is refused exactly for an unknown id, a sequence still taken when a statement wants it, or a recorded
      process that is not sent; otherwise the reply is what is stored. */
  lemma SyncOutcome(rows: seq<Row>, nextId: int, referenced: set<int>, incoming: seq<Upsert>)
    requires Persisted(rows) && IdsBelow(rows, nextId)
    ensures SyncRequest(rows, nextId, referenced, incoming)
            == if !AllKnown(rows, incoming) then Err(ProcessNotFound)
               else if !SequencesFree(rows, incoming) then Err(SequenceTaken)
               else if DropsReferenced(rows, incoming, referenced) then Err(ProcessReferenced)
               else Ok(AssignIds(Synced(rows, incoming), nextId))
    ensures SyncRequest(rows, nextId, referenced, incoming).Ok? ==>
              Flush(rows, incoming, nextId, referenced) == Ok(TableOf(SyncRequest(rows, nextId, referenced, incoming).value))
  {
    if AllKnown(rows, incoming) {
      FlushOutcome(rows, incoming, nextId, referenced);
    }
  }

  /** A successful sync leaves a persisted list, keeps every referenced process, and invents no old id. */
  lemma SuccessfulSync(rows: seq<Row>, nextId: int, referenced: set<int>, incoming: seq<Upsert>)
    requires Persisted(rows) && IdsBelow(rows, nextId)
    requires SyncRequest(rows, nextId, referenced, incoming).Ok?
    ensures var r := SyncRequest(rows, nextId, referenced, incoming).value;
            && Persisted(r) && DistinctSequences(r)
            && (forall id :: id in referenced && HasId(rows, Some(id)) ==> HasId(r, Some(id)))
            && (forall id :: id < nextId && HasId(r, Some(id)) ==> HasId(rows, Some(id)))
  {
    var synced := Synced(rows, incoming);
    FlushOutcome(rows, incoming, nextId, referenced);
    SyncedIds(rows, incoming);
    AssignIdsSpec(synced, nextId);
    StoredSequences(synced, nextId);
    forall id | id in referenced && HasId(rows, Some(id))
      ensures HasId(AssignIds(synced, nextId), Some(id))
    {
      var n :| 0 <= n < |rows| && rows[n].id == Some(id);
      assert Id(rows[n]) == id;
      assert Requests(incoming, rows[n].id);
      RequestedStays(rows, nextId, incoming, id);
    }
    forall id | id < nextId && HasId(AssignIds(synced, nextId), Some(id))
      ensures HasId(rows, Some(id))
    {
      var i :| 0 <= i < |synced| && AssignIds(synced, nextId)[i].id == Some(id);
      assert synced[i].id == Some(id);
    }
  }

  /** Every stored row is sent, and as it is; nothing else is. */
  ghost predicate Unchanged(rows: seq<Row>, incoming: seq<Upsert>) {
    && NewRows(incoming) == []
    && forall i :: 0 <= i < |rows| ==> Requests(incoming, rows[i].id) && Overwritten(rows[i], incoming) == rows[i]
  }

  lemma UnchangedSynced(rows: seq<Row>, incoming: seq<Upsert>)
    requires Unchanged(rows, incoming)
    ensures Synced(rows, incoming) == rows
  {
    FilterAll(rows, (r: Row) => Requests(incoming, r.id));
    assert Map(rows, (r: Row) => Overwritten(r, incoming)) == rows;
  }

  lemma {:induction false} AssignIdsNoop(rows: seq<Row>, nextId: int)
    requires forall i :: 0 <= i < |rows| ==> rows[i].id.Some?
    ensures AssignIds(rows, nextId) == rows
  {
    if rows != [] {
      AssignIdsNoop(rows[1..], nextId);
    }
  }

  lemma UnchangedIsFree(rows: seq<Row>, incoming: seq<Upsert>, referenced: set<int>)
    requires Unchanged(rows, incoming) && Persisted(rows) && DistinctSequences(rows)
    ensures SequencesFree(rows, incoming) && !DropsReferenced(rows, incoming, referenced)
  {
    UnchangedSynced(rows, incoming);
    forall i, j | 0 <= i < |rows| && 0 <= j < |rows| && Id(rows[i]) < Id(rows[j])
      ensures Overwritten(rows[i], incoming).content.sequence != rows[j].content.sequence
    {
      assert i != j && Overwritten(rows[i], incoming) == rows[i];
      assert if i < j then rows[i].content.sequence != rows[j].content.sequence else rows[j].content.sequence != rows[i].content.sequence;
    }
  }

  /** Sending back what `get` returned passes the flush and stores the same rows. */
  lemma RoundTripPasses(rows: seq<Row>, nextId: int, referenced: set<int>)
    requires Persisted(rows) && IdsBelow(rows, nextId) && DistinctSequences(rows)
    ensures SyncRequest(rows, nextId, referenced, Map(rows, (r: Row) => Upsert(r.id, r.content))) == Ok(rows)
  {
    var sent := Map(rows, (r: Row) => Upsert(r.id, r.content));
    RoundTrip(rows);
    SentBackIsUnchanged(rows, sent);
    UnchangedIsFree(rows, sent, referenced);
    AssignIdsNoop(rows, nextId);
    SyncOutcome(rows, nextId, referenced, sent);
  }

  lemma SentBackIsUnchanged(rows: seq<Row>, sent: seq<Upsert>)
    requires Persisted(rows) && sent == Map(rows, (r: Row) => Upsert(r.id, r.content))
    ensures Unchanged(rows, sent)
  {
    NothingNew(sent);
    forall i | 0 <= i < |rows|
      ensures Requests(sent, rows[i].id) && Overwritten(rows[i], sent) == rows[i]
    {
      assert sent[i].id == rows[i].id;
      LastEntryWins(rows[i], sent, i);
    }
  }

  /** Repeating a request that went through passes the flush exactly when it creates nothing: the processes the first
      one created are not sent back, and the repetition inserts their successors before it deletes them. */
  lemma RepeatPassesIffNothingNew(rows: seq<Row>, incoming: seq<Upsert>, nextId: int, referenced: set<int>,
                                  reloaded: seq<Row>, nextId': int, referenced': set<int>)
    requires Persisted(rows) && IdsBelow(rows, nextId) && SyncRequest(rows, nextId, referenced, incoming).Ok?
    requires multiset(reloaded) == multiset(SyncRequest(rows, nextId, referenced, incoming).value)
    requires Persisted(reloaded) && IdsBelow(reloaded, nextId')
    ensures SyncRequest(reloaded, nextId', referenced', incoming).Ok? <==> NewRows(incoming) == []
    ensures NewRows(incoming) != [] ==> SyncRequest(reloaded, nextId', referenced', incoming) == Err(SequenceTaken)
    ensures NewRows(incoming) == [] ==>
              multiset(SyncRequest(reloaded, nextId', referenced', incoming).value) == multiset(reloaded)
  {
    SyncOutcome(rows, nextId, referenced, incoming);
    SyncOutcome(reloaded, nextId', referenced', incoming);
    SyncTwice(rows, incoming, nextId, reloaded);
    if NewRows(incoming) == [] {
      NothingNewRepeats(rows, incoming, nextId, reloaded, nextId', referenced');
    } else {
      NewRowIsTakenOver(rows, incoming, nextId, reloaded);
    }
  }

  lemma NewRowIsTakenOver(rows: seq<Row>, incoming: seq<Upsert>, nextId: int, reloaded: seq<Row>)
    requires Good(rows, incoming, nextId) && NewRows(incoming) != []
    requires multiset(reloaded) == multiset(AssignIds(Synced(rows, incoming), nextId))
    ensures !NoTakeover(reloaded, incoming)
  {
    var rewritten := Map(Kept(rows, incoming), (r: Row) => Overwritten(r, incoming));
    var stored, inserts := AssignIds(Synced(rows, incoming), nextId), Inserts(incoming, nextId);
    KeptIsPersisted(rows, incoming);
    AssignIdsAppend(rewritten, NewRows(incoming), nextId);
    NewIdsAreFresh(rows, incoming, nextId);
    AssignIdsAt(NewRows(incoming), nextId, 0);
    assert stored[|rewritten|] == inserts[0];
    assert inserts[0] in multiset(reloaded);
    var i :| 0 <= i < |reloaded| && reloaded[i] == inserts[0];
    var again := Synced(reloaded, incoming);
    var j := |again| - |NewRows(incoming)|;
    assert again[j] == NewRows(incoming)[0];
  }

  lemma NothingNewRepeats(rows: seq<Row>, incoming: seq<Upsert>, nextId: int, reloaded: seq<Row>, nextId': int, referenced': set<int>)
    requires Good(rows, incoming, nextId) && NewRows(incoming) == [] && DistinctSequences(Synced(rows, incoming))
    requires multiset(reloaded) == multiset(AssignIds(Synced(rows, incoming), nextId))
    requires Persisted(reloaded)
    ensures SequencesFree(reloaded, incoming) && !DropsReferenced(reloaded, incoming, referenced')
    ensures AssignIds(Synced(reloaded, incoming), nextId') == reloaded
  {
    forall i | 0 <= i < |reloaded|
      ensures Requests(incoming, reloaded[i].id) && Overwritten(reloaded[i], incoming) == reloaded[i]
    {
      StoredIsRewritten(rows, incoming, nextId, reloaded, i);
    }
    UnchangedSynced(reloaded, incoming);
    AssignIdsNoop(reloaded, nextId');
    StoredSequencesDistinct(rows, incoming, nextId, reloaded);
    UnchangedIsFree(reloaded, incoming, referenced');
  }

  lemma StoredSequencesDistinct(rows: seq<Row>, incoming: seq<Upsert>, nextId: int, reloaded: seq<Row>)
    requires Good(rows, incoming, nextId) && DistinctSequences(Synced(rows, incoming))
    requires multiset(reloaded) == multiset(AssignIds(Synced(rows, incoming), nextId))
    ensures DistinctSequences(reloaded)
  {
    var synced := Synced(rows, incoming);
    SyncedIds(rows, incoming);
    assert IdsBelow(synced, nextId);
    AssignIdsSpec(synced, nextId);
    MapPermutation(AssignIds(synced, nextId), reloaded, (r: Row) => r.content);
    SequencesPermutation(synced, reloaded);
  }

  lemma StoredIsRewritten(rows: seq<Row>, incoming: seq<Upsert>, nextId: int, reloaded: seq<Row>, i: nat)
    requires Good(rows, incoming, nextId) && NewRows(incoming) == [] && i < |reloaded|
    requires multiset(reloaded) == multiset(AssignIds(Synced(rows, incoming), nextId))
    ensures Requests(incoming, reloaded[i].id) && Overwritten(reloaded[i], incoming) == reloaded[i]
  {
    var kept := Kept(rows, incoming);
    var rewritten := Map(kept, (r: Row) => Overwritten(r, incoming));
    KeptIsPersisted(rows, incoming);
    AssignIdsAppend(rewritten, [], nextId);
    assert rewritten + [] == rewritten == Synced(rows, incoming);
    assert reloaded[i] in multiset(rewritten);
    var k :| 0 <= k < |rewritten| && rewritten[k] == reloaded[i];
    OverwrittenTwice(kept[k], incoming);
  }

  /** Two requests that end in a list without duplicates and are refused all the same: swapping two sequences, and
      replacing a process by a new one under its sequence. */
  lemma SwapAndReplaceAreRefused(a: Content, b: Content, nextId: int, referenced: set<int>)
    requires a.sequence != b.sequence && 2 < nextId
    ensures var rows := [Row(Some(1), a), Row(Some(2), b)];
            var swap := [Upsert(Some(1), a.(sequence := b.sequence)), Upsert(Some(2), b.(sequence := a.sequence))];
            AllKnown(rows, swap) && NoDuplicate(rows, swap) && SyncRequest(rows, nextId, referenced, swap) == Err(SequenceTaken)
    ensures var replace := [Upsert(None, a)];
            NoDuplicate([Row(Some(1), a)], replace)
            && SyncRequest([Row(Some(1), a)], nextId, referenced, replace) == Err(SequenceTaken)
  {
    SwapIsRefused(a, b, nextId, referenced);
    ReplaceIsRefused(a, nextId, referenced);
  }

  lemma SwapIsRefused(a: Content, b: Content, nextId: int, referenced: set<int>)
    requires a.sequence != b.sequence && 2 < nextId
    ensures var rows := [Row(Some(1), a), Row(Some(2), b)];
            var swap := [Upsert(Some(1), a.(sequence := b.sequence)), Upsert(Some(2), b.(sequence := a.sequence))];
            AllKnown(rows, swap) && NoDuplicate(rows, swap) && SyncRequest(rows, nextId, referenced, swap) == Err(SequenceTaken)
  {
    var rows := [Row(Some(1), a), Row(Some(2), b)];
    var swap := [Upsert(Some(1), a.(sequence := b.sequence)), Upsert(Some(2), b.(sequence := a.sequence))];
    assert swap[0].id == rows[0].id && swap[1].id == rows[1].id;
    LastEntryWins(rows[0], swap, 0);
    LastEntryWins(rows[1], swap, 1);
    SwapSynced(rows, swap);
    SyncOutcome(rows, nextId, referenced, swap);
    assert Id(rows[0]) < Id(rows[1]) && Overwritten(rows[0], swap).content.sequence == rows[1].content.sequence;
  }

  lemma {:induction false} SwapSynced(rows: seq<Row>, swap: seq<Upsert>)
    requires |rows| == |swap| == 2 && forall i :: 0 <= i < 2 ==> rows[i].id.Some? && swap[i].id == rows[i].id
    ensures Synced(rows, swap) == [Overwritten(rows[0], swap), Overwritten(rows[1], swap)]
  {
    FilterAll(rows, (r: Row) => Requests(swap, r.id));
    NothingNew(swap);
  }

  lemma ReplaceIsRefused(a: Content, nextId: int, referenced: set<int>)
    requires 1 < nextId
    ensures var rows, replace := [Row(Some(1), a)], [Upsert(None, a)];
            NoDuplicate(rows, replace) && SyncRequest(rows, nextId, referenced, replace) == Err(SequenceTaken)
  {
    var rows, replace := [Row(Some(1), a)], [Upsert(None, a)];
    assert !Requests(replace, rows[0].id);
    FilterNone(rows, (r: Row) => Requests(replace, r.id));
    assert replace[..0] == [] && NewRows(replace) == [Row(None, a)];
    SyncOutcome(rows, nextId, referenced, replace);
    assert Synced(rows, replace)[0].content.sequence == rows[0].content.sequence;
  }
}
