/** What a process sync means for the list: contents, round trips, repetition, and the ids of new rows. */
module ProcessSyncTheorems {
  import opened Prelude
  import opened ProcessSync

  function Contents(rows: seq<Row>): seq<Content> {
    Map(rows, (r: Row) => r.content)
  }

  function SentContents(incoming: seq<Upsert>): seq<Content> {
    Map(incoming, (p: Upsert) => p.content)
  }

  ghost predicate DistinctSentIds(incoming: seq<Upsert>) {
    forall i, j :: 0 <= i < j < |incoming| && incoming[i].id.Some? ==> incoming[i].id != incoming[j].id
  }

  /** The last entry with the row's id is the one that counts. */
  lemma {:induction false} LastEntryWins(row: Row, incoming: seq<Upsert>, k: nat)
    requires k < |incoming| && row.id.Some? && incoming[k].id == row.id
    requires forall j :: k < j < |incoming| ==> incoming[j].id != row.id
    ensures Overwritten(row, incoming) == Row(row.id, incoming[k].content)
  {
    if k < |incoming| - 1 {
      LastEntryWins(row, incoming[..|incoming| - 1], k);
    }
  }

  /** Sending back what `get` returned leaves the standard as it is. */
  lemma RoundTrip(rows: seq<Row>)
    requires Persisted(rows)
    ensures var sent := Map(rows, (r: Row) => Upsert(r.id, r.content));
            AllKnown(rows, sent) && Synced(rows, sent) == rows
  {
    var sent := Map(rows, (r: Row) => Upsert(r.id, r.content));
    forall i | 0 <= i < |rows|
      ensures Requests(sent, rows[i].id) && HasId(rows, sent[i].id) && Overwritten(rows[i], sent) == rows[i]
    {
      assert sent[i].id == rows[i].id;
      LastEntryWins(rows[i], sent, i);
    }
    FilterAll(rows, (r: Row) => Requests(sent, r.id));
    NothingNew(sent);
    assert Map(rows, (r: Row) => Overwritten(r, sent)) == rows;
  }

  lemma {:induction false} NothingNew(incoming: seq<Upsert>)
    requires forall k :: 0 <= k < |incoming| ==> incoming[k].id.Some?
    ensures NewRows(incoming) == []
  {
    if incoming != [] {
      NothingNew(incoming[..|incoming| - 1]);
    }
  }

  // ---------------------------------------------------------------- conservation of contents

  /** What one stored row contributes: its rewritten content if it is requested. */
  function Contribution(row: Row, incoming: seq<Upsert>): seq<Content> {
    if Requests(incoming, row.id) then [Overwritten(row, incoming).content] else []
  }

  function KeptContents(rows: seq<Row>, incoming: seq<Upsert>): seq<Content> {
    if rows == [] then [] else Contribution(rows[0], incoming) + KeptContents(rows[1..], incoming)
  }

  lemma {:induction false} KeptContentsIsMap(rows: seq<Row>, incoming: seq<Upsert>)
    ensures KeptContents(rows, incoming) == Map(Kept(rows, incoming), (r: Row) => Overwritten(r, incoming).content)
  {
    if rows != [] {
      KeptContentsIsMap(rows[1..], incoming);
    }
  }

  /** An entry changes nothing for the rows of other ids. */
  lemma ContributionUntouched(row: Row, done: seq<Upsert>, p: Upsert)
    requires row.id.Some? && row.id != p.id
    ensures Contribution(row, done + [p]) == Contribution(row, done)
  {
    var more := done + [p];
    assert more[..|more| - 1] == done;
    RequestsAppend(done, p, row.id);
  }

  lemma {:induction false} KeptContentsUntouched(rows: seq<Row>, done: seq<Upsert>, p: Upsert)
    requires forall i :: 0 <= i < |rows| ==> rows[i].id.Some? && rows[i].id != p.id
    ensures KeptContents(rows, done + [p]) == KeptContents(rows, done)
  {
    if rows != [] {
      ContributionUntouched(rows[0], done, p);
      KeptContentsUntouched(rows[1..], done, p);
    }
  }

  /** The first entry for an id adds exactly its content. */
  lemma {:induction false} KeptContentsStep(rows: seq<Row>, done: seq<Upsert>, p: Upsert)
    requires Persisted(rows) && p.id.Some? && HasId(rows, p.id) && !Requests(done, p.id)
    ensures multiset(KeptContents(rows, done + [p])) == multiset(KeptContents(rows, done)) + multiset{p.content}
  {
    var first, rest := rows[0], rows[1..];
    if first.id == p.id {
      var more := done + [p];
      assert more[|more| - 1] == p;
      RequestsAppend(done, p, first.id);
      assert Contribution(first, more) == [p.content] && Contribution(first, done) == [];
      KeptContentsUntouched(rest, done, p);
    } else {
      var n :| 0 <= n < |rows| && rows[n].id == p.id;
      assert rest[n - 1].id == p.id;
      ContributionUntouched(first, done, p);
      KeptContentsStep(rest, done, p);
    }
  }

  lemma RequestsAppend(done: seq<Upsert>, p: Upsert, id: Option<int>)
    ensures Requests(done + [p], id) <==> Requests(done, id) || (id.Some? && p.id == id)
  {
    var more := done + [p];
    if Requests(done, id) {
      var k :| 0 <= k < |done| && done[k].id == id;
      assert more[k].id == id;
    }
    if p.id == id {
      assert more[|done|].id == id;
    }
  }

  lemma {:induction false} NoRequestKeepsNothing(rows: seq<Row>)
    ensures KeptContents(rows, []) == []
  {
    if rows != [] {
      NoRequestKeepsNothing(rows[1..]);
    }
  }

  lemma NewRowsAppend(done: seq<Upsert>, p: Upsert)
    ensures Contents(NewRows(done + [p])) == Contents(NewRows(done)) + if p.id.None? then [p.content] else []
  {
    var more := done + [p];
    assert more[..|more| - 1] == done;
  }

  lemma {:induction false} KeptAndNewContents(rows: seq<Row>, incoming: seq<Upsert>)
    requires Persisted(rows) && AllKnown(rows, incoming) && DistinctSentIds(incoming)
    ensures multiset(KeptContents(rows, incoming)) + multiset(Contents(NewRows(incoming))) == multiset(SentContents(incoming))
  {
    if incoming == [] {
      NoRequestKeepsNothing(rows);
    } else {
      var n := |incoming| - 1;
      var done, p := incoming[..n], incoming[n];
      LastOfRequest(rows, incoming);
      KeptAndNewContents(rows, done);
      KeptAndNewStep(rows, done, p);
      assert incoming == done + [p];
    }
  }

  lemma LastOfRequest(rows: seq<Row>, incoming: seq<Upsert>)
    requires incoming != [] && AllKnown(rows, incoming) && DistinctSentIds(incoming)
    ensures var done, p := incoming[..|incoming| - 1], incoming[|incoming| - 1];
            && AllKnown(rows, done) && DistinctSentIds(done)
            && (p.id.Some? ==> HasId(rows, p.id) && !Requests(done, p.id))
  {
  }

  lemma KeptAndNewStep(rows: seq<Row>, done: seq<Upsert>, p: Upsert)
    requires Persisted(rows) && (p.id.Some? ==> HasId(rows, p.id) && !Requests(done, p.id))
    requires multiset(KeptContents(rows, done)) + multiset(Contents(NewRows(done))) == multiset(SentContents(done))
    ensures multiset(KeptContents(rows, done + [p])) + multiset(Contents(NewRows(done + [p]))) == multiset(SentContents(done + [p]))
  {
    var kept, added := KeptContents(rows, done), Contents(NewRows(done));
    var kept', added' := KeptContents(rows, done + [p]), Contents(NewRows(done + [p]));
    SentStep(done, p);
    NewRowsAppend(done, p);
    if p.id.Some? {
      KeptContentsStep(rows, done, p);
      assert added' == added;
    } else {
      KeptContentsUntouched(rows, done, p);
      assert multiset(added') == multiset(added) + multiset{p.content};
    }
  }

  lemma SentStep(done: seq<Upsert>, p: Upsert)
    ensures multiset(SentContents(done + [p])) == multiset(SentContents(done)) + multiset{p.content}
  {
    assert SentContents(done + [p]) == SentContents(done) + [p.content];
  }

  /** Conservation: with distinct ids the contents stored are the contents sent, as multisets. */
  lemma ContentsConserved(rows: seq<Row>, incoming: seq<Upsert>)
    requires Persisted(rows) && AllKnown(rows, incoming) && DistinctSentIds(incoming)
    ensures multiset(Contents(Synced(rows, incoming))) == multiset(SentContents(incoming))
  {
    SyncedContents(rows, incoming);
    KeptAndNewContents(rows, incoming);
  }

  lemma SyncedContents(rows: seq<Row>, incoming: seq<Upsert>)
    ensures Contents(Synced(rows, incoming)) == KeptContents(rows, incoming) + Contents(NewRows(incoming))
  {
    var kept := Map(Kept(rows, incoming), (r: Row) => Overwritten(r, incoming));
    MapAppend(kept, NewRows(incoming), (r: Row) => r.content);
    KeptContentsIsMap(rows, incoming);
    assert Contents(kept) == KeptContents(rows, incoming);
  }

  // ---------------------------------------------------------------- ids and sequences

  /** The flush gives new rows the next ids of the sequence. */
  function AssignIds(rows: seq<Row>, nextId: int): (r: seq<Row>)
    ensures |r| == |rows|
  {
    if rows == [] then []
    else if rows[0].id.None? then [Row(Some(nextId), rows[0].content)] + AssignIds(rows[1..], nextId + 1)
    else [rows[0]] + AssignIds(rows[1..], nextId)
  }

  predicate DistinctSequences(rows: seq<Row>) {
    forall i, j :: 0 <= i < j < |rows| ==> rows[i].content.sequence != rows[j].content.sequence
  }

  ghost predicate IdsBelow(rows: seq<Row>, nextId: int) {
    forall i :: 0 <= i < |rows| && rows[i].id.Some? ==> rows[i].id.value < nextId
  }

  lemma {:induction false} AssignIdsAt(rows: seq<Row>, nextId: int, i: nat)
    requires i < |rows|
    ensures var r := AssignIds(rows, nextId)[i];
            && r.content == rows[i].content
            && (rows[i].id.Some? ==> r == rows[i])
            && (rows[i].id.None? ==> r.id.Some? && nextId <= r.id.value)
  {
    if 0 < i {
      AssignIdsAt(rows[1..], if rows[0].id.None? then nextId + 1 else nextId, i - 1);
    }
  }

  lemma {:induction false} AssignIdsApart(rows: seq<Row>, nextId: int, i: nat, j: nat)
    requires i < j < |rows| && DistinctIds(rows) && IdsBelow(rows, nextId)
    ensures AssignIds(rows, nextId)[i].id != AssignIds(rows, nextId)[j].id
  {
    var n := if rows[0].id.None? then nextId + 1 else nextId;
    if 0 < i {
      AssignIdsApart(rows[1..], n, i - 1, j - 1);
    } else {
      AssignIdsAt(rows[1..], n, j - 1);
    }
  }

  lemma AssignIdsSpec(rows: seq<Row>, nextId: int)
    requires DistinctIds(rows) && IdsBelow(rows, nextId)
    ensures Persisted(AssignIds(rows, nextId))
    ensures Contents(AssignIds(rows, nextId)) == Contents(rows)
    ensures forall i :: 0 <= i < |rows| ==>
              && (rows[i].id.Some? ==> AssignIds(rows, nextId)[i] == rows[i])
              && (rows[i].id.None? ==> AssignIds(rows, nextId)[i].id.Some? && nextId <= AssignIds(rows, nextId)[i].id.value)
  {
    forall i | 0 <= i < |rows| { AssignIdsAt(rows, nextId, i); }
    forall i, j | 0 <= i < j < |rows| { AssignIdsApart(rows, nextId, i, j); }
  }

  lemma SyncedIds(rows: seq<Row>, incoming: seq<Upsert>)
    requires Persisted(rows)
    ensures DistinctIds(Synced(rows, incoming))
    ensures forall i :: 0 <= i < |Synced(rows, incoming)| && Synced(rows, incoming)[i].id.Some? ==>
              HasId(rows, Synced(rows, incoming)[i].id) && Requests(incoming, Synced(rows, incoming)[i].id)
  {
    KeptIsPersisted(rows, incoming);
    NewRowsHaveNoId(incoming);
  }

  lemma StoredSequences(synced: seq<Row>, nextId: int)
    requires DistinctSequences(synced)
    ensures DistinctSequences(AssignIds(synced, nextId))
  {
    var r := AssignIds(synced, nextId);
    forall i, j | 0 <= i < j < |r|
      ensures r[i].content.sequence != r[j].content.sequence
    {
      AssignIdsAt(synced, nextId, i);
      AssignIdsAt(synced, nextId, j);
    }
  }

  lemma RequestedStays(rows: seq<Row>, nextId: int, incoming: seq<Upsert>, id: int)
    requires Requests(incoming, Some(id)) && HasId(rows, Some(id))
    ensures HasId(AssignIds(Synced(rows, incoming), nextId), Some(id))
  {
    var synced := Synced(rows, incoming);
    PartialHasRequestedIds(rows, incoming, incoming, Some(id));
    var i :| 0 <= i < |synced| && synced[i].id == Some(id);
    AssignIdsAt(synced, nextId, i);
    assert AssignIds(synced, nextId)[i].id == Some(id);
  }

  // ---------------------------------------------------------------- repetition

  /** Kept contents depend on which rows are stored, not on their order. */
  lemma KeptContentsPermutation(a: seq<Row>, b: seq<Row>, incoming: seq<Upsert>)
    requires multiset(a) == multiset(b)
    ensures multiset(KeptContents(a, incoming)) == multiset(KeptContents(b, incoming))
  {
    FilterPermutation(a, b, (r: Row) => Requests(incoming, r.id));
    MapPermutation(Kept(a, incoming), Kept(b, incoming), (r: Row) => Overwritten(r, incoming).content);
    KeptContentsIsMap(a, incoming);
    KeptContentsIsMap(b, incoming);
  }

  lemma {:induction false} OverwrittenTwice(row: Row, incoming: seq<Upsert>)
    requires Requests(incoming, row.id)
    ensures Overwritten(Overwritten(row, incoming), incoming) == Overwritten(row, incoming)
  {
    var n := |incoming| - 1;
    if !(incoming[n].id.Some? && incoming[n].id == row.id) {
      var k :| 0 <= k < |incoming| && incoming[k].id == row.id;
      assert incoming[..n][k].id == row.id;
      OverwrittenTwice(row, incoming[..n]);
    }
  }

  lemma {:induction false} AssignIdsAppend(a: seq<Row>, b: seq<Row>, nextId: int)
    requires forall i :: 0 <= i < |a| ==> a[i].id.Some?
    ensures AssignIds(a + b, nextId) == a + AssignIds(b, nextId)
  {
    if a == [] {
      assert a + b == b;
    } else {
      AssignIdsAppend(a[1..], b, nextId);
      assert (a + b)[1..] == a[1..] + b;
    }
  }

  lemma {:induction false} DistinctIffSingle(s: seq<nat>)
    ensures Distinct(s) <==> forall x :: multiset(s)[x] <= 1
  {
    if s != [] {
      assert s == [s[0]] + s[1..];
      DistinctIffSingle(s[1..]);
      assert multiset(s) == multiset{s[0]} + multiset(s[1..]);
      if Distinct(s) {
        forall i, j | 0 <= i < j < |s[1..]| ensures s[1..][i] != s[1..][j] {
          assert s[i + 1] != s[j + 1];
        }
        assert s[0] !in s[1..];
      }
      if forall x :: multiset(s)[x] <= 1 {
        assert forall x :: multiset(s[1..])[x] <= multiset(s)[x];
        assert multiset(s[1..])[s[0]] == 0;
        forall i, j | 0 <= i < j < |s| ensures s[i] != s[j] {
          if i == 0 {
            assert s[j] == s[1..][j - 1] && s[j] in multiset(s[1..]);
          } else {
            assert s[i] == s[1..][i - 1] && s[j] == s[1..][j - 1];
          }
        }
      }
    }
  }

  /** The unique constraint on sequences looks at contents only, in any order. */
  lemma SequencesPermutation(a: seq<Row>, b: seq<Row>)
    requires multiset(Contents(a)) == multiset(Contents(b)) && DistinctSequences(a)
    ensures DistinctSequences(b)
  {
    var f := (c: Content) => c.sequence;
    MapPermutation(Contents(a), Contents(b), f);
    var sa, sb := Map(Contents(a), f), Map(Contents(b), f);
    DistinctIffSingle(sa);
    DistinctIffSingle(sb);
    forall i, j | 0 <= i < j < |b|
      ensures b[i].content.sequence != b[j].content.sequence
    {
      assert sb[i] != sb[j];
    }
  }

  /** Applying the same request again, to the stored rows in whatever order they are loaded, reconciles again and
      stores the same contents; only the ids of the new processes differ. */
  lemma SyncTwice(rows: seq<Row>, incoming: seq<Upsert>, nextId: int, reloaded: seq<Row>)
    requires Persisted(rows) && AllKnown(rows, incoming) && IdsBelow(rows, nextId)
    requires multiset(reloaded) == multiset(AssignIds(Synced(rows, incoming), nextId))
    ensures AllKnown(reloaded, incoming)
    ensures multiset(Contents(Synced(reloaded, incoming))) == multiset(Contents(Synced(rows, incoming)))
  {
    KeptOfStored(rows, incoming, nextId);
    KeptContentsPermutation(reloaded, AssignIds(Synced(rows, incoming), nextId), incoming);
    SyncedContents(reloaded, incoming);
    SyncedContents(rows, incoming);
    forall k | 0 <= k < |incoming| && incoming[k].id.Some?
      ensures HasId(reloaded, incoming[k].id)
    {
      RequestedIsStored(rows, incoming, nextId, reloaded, k);
    }
  }

  lemma RequestedIsStored(rows: seq<Row>, incoming: seq<Upsert>, nextId: int, reloaded: seq<Row>, k: nat)
    requires k < |incoming| && incoming[k].id.Some? && AllKnown(rows, incoming)
    requires multiset(reloaded) == multiset(AssignIds(Synced(rows, incoming), nextId))
    ensures HasId(reloaded, incoming[k].id)
  {
    var synced, stored := Synced(rows, incoming), AssignIds(Synced(rows, incoming), nextId);
    PartialHasRequestedIds(rows, incoming, incoming, incoming[k].id);
    var i :| 0 <= i < |synced| && synced[i].id == incoming[k].id;
    AssignIdsAt(synced, nextId, i);
    assert stored[i] in multiset(reloaded);
    var j :| 0 <= j < |reloaded| && reloaded[j] == stored[i];
  }

  lemma NewIdsAreFresh(rows: seq<Row>, incoming: seq<Upsert>, nextId: int)
    requires AllKnown(rows, incoming) && IdsBelow(rows, nextId)
    ensures forall i :: 0 <= i < |AssignIds(NewRows(incoming), nextId)| ==> !Requests(incoming, AssignIds(NewRows(incoming), nextId)[i].id)
  {
    NewRowsHaveNoId(incoming);
    AssignIdsSpec(NewRows(incoming), nextId);
  }

  /** Of the stored rows, the request keeps the rewritten ones as they are. */
  lemma KeptOfStored(rows: seq<Row>, incoming: seq<Upsert>, nextId: int)
    requires Persisted(rows) && AllKnown(rows, incoming) && IdsBelow(rows, nextId)
    ensures KeptContents(AssignIds(Synced(rows, incoming), nextId), incoming) == KeptContents(rows, incoming)
  {
    var kept := Map(Kept(rows, incoming), (r: Row) => Overwritten(r, incoming));
    var fresh' := AssignIds(NewRows(incoming), nextId);
    var p := (r: Row) => Requests(incoming, r.id);
    KeptIsPersisted(rows, incoming);
    AssignIdsAppend(kept, NewRows(incoming), nextId);
    NewIdsAreFresh(rows, incoming, nextId);
    FilterAppend(kept, fresh', p);
    FilterAll(kept, p);
    FilterNone(fresh', p);
    KeptContentsIsMap(rows, incoming);
    KeptContentsIsMap(kept + fresh', incoming);
    forall i | 0 <= i < |kept|
      ensures Overwritten(kept[i], incoming) == kept[i]
    {
      OverwrittenTwice(Kept(rows, incoming)[i], incoming);
    }
  }
}
