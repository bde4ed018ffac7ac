/** Inner joins of row lists, as the query layer uses them. */
module Relational {
  import opened Prelude

  /** The rows of `right` that match one row of `left`. */
  function Matches<A, B>(a: A, right: seq<B>, on: (A, B) -> bool): seq<(A, B)> {
    Map(Filter(right, (b: B) => on(a, b)), (b: B) => (a, b))
  }

  /** `left JOIN right ON on`, grouped by the left row. */
  function Join<A, B>(left: seq<A>, right: seq<B>, on: (A, B) -> bool): seq<(A, B)> {
    if left == [] then [] else Matches(left[0], right, on) + Join(left[1..], right, on)
  }

  /** Row `j` of `right` is the only one that matches `a`. */
  ghost predicate OnlyMatch<A, B>(a: A, right: seq<B>, on: (A, B) -> bool, j: nat) {
    j < |right| && on(a, right[j]) && forall k :: 0 <= k < |right| && k != j ==> !on(a, right[k])
  }

  ghost predicate HasOnlyMatch<A, B>(a: A, right: seq<B>, on: (A, B) -> bool) {
    exists j :: OnlyMatch(a, right, on, j)
  }

  lemma {:induction false} OnlyMatchFilters<A, B>(a: A, right: seq<B>, on: (A, B) -> bool, j: nat)
    requires OnlyMatch(a, right, on, j)
    ensures Matches(a, right, on) == [(a, right[j])]
  {
    var p := (b: B) => on(a, b);
    FilterNone(right[..j], p);
    FilterNone(right[j + 1..], p);
    FilterAppend(right[..j], [right[j]], p);
    FilterAppend(right[..j] + [right[j]], right[j + 1..], p);
    assert right == right[..j] + [right[j]] + right[j + 1..];
    assert Filter([right[j]], p) == [right[j]];
  }

  /** Each row of `left` once, in order, each with a row it matches. */
  ghost predicate PairsUp<A, B>(left: seq<A>, right: seq<B>, on: (A, B) -> bool, joined: seq<(A, B)>) {
    && |joined| == |left|
    && forall i :: 0 <= i < |left| ==> joined[i].0 == left[i] && joined[i].1 in right && on(left[i], joined[i].1)
  }

  /** A join over a total reference to a unique key neither drops nor duplicates a row. */
  lemma {:induction false} JoinOverKey<A, B>(left: seq<A>, right: seq<B>, on: (A, B) -> bool)
    requires forall i :: 0 <= i < |left| ==> HasOnlyMatch(left[i], right, on)
    ensures PairsUp(left, right, on, Join(left, right, on))
  {
    if left != [] {
      var a, rest := left[0], left[1..];
      assert HasOnlyMatch(left[0], right, on);
      var j: nat :| OnlyMatch(a, right, on, j);
      OnlyMatchFilters(a, right, on, j);
      forall i | 0 <= i < |rest| ensures HasOnlyMatch(rest[i], right, on) { assert rest[i] == left[i + 1]; }
      JoinOverKey(rest, right, on);
      PairsUpCons(a, right[j], rest, right, on, Join(rest, right, on));
      assert left == [a] + rest;
    }
  }

  lemma PairsUpCons<A, B>(a: A, b: B, left: seq<A>, right: seq<B>, on: (A, B) -> bool, joined: seq<(A, B)>)
    requires PairsUp(left, right, on, joined) && b in right && on(a, b)
    ensures PairsUp([a] + left, right, on, [(a, b)] + joined)
  {
  }

  // ---------------------------------------------------------------- scalar_one_or_none

  /** The ids a query returns, read as at most one row; several rows are an error. */
  datatype Found = NoRow | OneRow(id: int) | SeveralRows

  ghost function ScalarOneOrNone(ids: set<int>): (f: Found)
    ensures f.NoRow? <==> ids == {}
    ensures f.OneRow? ==> ids == {f.id}
    ensures f.SeveralRows? <==> exists a, b :: a in ids && b in ids && a != b
  {
    EmptySingleOrSeveral(ids);
    if ids == {} then NoRow else if id :| id in ids && ids == {id} then OneRow(id) else SeveralRows
  }

  method FetchScalar(ids: set<int>) returns (f: Found)
    ensures f == ScalarOneOrNone(ids)
  {
    if ids == {} {
      f := NoRow;
    } else if id :| id in ids && ids == {id} {
      f := OneRow(id);
    } else {
      f := SeveralRows;
    }
  }
}
