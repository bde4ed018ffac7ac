/** Options, results and the few facts about sequences that several modules share. */
module Prelude {

  /** The clock counts microseconds. */
  const SECOND: int := 1_000_000
  const DAY: int := 24 * 3600 * SECOND

  /** How long a cached response lives. */
  const CACHE_TTL: nat := 600 * SECOND

  datatype Option<+T> = None | Some(value: T) {
    function GetOr(default: T): T {
      if Some? then value else default
    }
  }

  datatype Result<+T, +E> = Ok(value: T) | Err(error: E)

  /** The field holds what was sent, or what it held when nothing was. */
  predicate SentOrKept<T(==)>(sent: Option<T>, before: T, after: T) {
    match sent
    case None => after == before
    case Some(v) => after == v
  }

  /** The same for a field that may be empty. */
  predicate SentOrKeptOptional<T(==)>(sent: Option<T>, before: Option<T>, after: Option<T>) {
    if sent.Some? then after == sent else after == before
  }

  /** The elements of `s` that satisfy `p`, in order: a WHERE clause. */
  function Filter<T>(s: seq<T>, p: T -> bool): (r: seq<T>)
    ensures forall i :: 0 <= i < |r| ==> r[i] in s && p(r[i])
    ensures forall i :: 0 <= i < |s| && p(s[i]) ==> s[i] in r
    ensures |r| <= |s|
  {
    if s == [] then []
    else (if p(s[0]) then [s[0]] else []) + Filter(s[1..], p)
  }

  /** `f` applied to every element, in order: a list comprehension. */
  function Map<T, U>(s: seq<T>, f: T -> U): (r: seq<U>)
    ensures |r| == |s|
    ensures forall i :: 0 <= i < |s| ==> r[i] == f(s[i])
  {
    seq(|s|, i requires 0 <= i < |s| => f(s[i]))
  }

  /** No two positions hold the same value. */
  ghost predicate Distinct<T>(s: seq<T>) {
    forall i, j :: 0 <= i < j < |s| ==> s[i] != s[j]
  }

  lemma FilterAppend<T>(a: seq<T>, b: seq<T>, p: T -> bool)
    ensures Filter(a + b, p) == Filter(a, p) + Filter(b, p)
  {
    if a == [] {
      assert a + b == b;
    } else {
      assert (a + b)[1..] == a[1..] + b;
      FilterAppend(a[1..], b, p);
    }
  }

  lemma {:induction false} FilterAll<T>(s: seq<T>, p: T -> bool)
    requires forall i :: 0 <= i < |s| ==> p(s[i])
    ensures Filter(s, p) == s
  {
    if s != [] {
      FilterAll(s[1..], p);
      assert s == [s[0]] + s[1..];
    }
  }

  lemma {:induction false} FilterNone<T>(s: seq<T>, p: T -> bool)
    requires forall i :: 0 <= i < |s| ==> !p(s[i])
    ensures Filter(s, p) == []
  {
    if s != [] {
      FilterNone(s[1..], p);
    }
  }

  lemma FilterMultiset<T>(s: seq<T>, p: T -> bool, x: T)
    ensures multiset(Filter(s, p))[x] == if p(x) then multiset(s)[x] else 0
  {
    if s != [] {
      assert s == [s[0]] + s[1..];
      FilterMultiset(s[1..], p, x);
    }
  }

  /** Filtering does not care in which order the rows come. */
  lemma FilterPermutation<T>(a: seq<T>, b: seq<T>, p: T -> bool)
    requires multiset(a) == multiset(b)
    ensures multiset(Filter(a, p)) == multiset(Filter(b, p))
  {
    forall x
      ensures multiset(Filter(a, p))[x] == multiset(Filter(b, p))[x]
    {
      FilterMultiset(a, p, x);
      FilterMultiset(b, p, x);
    }
  }

  lemma MapAppend<T, U>(a: seq<T>, b: seq<T>, f: T -> U)
    ensures Map(a + b, f) == Map(a, f) + Map(b, f)
  {
  }

  lemma MapInsert<T, U>(a: seq<T>, x: T, b: seq<T>, f: T -> U)
    ensures multiset(Map(a + [x] + b, f)) == multiset{f(x)} + multiset(Map(a + b, f))
  {
    MapAppend(a + [x], b, f);
    MapAppend(a, [x], f);
    MapAppend(a, b, f);
  }

  lemma InsertMultiset<T>(a: seq<T>, x: T, b: seq<T>)
    ensures multiset(a + [x] + b) == multiset{x} + multiset(a + b)
  {
  }

  lemma CancelOne<T>(m: multiset<T>, n: multiset<T>, x: T)
    requires multiset{x} + m == multiset{x} + n
    ensures m == n
  {
    assert m == (multiset{x} + m) - multiset{x};
  }

  /** Neither does mapping. */
  lemma MapPermutation<T, U>(a: seq<T>, b: seq<T>, f: T -> U)
    requires multiset(a) == multiset(b)
    ensures multiset(Map(a, f)) == multiset(Map(b, f))
  {
    if a == [] {
      assert |multiset(b)| == 0;
    } else {
      assert a[0] in multiset(b);
      var i :| 0 <= i < |b| && b[i] == a[0];
      var rest, c := a[1..], b[..i] + b[i + 1..];
      assert a == [] + [a[0]] + rest && [] + rest == rest;
      assert b == b[..i] + [a[0]] + b[i + 1..];
      InsertMultiset([], a[0], rest);
      InsertMultiset(b[..i], a[0], b[i + 1..]);
      CancelOne(multiset(rest), multiset(c), a[0]);
      MapPermutation(rest, c, f);
      MapInsert([], a[0], rest, f);
      MapInsert(b[..i], a[0], b[i + 1..], f);
    }
  }

  lemma EmptySingleOrSeveral(s: set<int>)
    ensures s == {} || (exists a :: a in s && s == {a}) || exists a, b :: a in s && b in s && a != b
  {
    if forall a :: a !in s {
      assert s == {};
    } else {
      var a :| a in s;
      if forall b :: b in s ==> b == a {
        assert s == {a};
      }
    }
  }
}
