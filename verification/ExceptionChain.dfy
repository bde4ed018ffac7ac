/** The exception-chain walk of app/core/exceptions.py:244-255: `orig`, else `__cause__`, until the chain ends or bites
    its own tail. */
module ExceptionChain {
  import opened Prelude

  const READ_ONLY_TRANSACTION := "25006"

  /** An exception object.  `origIsForeign` marks a truthy `orig` attribute that is no exception. */
  class Exc {
    var sqlstate: Option<string>
    var origIsForeign: bool
    var orig: Exc?
    var cause: Exc?

    constructor (sqlstate: Option<string>, origIsForeign: bool, orig: Exc?, cause: Exc?)
      ensures this.sqlstate == sqlstate && this.origIsForeign == origIsForeign && this.orig == orig && this.cause == cause
    {
      this.sqlstate, this.origIsForeign, this.orig, this.cause := sqlstate, origIsForeign, orig, cause;
    }

    function Next(): Exc?
      reads this
    {
      if origIsForeign then null else if orig != null then orig else cause
    }
  }

  /** A finite graph of exceptions, cycles allowed. */
  ghost predicate Closed(graph: set<Exc>)
    reads graph
  {
    forall e :: e in graph && e.Next() != null ==> e.Next() in graph
  }

  /** The k-th exception on the chain of `e`, or null past its end. */
  ghost function Nth(e: Exc, k: nat, graph: set<Exc>): (r: Exc?)
    requires Closed(graph) && e in graph
    reads graph
    ensures r != null ==> r in graph
  {
    if k == 0 then e
    else
      var before := Nth(e, k - 1, graph);
      if before == null then null else before.Next()
  }

  ghost predicate Violates(e: Exc?)
    reads e
  {
    e != null && e.sqlstate == Some("25006")
  }

  lemma {:induction false} PastTheEnd(e: Exc, n: nat, k: nat, graph: set<Exc>)
    requires Closed(graph) && e in graph && n <= k && Nth(e, n, graph) == null
    ensures Nth(e, k, graph) == null
    decreases k
  {
    if n < k {
      PastTheEnd(e, n, k - 1, graph);
    }
  }

  /** `x` is among the first `n` exceptions of the chain. */
  ghost predicate Passed(e: Exc, n: nat, x: Exc, graph: set<Exc>)
    requires Closed(graph) && e in graph
    reads graph
  {
    exists i: nat :: i < n && Nth(e, i, graph) == x
  }

  /** Once the chain returns to a node it has passed, it never leaves the nodes it has passed. */
  lemma {:induction false} InsideTheCycle(e: Exc, n: nat, k: nat, graph: set<Exc>, seen: set<Exc>)
    requires Closed(graph) && e in graph
    requires forall i: nat :: i <= n ==> Nth(e, i, graph) != null && Nth(e, i, graph) in seen
    requires forall x :: x in seen ==> Passed(e, n, x, graph)
    ensures Nth(e, k, graph) != null && Nth(e, k, graph) in seen
    decreases k
  {
    if n < k {
      InsideTheCycle(e, n, k - 1, graph, seen);
      var before := Nth(e, k - 1, graph);
      assert Passed(e, n, before, graph);
      var i: nat :| i < n && Nth(e, i, graph) == before;
      assert Nth(e, i + 1, graph) == Nth(e, k, graph);
    }
  }

  /** Terminates on every finite graph, and answers whether some exception on the chain carries the code. */
  method IsReadOnlyViolation(exc: Exc, ghost graph: set<Exc>) returns (r: bool)
    requires Closed(graph) && exc in graph
    ensures r <==> exists k: nat :: Violates(Nth(exc, k, graph))
  {
    var seen: set<Exc> := {};
    var cur: Exc? := exc;
    ghost var n: nat := 0;
    while cur != null && cur !in seen
      invariant cur == Nth(exc, n, graph)
      invariant seen <= graph
      invariant forall i: nat :: i < n ==> Nth(exc, i, graph) != null && Nth(exc, i, graph) in seen
      invariant forall x :: x in seen ==> !Violates(x) && Passed(exc, n, x, graph)
      decreases graph - seen
    {
      seen := seen + {cur};
      if cur.sqlstate == Some(READ_ONLY_TRANSACTION) {
        assert Violates(Nth(exc, n, graph));
        return true;
      }
      ghost var here := cur;
      cur := if cur.origIsForeign then null else if cur.orig != null then cur.orig else cur.cause;
      n := n + 1;
      assert Nth(exc, n - 1, graph) == here;
    }
    forall k: nat
      ensures !Violates(Nth(exc, k, graph))
    {
      if cur == null {
        if n <= k {
          PastTheEnd(exc, n, k, graph);
        } else {
          assert Nth(exc, k, graph) in seen;
        }
      } else {
        InsideTheCycle(exc, n, k, graph, seen);
      }
    }
    r := false;
  }
}
