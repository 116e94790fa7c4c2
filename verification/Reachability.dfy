/** Least sets closed under a relation, and the bookkeeping by which a worklist computes them. */
module Reachability {

  function Successors<K>(edges: map<K, seq<K>>, x: K): seq<K> {
    if x in edges then edges[x] else []
  }

  ghost predicate ClosedUnder<K>(edges: map<K, seq<K>>, s: set<K>) {
    forall x, k :: x in s && 0 <= k < |Successors(edges, x)| ==> Successors(edges, x)[k] in s
  }

  /** In every closed set that contains the roots. */
  ghost predicate Forced<K(!new)>(edges: map<K, seq<K>>, roots: set<K>, x: K) {
    forall s: set<K> :: roots <= s && ClosedUnder(edges, s) ==> x in s
  }

  ghost function Mentioned<K>(edges: map<K, seq<K>>, roots: set<K>): set<K> {
    roots + (set x, k | x in edges && 0 <= k < |edges[x]| :: edges[x][k])
  }

  /** The least set that contains the roots and is closed under the edges. */
  ghost function Reach<K(!new)>(edges: map<K, seq<K>>, roots: set<K>): set<K> {
    set x | x in Mentioned(edges, roots) && Forced(edges, roots, x)
  }

  lemma ReachIsLeast<K(!new)>(edges: map<K, seq<K>>, roots: set<K>)
    ensures roots <= Reach(edges, roots) && ClosedUnder(edges, Reach(edges, roots))
    ensures forall s: set<K> :: roots <= s && ClosedUnder(edges, s) ==> Reach(edges, roots) <= s
  {
    var r := Reach(edges, roots);
    forall x, k | x in r && 0 <= k < |Successors(edges, x)| ensures Successors(edges, x)[k] in r {
      var y := Successors(edges, x)[k];
      assert Forced(edges, roots, x);
      forall s: set<K> | roots <= s && ClosedUnder(edges, s) ensures y in s {
        assert x in s;
      }
    }
  }

  /** What a worklist keeps true: everything seen or waiting is reachable, and nothing reachable
      from what was seen has been forgotten. */
  ghost predicate Working<K(!new)>(edges: map<K, seq<K>>, roots: set<K>, seen: set<K>, pending: seq<K>) {
    && seen <= Reach(edges, roots)
    && (forall k :: 0 <= k < |pending| ==> pending[k] in Reach(edges, roots))
    && (forall x :: x in roots ==> x in seen || x in pending)
    && (forall x, k :: x in seen && 0 <= k < |Successors(edges, x)| ==> Successors(edges, x)[k] in seen || Successors(edges, x)[k] in pending)
  }

  lemma WorkStarts<K(!new)>(edges: map<K, seq<K>>, roots: set<K>, pending: seq<K>)
    requires forall x :: x in pending <==> x in roots
    ensures Working(edges, roots, {}, pending)
  {
    ReachIsLeast(edges, roots);
    forall k | 0 <= k < |pending| ensures pending[k] in Reach(edges, roots) {
      assert pending[k] in pending;
    }
  }

  /** Taking an element that was seen before. */
  lemma WorkSkips<K(!new)>(edges: map<K, seq<K>>, roots: set<K>, seen: set<K>, pending: seq<K>, x: K, rest: seq<K>)
    requires Working(edges, roots, seen, pending) && x in seen
    requires forall y :: y in pending ==> y == x || y in rest
    requires forall y :: y in rest ==> y in pending
    ensures Working(edges, roots, seen, rest)
  {
    forall k | 0 <= k < |rest| ensures rest[k] in Reach(edges, roots) {
      assert rest[k] in rest;
      var j :| 0 <= j < |pending| && pending[j] == rest[k];
    }
  }

  /** Taking a new element and queueing its successors. */
  lemma WorkGrows<K(!new)>(edges: map<K, seq<K>>, roots: set<K>, seen: set<K>, pending: seq<K>, x: K, rest: seq<K>, next: seq<K>)
    requires Working(edges, roots, seen, pending) && x in pending
    requires forall y :: y in pending ==> y == x || y in rest
    requires forall y :: y in rest ==> y in pending
    requires forall y :: y in next <==> y in rest || y in Successors(edges, x)
    ensures Working(edges, roots, seen + {x}, next) && x in Reach(edges, roots)
  {
    ReachIsLeast(edges, roots);
    var i :| 0 <= i < |pending| && pending[i] == x;
    forall k | 0 <= k < |next| ensures next[k] in Reach(edges, roots) {
      var y := next[k];
      assert y in next;
      if y in rest {
        var j :| 0 <= j < |pending| && pending[j] == y;
      } else {
        var j :| 0 <= j < |Successors(edges, x)| && Successors(edges, x)[j] == y;
      }
    }
    forall z, k | z in seen + {x} && 0 <= k < |Successors(edges, z)|
      ensures Successors(edges, z)[k] in seen + {x} || Successors(edges, z)[k] in next
    {
      var y := Successors(edges, z)[k];
      if z == x {
        assert y in Successors(edges, x);
      } else {
        assert y in seen || y in pending;
      }
    }
  }

  lemma WorkDone<K(!new)>(edges: map<K, seq<K>>, roots: set<K>, seen: set<K>)
    requires Working(edges, roots, seen, [])
    ensures seen == Reach(edges, roots)
  {
    ReachIsLeast(edges, roots);
    assert roots <= seen;
    assert ClosedUnder(edges, seen);
  }

  /** Reach depends on the edges of what is reached only. */
  lemma ReachAgrees<K(!new)>(edges: map<K, seq<K>>, edges': map<K, seq<K>>, roots: set<K>)
    requires forall x, y :: x in Reach(edges, roots) ==> (y in Successors(edges', x) <==> y in Successors(edges, x))
    ensures Reach(edges', roots) == Reach(edges, roots)
  {
    var r, r' := Reach(edges, roots), Reach(edges', roots);
    ReachIsLeast(edges, roots);
    ReachIsLeast(edges', roots);
    forall x, k | x in r && 0 <= k < |Successors(edges', x)| ensures Successors(edges', x)[k] in r {
      var y := Successors(edges', x)[k];
      assert y in Successors(edges', x);
      var j :| 0 <= j < |Successors(edges, x)| && Successors(edges, x)[j] == y;
    }
    assert r' <= r;
    forall x, k | x in r' && 0 <= k < |Successors(edges, x)| ensures Successors(edges, x)[k] in r' {
      var y := Successors(edges, x)[k];
      assert x in r && y in Successors(edges, x);
      var j :| 0 <= j < |Successors(edges', x)| && Successors(edges', x)[j] == y;
    }
    assert r <= r';
  }

  ghost predicate Path<K>(edges: map<K, seq<K>>, roots: set<K>, path: seq<K>) {
    && path != [] && path[0] in roots
    && forall k :: 0 <= k < |path| - 1 ==> path[k + 1] in Successors(edges, path[k])
  }

  lemma {:induction false} PathsStayInside<K(!new)>(edges: map<K, seq<K>>, roots: set<K>, path: seq<K>, s: set<K>)
    requires Path(edges, roots, path) && roots <= s && ClosedUnder(edges, s)
    ensures path[|path| - 1] in s
    decreases |path|
  {
    if |path| > 1 {
      var shorter := path[..|path| - 1];
      assert forall k :: 0 <= k < |shorter| ==> shorter[k] == path[k];
      PathsStayInside(edges, roots, shorter, s);
      assert path[|path| - 2 + 1] in Successors(edges, path[|path| - 2]);
    }
  }

  ghost predicate EndsAPath<K(!new)>(edges: map<K, seq<K>>, roots: set<K>, x: K) {
    exists path :: Path(edges, roots, path) && path[|path| - 1] == x
  }

  lemma RootEndsAPath<K(!new)>(edges: map<K, seq<K>>, roots: set<K>, x: K)
    requires x in roots
    ensures EndsAPath(edges, roots, x)
  {
    assert Path(edges, roots, [x]) && [x][|[x]| - 1] == x;
  }

  lemma SuccessorEndsAPath<K(!new)>(edges: map<K, seq<K>>, roots: set<K>, x: K, y: K)
    requires EndsAPath(edges, roots, x) && y in Successors(edges, x)
    ensures EndsAPath(edges, roots, y)
  {
    var path :| Path(edges, roots, path) && path[|path| - 1] == x;
    var longer := path + [y];
    assert Path(edges, roots, longer) && longer[|longer| - 1] == y;
  }

  /** Reachable means: at the end of a path from a root. */
  lemma ReachIsByPaths<K(!new)>(edges: map<K, seq<K>>, roots: set<K>, x: K)
    ensures x in Reach(edges, roots) <==> EndsAPath(edges, roots, x)
  {
    hide Reach;
    ReachIsLeast(edges, roots);
    var r := Reach(edges, roots);
    if EndsAPath(edges, roots, x) {
      var path :| Path(edges, roots, path) && path[|path| - 1] == x;
      PathsStayInside(edges, roots, path, r);
    }
    hide EndsAPath, Path;
    var found := set y | y in r && EndsAPath(edges, roots, y);
    forall y | y in roots ensures y in found {
      RootEndsAPath(edges, roots, y);
    }
    forall y, k | y in found && 0 <= k < |Successors(edges, y)| ensures Successors(edges, y)[k] in found {
      SuccessorEndsAPath(edges, roots, y, Successors(edges, y)[k]);
    }
    assert r <= found;
  }

  /** The elements of a set, queued in the order in which it happens to yield them. */
  method QueueSet<K(==)>(s: set<K>) returns (pending: seq<K>)
    ensures forall x :: x in pending <==> x in s
  {
    pending := [];
    var left := s;
    while left != {}
      invariant left <= s
      invariant forall x :: x in pending <==> x in s - left
    {
      var x :| x in left;
      pending := pending + [x];
      left := left - {x};
    }
  }
}
