/**
 The lock order graph recorded by the runtime lock audit, and the depth bounded
 search the audit runs over it before every blocking acquisition.

 `Reaches` is the search of the source. `Connected` is the unbounded notion it
 stands for. The two agree as long as no more than 34 locks are in play.
 */
module LockGraph {

  // A lock is identified by the address of its mutex.
  type LockId = nat

  datatype Edge = Edge(from: LockId, to: LockId)

  // The search gives up below this depth.
  const MAX_DEPTH := 32

  // A search started at depth 0 sees paths of up to 33 edges, hence 34 locks.
  const MAX_LOCKS := MAX_DEPTH + 2

  /** Depth first search for `target` from `from`, as in the source. */
  predicate Reaches(edges: seq<Edge>, from: LockId, target: LockId, depth: nat)
    decreases MAX_DEPTH + 1 - depth
  {
    depth <= MAX_DEPTH &&
    exists e :: e in edges && e.from == from &&
                (e.to == target || Reaches(edges, e.to, target, depth + 1))
  }

  /** Consecutive locks of `p` are joined by recorded edges. */
  ghost predicate IsPath(edges: seq<Edge>, p: seq<LockId>) {
    |p| > 0 && forall i, j :: 0 <= i && j == i + 1 && j < |p| ==> Edge(p[i], p[j]) in edges
  }

  ghost predicate PathBetween(edges: seq<Edge>, p: seq<LockId>, a: LockId, b: LockId) {
    IsPath(edges, p) && p[0] == a && p[|p| - 1] == b
  }

  /** Reflexive and transitive closure of the recorded order. */
  ghost predicate Connected(edges: seq<Edge>, a: LockId, b: LockId) {
    exists p :: PathBetween(edges, p, a, b)
  }

  ghost predicate Acyclic(edges: seq<Edge>) {
    forall e :: e in edges ==> !Connected(edges, e.to, e.from)
  }

  // ---------------------------------------------------------------- paths

  lemma PathConcat(edges: seq<Edge>, p: seq<LockId>, q: seq<LockId>)
    requires IsPath(edges, p) && IsPath(edges, q)
    requires Edge(p[|p| - 1], q[0]) in edges
    ensures IsPath(edges, p + q)
  {
    var r := p + q;
    forall i, j | 0 <= i && j == i + 1 && j < |r|
      ensures Edge(r[i], r[j]) in edges
    {
      if i < |p| - 1 {
        assert r[i] == p[i] && r[i + 1] == p[i + 1];
      } else if i >= |p| {
        assert r[i] == q[i - |p|] && r[i + 1] == q[i - |p| + 1];
      }
    }
  }

  lemma PathSlice(edges: seq<Edge>, p: seq<LockId>, lo: nat, hi: nat)
    requires IsPath(edges, p) && lo < hi <= |p|
    ensures IsPath(edges, p[lo..hi])
  {
    var r := p[lo..hi];
    forall i, j | 0 <= i && j == i + 1 && j < |r|
      ensures Edge(r[i], r[j]) in edges
    {
      assert r[i] == p[lo + i] && r[i + 1] == p[lo + i + 1];
    }
  }

  lemma ConnectedRefl(edges: seq<Edge>, a: LockId)
    ensures Connected(edges, a, a)
  {
    assert PathBetween(edges, [a], a, a);
  }

  lemma ConnectedEdge(edges: seq<Edge>, a: LockId, b: LockId, c: LockId, d: LockId)
    requires Connected(edges, a, b) && Edge(b, c) in edges && Connected(edges, c, d)
    ensures Connected(edges, a, d)
  {
    var p :| PathBetween(edges, p, a, b);
    var q :| PathBetween(edges, q, c, d);
    PathConcat(edges, p, q);
    assert PathBetween(edges, p + q, a, d);
  }

  // ------------------------------------------------- search versus closure

  /** Whatever the search finds is a real path, no longer than the depth left. */
  lemma {:induction false} ReachesSound(edges: seq<Edge>, from: LockId, target: LockId, depth: nat)
    returns (p: seq<LockId>)
    requires Reaches(edges, from, target, depth)
    ensures PathBetween(edges, p, from, target)
    ensures 2 <= |p| <= MAX_LOCKS - depth
    decreases MAX_DEPTH + 1 - depth
  {
    var e :| e in edges && e.from == from && (e.to == target || Reaches(edges, e.to, target, depth + 1));
    if e.to == target {
      p := [from, target];
      assert e == Edge(from, target);
    } else {
      var q := ReachesSound(edges, e.to, target, depth + 1);
      assert Edge([from][0], q[0]) == e;
      PathConcat(edges, [from], q);
      p := [from] + q;
    }
  }

  /** The search finds the end of every path that fits in the depth left. */
  lemma {:induction false} ReachesComplete(edges: seq<Edge>, p: seq<LockId>, depth: nat)
    requires IsPath(edges, p) && 2 <= |p| <= MAX_LOCKS - depth
    ensures Reaches(edges, p[0], p[|p| - 1], depth)
    decreases |p|
  {
    var e := Edge(p[0], p[1]);
    assert p[0 + 1] == p[1];
    assert e in edges;
    if |p| > 2 {
      PathSlice(edges, p, 1, |p|);
      var q := p[1..];
      assert q == p[1..|p|];
      ReachesComplete(edges, q, depth + 1);
      assert q[0] == e.to && q[|q| - 1] == p[|p| - 1];
    }
  }

  ghost predicate Distinct<T>(s: seq<T>) {
    forall i, j :: 0 <= i < j < |s| ==> s[i] != s[j]
  }

  /** A sequence without repetitions is no longer than the set it is drawn from. */
  lemma {:induction false} DistinctBound<T>(s: seq<T>, u: set<T>)
    requires Distinct(s) && forall x :: x in s ==> x in u
    ensures |s| <= |u|
  {
    if s != [] {
      var rest := s[1..];
      forall x | x in rest
        ensures x in u - {s[0]}
      {
        var k :| 0 <= k < |rest| && rest[k] == x;
        assert s[k + 1] == x;
      }
      DistinctBound(rest, u - {s[0]});
    }
  }

  /** Between two different locks a path can be cut down to a simple one. */
  lemma {:induction false} SimplePath(edges: seq<Edge>, p: seq<LockId>) returns (q: seq<LockId>)
    requires IsPath(edges, p) && p[0] != p[|p| - 1]
    ensures PathBetween(edges, q, p[0], p[|p| - 1])
    ensures Distinct(q) && forall x :: x in q ==> x in p
    decreases |p|
  {
    if Distinct(p) {
      q := p;
    } else {
      var i, j :| 0 <= i < j < |p| && p[i] == p[j];
      var cut := p[..i + 1] + p[j + 1..];
      PathSlice(edges, p, 0, i + 1);
      assert p[0..i + 1] == p[..i + 1];
      if j + 1 < |p| {
        PathSlice(edges, p, j + 1, |p|);
        assert p[j + 1..|p|] == p[j + 1..];
        assert Edge(p[j], p[j + 1]) in edges;
        PathConcat(edges, p[..i + 1], p[j + 1..]);
      } else {
        assert cut == p[..i + 1];
      }
      assert cut[0] == p[0] && cut[|cut| - 1] == p[|p| - 1];
      q := SimplePath(edges, cut);
      forall x | x in q
        ensures x in p
      {
        assert x in cut;
      }
    }
  }

  ghost predicate EdgesWithin(edges: seq<Edge>, locks: set<LockId>) {
    forall e :: e in edges ==> e.from in locks && e.to in locks
  }

  lemma PathWithin(edges: seq<Edge>, p: seq<LockId>, locks: set<LockId>)
    requires IsPath(edges, p) && EdgesWithin(edges, locks) && p[0] in locks
    ensures forall x :: x in p ==> x in locks
  {
    forall k | 0 <= k < |p|
      ensures p[k] in locks
    {
      if k > 0 {
        assert Edge(p[k - 1], p[k - 1 + 1]) in edges;
      }
    }
  }

  /**
   The search is exact up to 34 locks: started at depth 0 between two different
   locks it succeeds if and only if the recorded order connects them.
   */
  lemma ReachesExact(edges: seq<Edge>, locks: set<LockId>, a: LockId, b: LockId)
    requires EdgesWithin(edges, locks) && |locks| <= MAX_LOCKS
    requires a in locks && a != b
    ensures Reaches(edges, a, b, 0) <==> Connected(edges, a, b)
  {
    if Reaches(edges, a, b, 0) {
      var p := ReachesSound(edges, a, b, 0);
    }
    if Connected(edges, a, b) {
      var p :| PathBetween(edges, p, a, b);
      var q := SimplePath(edges, p);
      PathWithin(edges, q, locks);
      DistinctBound(q, locks);
      assert |q| >= 2 by {
        if |q| == 1 {
          assert q[0] == a && q[|q| - 1] == b;
        }
      }
      ReachesComplete(edges, q, 0);
    }
  }

  // ------------------------------------------------------- growing the order

  /** A path that uses the new edge splits around it. */
  lemma {:induction false} ConnectedAfterAdd(edges: seq<Edge>, e: Edge, p: seq<LockId>)
    requires IsPath(edges + [e], p)
    ensures
      var a, b := p[0], p[|p| - 1];
      Connected(edges, a, b) || (Connected(edges, a, e.from) && Connected(edges, e.to, b))
    decreases |p|
  {
    var a, b := p[0], p[|p| - 1];
    if |p| == 1 {
      ConnectedRefl(edges, a);
    } else {
      var rest := p[1..];
      PathSlice(edges + [e], p, 1, |p|);
      assert rest == p[1..|p|] && rest[|rest| - 1] == b && rest[0] == p[1];
      ConnectedAfterAdd(edges, e, rest);
      var first := Edge(p[0], p[0 + 1]);
      assert first in edges + [e];
      ConnectedRefl(edges, a);
      if first in edges {
        if Connected(edges, p[1], b) {
          ConnectedEdge(edges, a, a, p[1], b);
        } else {
          ConnectedEdge(edges, a, a, p[1], e.from);
        }
      }
    }
  }

  lemma ConnectedGrows(edges: seq<Edge>, e: Edge, a: LockId, b: LockId)
    requires Connected(edges, a, b)
    ensures Connected(edges + [e], a, b)
  {
    var p :| PathBetween(edges, p, a, b);
    assert PathBetween(edges + [e], p, a, b);
  }

  lemma StaysAcyclic(edges: seq<Edge>, e: Edge)
    requires Acyclic(edges) && !Connected(edges, e.to, e.from)
    ensures Acyclic(edges + [e])
  {
    forall f | f in edges + [e]
      ensures !Connected(edges + [e], f.to, f.from)
    {
      if Connected(edges + [e], f.to, f.from) {
        var p :| PathBetween(edges + [e], p, f.to, f.from);
        ConnectedAfterAdd(edges, e, p);
        if f in edges && !Connected(edges, f.to, f.from) {
          assert f == Edge(f.from, f.to);
          ConnectedEdge(edges, e.to, f.from, f.to, e.from);
        }
        assert false;
      }
    }
  }

  /** Recording `held -> id` leaves an acyclic order exactly if it was one and `id` did not lead to `held`. */
  lemma AcyclicAfterAdd(edges: seq<Edge>, e: Edge)
    ensures Acyclic(edges + [e]) <==> Acyclic(edges) && !Connected(edges, e.to, e.from)
  {
    if Acyclic(edges) && !Connected(edges, e.to, e.from) {
      StaysAcyclic(edges, e);
    } else if Connected(edges, e.to, e.from) {
      ConnectedGrows(edges, e, e.to, e.from);
      assert e in edges + [e];
    } else {
      var f :| f in edges && Connected(edges, f.to, f.from);
      ConnectedGrows(edges, e, f.to, f.from);
      assert f in edges + [e];
    }
  }
}
