/**
 The blocked_by relation between tasks as a graph: an existing task points at the ids it names.
 An id that names no existing task has no successors.
 */
module DependencyGraph {
  import opened Common

  type Graph = map<int, seq<int>>

  function Blockers(g: Graph, t: int): seq<int> {
    if t in g then g[t] else []
  }

  ghost predicate Hop(g: Graph, p: seq<int>, i: int)
    requires 0 <= i < |p| - 1
  {
    p[i + 1] in Blockers(g, p[i])
  }

  ghost predicate IsPath(g: Graph, p: seq<int>) {
    |p| > 0 && forall i :: 0 <= i < |p| - 1 ==> Hop(g, p, i)
  }

  ghost predicate Connects(g: Graph, p: seq<int>, a: int, b: int) {
    IsPath(g, p) && p[0] == a && p[|p| - 1] == b
  }

  /** Zero or more blocked_by edges lead from a to b. */
  ghost predicate Reaches(g: Graph, a: int, b: int) {
    exists p :: Connects(g, p, a, b)
  }

  /** No path of one or more edges returns to its start. */
  ghost predicate Acyclic(g: Graph) {
    forall p :: IsPath(g, p) && |p| > 1 ==> p[0] != p[|p| - 1]
  }

  ghost predicate Closed(g: Graph, s: set<int>) {
    forall v, b :: v in s && b in Blockers(g, v) ==> b in s
  }

  // ----- paths

  lemma SlicePath(g: Graph, p: seq<int>, i: int, j: int)
    requires IsPath(g, p) && 0 <= i < j <= |p|
    ensures IsPath(g, p[i..j])
  {
    forall k | 0 <= k < j - i - 1
      ensures Hop(g, p[i..j], k)
    {
      assert Hop(g, p, i + k);
    }
  }

  lemma JoinPaths(g: Graph, p: seq<int>, q: seq<int>)
    requires IsPath(g, p) && IsPath(g, q) && p[|p| - 1] == q[0]
    ensures Connects(g, p + q[1..], p[0], q[|q| - 1])
  {
    var r := p + q[1..];
    forall k | 0 <= k < |r| - 1
      ensures Hop(g, r, k)
    {
      if k < |p| - 1 {
        assert Hop(g, p, k);
      } else {
        assert Hop(g, q, k - |p| + 1);
      }
    }
  }

  /** A path survives in a graph that keeps the successors of every node it leaves. */
  lemma TransferPath(g: Graph, h: Graph, p: seq<int>)
    requires IsPath(g, p)
    requires forall i, b :: 0 <= i < |p| - 1 && b in Blockers(g, p[i]) ==> b in Blockers(h, p[i])
    ensures IsPath(h, p)
  {
    forall i | 0 <= i < |p| - 1
      ensures Hop(h, p, i)
    {
      var v, b := p[i], p[i + 1];
      assert Hop(g, p, i) && b in Blockers(g, v);
    }
  }

  lemma ReachesSelf(g: Graph, a: int)
    ensures Reaches(g, a, a)
  {
    assert Connects(g, [a], a, a);
  }

  lemma ReachesVia(g: Graph, a: int, b: int, c: int)
    requires b in Blockers(g, a) && Reaches(g, b, c)
    ensures Reaches(g, a, c)
  {
    var q :| Connects(g, q, b, c);
    var p := [a, b];
    assert Hop(g, p, 0);
    JoinPaths(g, p, q);
  }

  /** A path that never leaves a closed set cannot end outside it. */
  lemma {:induction false} ClosedTraps(g: Graph, s: set<int>, p: seq<int>, n: nat)
    requires Closed(g, s) && IsPath(g, p) && p[0] in s && n < |p|
    ensures p[n] in s
  {
    if n > 0 {
      ClosedTraps(g, s, p, n - 1);
      assert Hop(g, p, n - 1);
      var v, b := p[n - 1], p[n];
      assert b in Blockers(g, v);
    }
  }

  lemma ClosedExcludes(g: Graph, s: set<int>, a: int, t: int)
    requires Closed(g, s) && a in s && t !in s
    ensures !Reaches(g, a, t)
  {
    if Reaches(g, a, t) {
      var p :| Connects(g, p, a, t);
      ClosedTraps(g, s, p, |p| - 1);
      assert false;
    }
  }

  function FirstIndex(p: seq<int>, t: int): (n: nat)
    requires t in p
    ensures n < |p| && p[n] == t && t !in p[..n]
  {
    if p[0] == t then 0 else
      assert t in p[1..];
      var n := FirstIndex(p[1..], t) + 1;
      assert p[..n] == [p[0]] + p[1..][..n - 1];
      n
  }

  /** Cut a path at its first visit to t: every node it leaves on the way differs from t. */
  lemma CutAtFirst(g: Graph, p: seq<int>, t: int) returns (q: seq<int>)
    requires IsPath(g, p) && t in p
    ensures Connects(g, q, p[0], t) && t !in q[..|q| - 1]
  {
    var n := FirstIndex(p, t);
    q := p[..n + 1];
    SlicePath(g, p, 0, n + 1);
    assert q[..n] == p[..n];
  }

  // ----- rewiring one task

  /** Replacing the list of one task changes no path that leaves that task nowhere. */
  lemma PathAvoiding(g: Graph, h: Graph, t: int, q: seq<int>)
    requires g - {t} == h - {t}
    requires IsPath(g, q) && t !in q[..|q| - 1]
    ensures IsPath(h, q)
  {
    forall i, b | 0 <= i < |q| - 1 && b in Blockers(g, q[i])
      ensures b in Blockers(h, q[i])
    {
      var v := q[i];
      assert v == q[..|q| - 1][i] && v != t;
      assert v in g && v in g - {t};
      assert (g - {t})[v] == g[v] && (h - {t})[v] == h[v];
    }
    TransferPath(g, h, q);
  }

  lemma ReachesAvoiding(g: Graph, h: Graph, b: int, t: int)
    requires g - {t} == h - {t}
    requires Reaches(g, b, t)
    ensures Reaches(h, b, t)
  {
    var p :| Connects(g, p, b, t);
    var q := CutAtFirst(g, p, t);
    PathAvoiding(g, h, t, q);
    assert Connects(h, q, b, t);
  }

  /** A cycle through t starts, after rotation, with one of t's blockers, and that one reaches t. */
  lemma CycleThrough(g: Graph, p: seq<int>, k: nat) returns (b: int)
    requires IsPath(g, p) && |p| > 1 && p[0] == p[|p| - 1] && k < |p| - 1
    ensures b in Blockers(g, p[k]) && Reaches(g, b, p[k])
  {
    b := p[k + 1];
    assert Hop(g, p, k);
    SlicePath(g, p, k + 1, |p|);
    SlicePath(g, p, 0, k + 1);
    assert p[k + 1..|p|] == p[k + 1..] && p[0..k + 1] == p[..k + 1];
    JoinPaths(g, p[k + 1..], p[..k + 1]);
  }

  /** The graph stays acyclic under a rewiring of t exactly when no new blocker reaches t beforehand. */
  lemma RewireExact(g: Graph, t: int, bs: seq<int>)
    requires Acyclic(g)
    ensures Acyclic(g[t := bs]) <==> forall b :: b in bs ==> !Reaches(g, b, t)
  {
    var h := g[t := bs];
    assert g - {t} == h - {t};
    if b :| b in bs && Reaches(g, b, t) {
      ReachesAvoiding(g, h, b, t);
      var q :| Connects(h, q, b, t);
      var e := [t, b];
      assert Hop(h, e, 0);
      JoinPaths(h, e, q);
      var loop := e + q[1..];
      assert IsPath(h, loop) && |loop| > 1 && loop[0] == loop[|loop| - 1];
    }
    if !Acyclic(h) {
      var p :| IsPath(h, p) && |p| > 1 && p[0] == p[|p| - 1];
      if k :| 0 <= k < |p| - 1 && p[k] == t {
        var b := CycleThrough(h, p, k);
        ReachesAvoiding(h, g, b, t);
      } else {
        assert t !in p[..|p| - 1];
        PathAvoiding(h, g, t, p);
        assert false;
      }
    }
  }

  lemma SubgraphAcyclic(g: Graph, h: Graph)
    requires Acyclic(g)
    requires forall t :: t in h ==> t in g && g[t] == h[t]
    ensures Acyclic(h)
  {
    forall p | IsPath(h, p) && |p| > 1
      ensures p[0] != p[|p| - 1]
    {
      TransferPath(h, g, p);
    }
  }

  // ----- topological order

  ghost predicate Unblocked(g: Graph, t: int) {
    t in g && forall b :: b in g[t] ==> b !in g
  }

  /** Where every task has an existing blocker, blocked_by can be followed for any number of steps. */
  lemma {:induction false} EndlessWalk(g: Graph, t: int, n: nat) returns (p: seq<int>)
    requires t in g && forall v :: v in g ==> !Unblocked(g, v)
    ensures IsPath(g, p) && |p| == n + 1 && p[0] == t && forall v :: v in p ==> v in g
    decreases n
  {
    if n == 0 {
      p := [t];
    } else {
      assert !Unblocked(g, t);
      var b :| b in g[t] && b in g;
      var q := EndlessWalk(g, b, n - 1);
      assert Hop(g, [t, b], 0);
      JoinPaths(g, [t, b], q);
      p := [t, b] + q[1..];
    }
  }

  /** A non-empty acyclic graph has a task blocked by no existing task. */
  lemma SomeTaskIsUnblocked(g: Graph)
    requires Acyclic(g) && g != map[]
    ensures exists t :: Unblocked(g, t)
  {
    if forall t :: t in g ==> !Unblocked(g, t) {
      var t := SomeKey(g);
      var p := EndlessWalk(g, t, |g.Keys|);
      assert forall x :: x in p ==> x in g.Keys;
      Pigeonhole(p, g.Keys);
      var i, j :| 0 <= i < j < |p| && p[i] == p[j];
      SlicePath(g, p, i, j + 1);
      assert false;
    }
  }

  /** Every existing task once, each after the existing tasks that block it. */
  ghost predicate TopologicalOrder(g: Graph, order: seq<int>) {
    && Distinct(order)
    && (forall t :: t in order <==> t in g)
    && forall i, b :: 0 <= i < |order| && b in Blockers(g, order[i]) && b in g ==> b in order[..i]
  }

  lemma {:induction false} OrderExists(g: Graph)
    requires Acyclic(g)
    ensures exists order :: TopologicalOrder(g, order)
    decreases |g.Keys|
  {
    if g == map[] {
      assert TopologicalOrder(g, []);
    } else {
      SomeTaskIsUnblocked(g);
      var t :| Unblocked(g, t);
      var h := g - {t};
      assert h.Keys == g.Keys - {t};
      SubgraphAcyclic(g, h);
      OrderExists(h);
      var rest :| TopologicalOrder(h, rest);
      PrependUnblocked(g, t, rest);
    }
  }

  lemma PrependUnblocked(g: Graph, t: int, rest: seq<int>)
    requires Unblocked(g, t) && TopologicalOrder(g - {t}, rest)
    ensures TopologicalOrder(g, [t] + rest)
  {
    var h, order := g - {t}, [t] + rest;
    assert t !in rest;
    forall i, b | 0 <= i < |order| && b in Blockers(g, order[i]) && b in g
      ensures b in order[..i]
    {
      if i > 0 {
        assert order[i] == rest[i - 1] && rest[i - 1] in h;
        assert b in Blockers(h, rest[i - 1]);
        assert order[..i] == [t] + rest[..i - 1];
        if b != t {
          assert b in h;
        }
      }
    }
  }

  /** Along a path the position in a topological order strictly falls. */
  lemma {:induction false} PositionsFall(g: Graph, order: seq<int>, p: seq<int>) returns (i: int, j: int)
    requires TopologicalOrder(g, order) && IsPath(g, p) && |p| > 1 && p[|p| - 1] in g
    ensures 0 <= j < i < |order| && order[i] == p[0] && order[j] == p[|p| - 1]
    decreases |p|
  {
    assert Hop(g, p, 0);
    assert p[0] in order;
    i :| 0 <= i < |order| && order[i] == p[0];
    if |p| == 2 {
      var b := p[1];
      assert b in Blockers(g, order[i]) && b in order[..i];
      j :| 0 <= j < i && order[..i][j] == p[1];
    } else {
      SlicePath(g, p, 1, |p|);
      assert p[1..|p|] == p[1..];
      assert Hop(g, p, 1);
      var k;
      k, j := PositionsFall(g, order, p[1..]);
      assert p[1] in Blockers(g, order[i]);
      var m :| 0 <= m < i && order[..i][m] == p[1];
      assert order[m] == order[k];
      assert m == k;
    }
  }

  lemma OrderImpliesAcyclic(g: Graph, order: seq<int>)
    requires TopologicalOrder(g, order)
    ensures Acyclic(g)
  {
    forall p | IsPath(g, p) && |p| > 1
      ensures p[0] != p[|p| - 1]
    {
      if p[0] == p[|p| - 1] {
        assert Hop(g, p, 0);
        var i, j := PositionsFall(g, order, p);
        assert false;
      }
    }
  }

  /** Acyclicity is exactly the existence of an order in which the tasks can be worked off. */
  lemma AcyclicIffOrdered(g: Graph)
    ensures Acyclic(g) <==> exists order :: TopologicalOrder(g, order)
  {
    if Acyclic(g) {
      OrderExists(g);
    }
    if order :| TopologicalOrder(g, order) {
      OrderImpliesAcyclic(g, order);
    }
  }
}
