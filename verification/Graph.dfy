/**
 Directed graphs of "depends on" edges, independent of any algorithm: walks,
 reachability, cycles, and orders that put dependencies first. Everything the
 ordering code promises is stated with these notions.
 */
module Graph {

  /** A node maps to the names it depends on; names that are not nodes are dangling. */
  type Graph = map<string, seq<string>>

  ghost predicate Edge(g: Graph, a: string, b: string) {
    a in g && b in g && b in g[a]
  }

  ghost predicate Distinct(s: seq<string>) {
    forall i, j :: 0 <= i < j < |s| ==> s[i] != s[j]
  }

  lemma DistinctAppend(s: seq<string>, x: string)
    ensures Distinct(s + [x]) <==> Distinct(s) && x !in s
  {
    var t := s + [x];
    assert t[|s|] == x;
    assert forall i :: 0 <= i < |s| ==> t[i] == s[i];
  }

  /** A nonempty sequence of nodes, each depending on the next. */
  ghost predicate IsWalk(g: Graph, p: seq<string>) {
    && |p| >= 1
    && (forall n :: n in p ==> n in g)
    && forall i :: 0 < i < |p| ==> Edge(g, p[i - 1], p[i])
  }

  ghost predicate WalkBetween(g: Graph, p: seq<string>, a: string, b: string) {
    IsWalk(g, p) && p[0] == a && p[|p| - 1] == b
  }

  /** `a` depends on `b` through one edge or more. */
  ghost predicate Reaches(g: Graph, a: string, b: string) {
    exists p :: WalkBetween(g, p, a, b) && |p| >= 2
  }

  /** `b` is `a` itself or one of its transitive dependencies. */
  ghost predicate ReachesOrIs(g: Graph, a: string, b: string) {
    exists p :: WalkBetween(g, p, a, b)
  }

  ghost predicate Acyclic(g: Graph) {
    forall n :: n in g ==> !Reaches(g, n, n)
  }

  /** A closed walk that repeats no node except its first at its end. */
  ghost predicate IsCycle(g: Graph, p: seq<string>) {
    IsWalk(g, p) && |p| >= 2 && p[0] == p[|p| - 1] && Distinct(p[..|p| - 1])
  }

  ghost predicate DependenciesFirst(g: Graph, order: seq<string>) {
    forall i, d :: 0 <= i < |order| && Edge(g, order[i], d) ==> d in order[..i]
  }

  /** Every node exactly once, each after everything it depends on. */
  ghost predicate IsTopological(g: Graph, order: seq<string>) {
    && Distinct(order)
    && (forall n :: n in order <==> n in g)
    && DependenciesFirst(g, order)
  }

  // ---- walks -------------------------------------------------------------

  lemma WalkTail(g: Graph, p: seq<string>)
    requires IsWalk(g, p) && |p| >= 2
    ensures IsWalk(g, p[1..])
  {
    var q := p[1..];
    forall i | 0 < i < |q|
      ensures Edge(g, q[i - 1], q[i])
    {
      assert q[i - 1] == p[i] && q[i] == p[i + 1];
    }
  }

  lemma WalkExtends(g: Graph, p: seq<string>, a: string, b: string, c: string)
    requires WalkBetween(g, p, a, b) && Edge(g, b, c)
    ensures WalkBetween(g, p + [c], a, c)
  {
    var q := p + [c];
    forall i | 0 < i < |q|
      ensures Edge(g, q[i - 1], q[i])
    {
      if i < |p| {
        assert q[i - 1] == p[i - 1] && q[i] == p[i];
      }
    }
  }

  /** An edge from a walk's end back to position `j` makes that node reach itself. */
  lemma WalkCloses(g: Graph, p: seq<string>, j: nat)
    requires IsWalk(g, p) && j < |p| && Edge(g, p[|p| - 1], p[j])
    ensures Reaches(g, p[j], p[j])
  {
    var c := p[j..] + [p[j]];
    forall i | 0 < i < |c|
      ensures Edge(g, c[i - 1], c[i])
    {
      if i < |c| - 1 {
        assert c[i - 1] == p[j + i - 1] && c[i] == p[j + i];
      } else {
        assert c[i - 1] == p[|p| - 1];
      }
    }
    assert WalkBetween(g, c, p[j], p[j]);
  }

  lemma ReachesStep(g: Graph, a: string, b: string, c: string)
    requires ReachesOrIs(g, a, b) && Edge(g, b, c)
    ensures Reaches(g, a, c) && ReachesOrIs(g, a, c)
  {
    var p :| WalkBetween(g, p, a, b);
    WalkExtends(g, p, a, b, c);
  }

  lemma ReachesOrIsSelf(g: Graph, a: string)
    requires a in g
    ensures ReachesOrIs(g, a, a)
  {
    assert WalkBetween(g, [a], a, a);
  }

  /** A set of nodes closed under dependencies contains everything reachable from a member. */
  lemma {:induction false} ClosedContainsWalk(g: Graph, s: set<string>, p: seq<string>)
    requires IsWalk(g, p) && p[0] in s
    requires forall a, b :: a in s && Edge(g, a, b) ==> b in s
    ensures p[|p| - 1] in s
    decreases |p|
  {
    if |p| > 1 {
      assert Edge(g, p[0], p[1]);
      WalkTail(g, p);
      ClosedContainsWalk(g, s, p[1..]);
    }
  }

  /** In a dependencies-first list a walk from position `i` ends strictly before it. */
  lemma {:induction false} WalkDescends(g: Graph, order: seq<string>, i: nat, p: seq<string>)
    requires DependenciesFirst(g, order) && i < |order|
    requires IsWalk(g, p) && |p| >= 2 && p[0] == order[i]
    ensures p[|p| - 1] in order[..i]
    decreases |p|
  {
    assert Edge(g, p[0], p[1]);
    assert p[1] in order[..i];
    if |p| > 2 {
      var j :| 0 <= j < i && order[j] == p[1];
      WalkTail(g, p);
      WalkDescends(g, order, j, p[1..]);
      assert order[..j] <= order[..i];
    }
  }

  lemma ListedNotOnCycle(g: Graph, order: seq<string>, n: string)
    requires DependenciesFirst(g, order) && Distinct(order) && n in order
    ensures !Reaches(g, n, n)
  {
    if Reaches(g, n, n) {
      var p :| WalkBetween(g, p, n, n) && |p| >= 2;
      var i :| 0 <= i < |order| && order[i] == n;
      WalkDescends(g, order, i, p);
      assert false;
    }
  }

  /** A dependencies-first order of all nodes can only exist when no node reaches itself. */
  lemma TopologicalIsAcyclic(g: Graph, order: seq<string>)
    requires IsTopological(g, order)
    ensures Acyclic(g)
  {
    forall n | n in g
      ensures !Reaches(g, n, n)
    {
      ListedNotOnCycle(g, order, n);
    }
  }

  lemma CycleIsReal(g: Graph, p: seq<string>)
    requires IsCycle(g, p)
    ensures Reaches(g, p[0], p[0]) && !Acyclic(g)
  {
    assert WalkBetween(g, p, p[0], p[0]);
    assert p[0] in p;
  }

  // ---- depth-first search ------------------------------------------------
  // The search state common to both depth-first searches of the program:
  // `open` is the chain of nodes being explored, `done` the finished nodes in
  // finishing order.

  ghost predicate SearchState(g: Graph, open: seq<string>, done: seq<string>) {
    && Distinct(open) && Distinct(done)
    && (forall n :: n in open ==> n in g && n !in done)
    && (forall n :: n in done ==> n in g)
    && (forall i :: 0 < i < |open| ==> Edge(g, open[i - 1], open[i]))
    && DependenciesFirst(g, done)
  }

  lemma OpenNode(g: Graph, open: seq<string>, done: seq<string>, n: string)
    requires SearchState(g, open, done) && n in g && n !in open && n !in done
    requires open != [] ==> Edge(g, open[|open| - 1], n)
    ensures SearchState(g, open + [n], done)
  {
    var o := open + [n];
    forall i | 0 < i < |o|
      ensures Edge(g, o[i - 1], o[i])
    {
      if i < |open| {
        assert o[i - 1] == open[i - 1] && o[i] == open[i];
      }
    }
  }

  /** A node whose dependencies are all finished can be finished. */
  lemma FinishNode(g: Graph, open: seq<string>, done: seq<string>, n: string)
    requires SearchState(g, open + [n], done)
    requires forall d :: Edge(g, n, d) ==> d in done
    ensures SearchState(g, open, done + [n])
  {
    var o, f := open + [n], done + [n];
    assert o[|open|] == n;
    forall i | 0 < i < |open|
      ensures Edge(g, open[i - 1], open[i])
    {
      assert o[i - 1] == open[i - 1] && o[i] == open[i];
    }
    forall m | m in open
      ensures m in g && m !in f
    {
      var k :| 0 <= k < |open| && open[k] == m;
      assert o[k] == m && m in o;
    }
    assert n in o;
    assert Distinct(f) by {
      forall i, j | 0 <= i < j < |f|
        ensures f[i] != f[j]
      {
        assert f[i] in done;
      }
    }
    assert Distinct(open) by {
      forall i, j | 0 <= i < j < |open|
        ensures open[i] != open[j]
      {
        assert o[i] == open[i] && o[j] == open[j];
      }
    }
    forall i, d | 0 <= i < |f| && Edge(g, f[i], d)
      ensures d in f[..i]
    {
      if i < |done| {
        assert f[i] == done[i] && f[..i] == done[..i];
      } else {
        assert f[..i] == done;
      }
    }
  }

  /** Meeting an open node again closes a cycle: the chain from it, and it once more. */
  lemma CloseCycle(g: Graph, open: seq<string>, done: seq<string>, start: nat)
    requires SearchState(g, open, done) && start < |open|
    requires Edge(g, open[|open| - 1], open[start])
    ensures IsCycle(g, open[start..] + [open[start]])
  {
    var c := open[start..] + [open[start]];
    forall i | 0 < i < |c|
      ensures Edge(g, c[i - 1], c[i])
    {
      if i < |c| - 1 {
        assert c[i - 1] == open[start + i - 1] && c[i] == open[start + i];
      } else {
        assert c[i - 1] == open[|open| - 1];
      }
    }
    assert c[..|c| - 1] == open[start..];
  }

  /** A search that finishes every node has found a dependencies-first order. */
  lemma FinishedIsTopological(g: Graph, done: seq<string>)
    requires SearchState(g, [], done)
    requires forall n :: n in g ==> n in done
    ensures IsTopological(g, done) && Acyclic(g)
  {
    TopologicalIsAcyclic(g, done);
  }

  // ---- graphs with the same edges ------------------------------------------

  ghost predicate SameEdges(g: Graph, h: Graph) {
    g.Keys == h.Keys && forall a, b :: Edge(g, a, b) <==> Edge(h, a, b)
  }

  lemma SameEdgesSameWalks(g: Graph, h: Graph)
    requires SameEdges(g, h)
    ensures forall p :: IsWalk(g, p) <==> IsWalk(h, p)
    ensures Acyclic(g) <==> Acyclic(h)
  {
    forall p
      ensures IsWalk(g, p) <==> IsWalk(h, p)
    {
    }
    forall a, b
      ensures Reaches(g, a, b) <==> Reaches(h, a, b)
    {
      forall p
        ensures WalkBetween(g, p, a, b) <==> WalkBetween(h, p, a, b)
      {
      }
    }
  }
}
