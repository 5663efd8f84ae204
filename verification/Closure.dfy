/**
 The recursive `visit` that the deployment planner and the platform builder both
 use to collect a node and everything it depends on.
 */
module Closure {
  import opened Graph

  class Visitor {
    const g: Graph
    var seen: set<string>

    constructor (g: Graph)
      ensures this.g == g && seen == {}
    {
      this.g := g;
      seen := {};
    }

    /** What was added since `before` is closed under dependencies. */
    ghost predicate ClosedSince(before: set<string>, except: set<string>)
      reads this
    {
      forall m, d :: m in seen && m !in before && m !in except && Edge(g, m, d) ==> d in seen
    }

    ghost predicate ReachableSince(before: set<string>, root: string)
      reads this
    {
      forall m :: m in seen && m !in before ==> ReachesOrIs(g, root, m)
    }

    /** Adds `n` and its dependencies; names that are no nodes are passed over. */
    method Visit(n: string)
      requires seen <= g.Keys
      modifies this
      ensures old(seen) <= seen <= g.Keys
      ensures n in g ==> n in seen
      ensures ClosedSince(old(seen), {}) && ReachableSince(old(seen), n)
      decreases g.Keys - seen
    {
      if n in seen || n !in g {
        return;
      }
      seen := seen + {n};
      ReachesOrIsSelf(g, n);
      var deps := g[n];
      for i := 0 to |deps|
        invariant old(seen) + {n} <= seen <= g.Keys
        invariant ClosedSince(old(seen), {n}) && ReachableSince(old(seen), n)
        invariant forall k :: 0 <= k < i && deps[k] in g ==> deps[k] in seen
      {
        ghost var before := seen;
        Visit(deps[i]);
        forall m | m in seen && m !in before
          ensures ReachesOrIs(g, n, m)
        {
          ReachesOrIsPrepend(g, n, deps[i], m);
        }
      }
    }
  }

  /** `a` reaches everything its direct dependency `b` reaches. */
  lemma ReachesOrIsPrepend(g: Graph, a: string, b: string, c: string)
    requires a in g && b in g[a] && ReachesOrIs(g, b, c)
    ensures ReachesOrIs(g, a, c)
  {
    var p :| WalkBetween(g, p, b, c);
    var q := [a] + p;
    assert p[0] in p;
    forall i | 0 < i < |q|
      ensures Edge(g, q[i - 1], q[i])
    {
      if i > 1 {
        assert q[i - 1] == p[i - 2] && q[i] == p[i - 1];
      }
    }
    assert WalkBetween(g, q, a, c);
  }

  /** Visiting every root collects exactly what some root reaches. */
  method Reachable(g: Graph, roots: seq<string>) returns (seen: set<string>)
    ensures forall m :: m in seen <==> exists r :: r in roots && ReachesOrIs(g, r, m)
    ensures ClosedUnder(g, seen)
  {
    var visitor := new Visitor(g);
    for i := 0 to |roots|
      invariant visitor.g == g && visitor.seen <= g.Keys
      invariant forall k :: 0 <= k < i && roots[k] in g ==> roots[k] in visitor.seen
      invariant forall m :: m in visitor.seen ==> exists r :: r in roots && ReachesOrIs(g, r, m)
      invariant ClosedUnder(g, visitor.seen)
    {
      assert roots[i] in roots;
      visitor.Visit(roots[i]);
    }
    seen := visitor.seen;
    forall m, r | r in roots && ReachesOrIs(g, r, m)
      ensures m in seen
    {
      var p :| WalkBetween(g, p, r, m);
      assert p[0] in p;
      ClosedContainsWalk(g, seen, p);
    }
  }

  ghost predicate ClosedUnder(g: Graph, s: set<string>) {
    forall a, b :: a in s && Edge(g, a, b) ==> b in s
  }

  function KeepOnly(s: seq<string>, keep: set<string>): seq<string> {
    if s == [] then []
    else KeepOnly(s[..|s| - 1], keep) + if s[|s| - 1] in keep then [s[|s| - 1]] else []
  }

  lemma {:induction false} KeepOnlyElements(s: seq<string>, keep: set<string>)
    ensures forall x :: x in KeepOnly(s, keep) <==> x in s && x in keep
  {
    if s != [] {
      KeepOnlyElements(s[..|s| - 1], keep);
      assert s == s[..|s| - 1] + [s[|s| - 1]];
    }
  }

  lemma {:induction false} KeepOnlyDistinct(s: seq<string>, keep: set<string>)
    requires Distinct(s)
    ensures Distinct(KeepOnly(s, keep))
  {
    if s != [] {
      var init, last := s[..|s| - 1], s[|s| - 1];
      assert s == init + [last];
      DistinctAppend(init, last);
      KeepOnlyDistinct(init, keep);
      KeepOnlyElements(init, keep);
      DistinctAppend(KeepOnly(init, keep), last);
    }
  }

  lemma {:induction false} KeepOnlyAppend(s: seq<string>, t: seq<string>, keep: set<string>)
    ensures KeepOnly(s + t, keep) == KeepOnly(s, keep) + KeepOnly(t, keep)
  {
    if t == [] {
      assert s + t == s;
    } else {
      assert (s + t)[..|s + t| - 1] == s + t[..|t| - 1];
      KeepOnlyAppend(s, t[..|t| - 1], keep);
    }
  }

  lemma {:induction false} KeepOnlyNone(s: seq<string>, keep: set<string>)
    requires forall x :: x in s ==> x !in keep
    ensures KeepOnly(s, keep) == []
  {
    if s != [] {
      KeepOnlyNone(s[..|s| - 1], keep);
    }
  }

  /** Restricting a dependencies-first order to a closed set keeps it dependencies-first. */
  lemma {:induction false} KeepOnlyDependenciesFirst(g: Graph, order: seq<string>, keep: set<string>)
    requires DependenciesFirst(g, order) && ClosedUnder(g, keep)
    ensures DependenciesFirst(g, KeepOnly(order, keep))
  {
    if order != [] {
      var init, last := order[..|order| - 1], order[|order| - 1];
      forall i, d | 0 <= i < |init| && Edge(g, init[i], d)
        ensures d in init[..i]
      {
        assert Edge(g, order[i], d) && init[..i] == order[..i];
      }
      KeepOnlyDependenciesFirst(g, init, keep);
      KeepOnlyElements(init, keep);
      var kept, r := KeepOnly(init, keep), KeepOnly(order, keep);
      forall i, d | 0 <= i < |r| && Edge(g, r[i], d)
        ensures d in r[..i]
      {
        if i < |kept| {
          assert r[..i] == kept[..i];
        } else {
          assert r[..i] == kept && Edge(g, order[|init|], d);
          assert order[..|init|] == init;
        }
      }
    }
  }
}
