/** The reasoning behind Kahn's loop, on graphs and indices only. */
module KahnTheory {
  import opened Graph

  ghost predicate InjectiveOn(index: map<string, int>, s: set<string>) {
    && s <= index.Keys
    && forall a, b :: a in s && b in s && index[a] == index[b] ==> a == b
  }

  ghost predicate SortedByIndex(index: map<string, int>, s: seq<string>) {
    && (forall n :: n in s ==> n in index)
    && forall i, j :: 0 <= i < j < |s| ==> index[s[i]] < index[s[j]]
  }

  /** The dependencies of `n` that are nodes and not yet emitted. */
  ghost function Pending(g: Graph, emitted: seq<string>, n: string): set<string>
    requires n in g
  {
    set d | d in g[n] && d in g && d !in emitted
  }

  ghost predicate Available(g: Graph, emitted: seq<string>, n: string) {
    n in g && n !in emitted && Pending(g, emitted, n) == {}
  }

  /** Indegrees count distinct dependencies; adjacency lists are the edges turned round. */
  ghost predicate Counted(g: Graph, indeg: map<string, int>, adj: map<string, seq<string>>) {
    && indeg.Keys == adj.Keys == g.Keys
    && (forall n :: n in g ==> indeg[n] == |Pending(g, [], n)|)
    && (forall n :: n in g ==> Distinct(adj[n]))
    && forall m, n :: n in g ==> (m in adj[n] <==> Edge(g, m, n))
  }

  /** Each element is the available node of least index, and nothing is available at the end. */
  ghost predicate Greedy(g: Graph, index: map<string, int>, order: seq<string>) {
    && g.Keys <= index.Keys
    && GreedyPrefix(g, index, order)
    && forall n :: !Available(g, order, n)
  }

  ghost predicate GreedyPrefix(g: Graph, index: map<string, int>, order: seq<string>)
    requires g.Keys <= index.Keys
  {
    forall k :: 0 <= k < |order| ==> LeastAvailable(g, index, order[..k], order[k])
  }

  ghost predicate LeastAvailable(g: Graph, index: map<string, int>, emitted: seq<string>, n: string)
    requires g.Keys <= index.Keys
  {
    Available(g, emitted, n) && forall m :: Available(g, emitted, m) ==> index[n] <= index[m]
  }

  ghost function Positive(indeg: map<string, int>): set<string> {
    set n | n in indeg && indeg[n] > 0
  }

  lemma PositiveDecrement(indeg: map<string, int>, n: string)
    requires n in indeg
    ensures var next := indeg[n := indeg[n] - 1];
      |Positive(next)| + (if next[n] == 0 then 1 else 0) == |Positive(indeg)|
  {
    var next := indeg[n := indeg[n] - 1];
    if next[n] == 0 {
      assert Positive(indeg) == Positive(next) + {n};
    } else {
      assert Positive(indeg) == Positive(next);
    }
  }

  /** Counting the edge from `name` to `dep` keeps the tables exact. */
  lemma CountOne(part: Graph, indeg: map<string, int>, adj: map<string, seq<string>>,
                 name: string, dep: string)
    requires Counted(part, indeg, adj) && name in part && dep in part && dep !in part[name]
    ensures Counted(part[name := part[name] + [dep]],
                    indeg[name := indeg[name] + 1],
                    adj[dep := adj[dep] + [name]])
  {
    var next := part[name := part[name] + [dep]];
    var indeg' := indeg[name := indeg[name] + 1];
    var adj' := adj[dep := adj[dep] + [name]];
    assert !Edge(part, name, dep);
    DistinctAppend(adj[dep], name);
    forall n | n in next
      ensures indeg'[n] == |Pending(next, [], n)|
    {
      PendingGrows(part, name, dep, n);
    }
    forall m, n | n in next
      ensures m in adj'[n] <==> Edge(next, m, n)
    {
      assert m in adj[n] <==> Edge(part, m, n);
    }
  }

  lemma PendingGrows(part: Graph, name: string, dep: string, n: string)
    requires name in part && dep in part && dep !in part[name] && n in part
    ensures var next := part[name := part[name] + [dep]];
      |Pending(next, [], n)| == |Pending(part, [], n)| + if n == name then 1 else 0
  {
    var next := part[name := part[name] + [dep]];
    if n == name {
      assert Pending(next, [], name) == Pending(part, [], name) + {dep};
    } else {
      assert Pending(next, [], n) == Pending(part, [], n);
    }
  }

  lemma DanglingIsNoEdge(part: Graph, name: string, dep: string)
    requires name in part && dep !in part
    ensures var next := part[name := part[name] + [dep]];
      && next.Keys == part.Keys
      && (forall m, n :: Edge(next, m, n) <==> Edge(part, m, n))
      && forall n :: n in part ==> Pending(next, [], n) == Pending(part, [], n)
  {
    var next := part[name := part[name] + [dep]];
    assert next.Keys == part.Keys;
    forall n | n in part
      ensures Pending(next, [], n) == Pending(part, [], n)
    {
    }
  }

  /** An edge to a name that is no node changes nothing. */
  lemma CountDangling(part: Graph, indeg: map<string, int>, adj: map<string, seq<string>>,
                      name: string, dep: string)
    requires Counted(part, indeg, adj) && name in part && dep !in part
    ensures Counted(part[name := part[name] + [dep]], indeg, adj)
  {
    hide Edge, Pending;
    DanglingIsNoEdge(part, name, dep);
  }

  // ---- the loop's state ------------------------------------------------------

  /** While a node's dependents are being decremented, `late` are those still to come. */
  ghost predicate Settling(g: Graph, index: map<string, int>, indeg: map<string, int>,
                           order: seq<string>, ready: seq<string>, late: seq<string>) {
    && g.Keys == index.Keys == indeg.Keys && InjectiveOn(index, g.Keys)
    && GreedyPrefix(g, index, order)
    && SortedByIndex(index, ready)
    && Distinct(late)
    && (forall n :: n in late ==> n in g && n !in order)
    && (forall n :: n in g ==> indeg[n] == |Pending(g, order, n)| + if n in late then 1 else 0)
    && forall n :: n in ready <==> Available(g, order, n) && n !in late
  }

  /** Between two iterations: the ready list is exactly the available nodes. */
  ghost predicate KahnState(g: Graph, index: map<string, int>, indeg: map<string, int>,
                            order: seq<string>, ready: seq<string>) {
    Settling(g, index, indeg, order, ready, [])
  }

  lemma ReadyAtStart(g: Graph, indeg: map<string, int>, adj: map<string, seq<string>>,
      index: map<string, int>, ready: seq<string>)
    requires Counted(g, indeg, adj) && g.Keys == index.Keys && InjectiveOn(index, g.Keys)
    requires SortedByIndex(index, ready)
    requires forall n :: n in ready <==> n in g && indeg[n] == 0
    ensures KahnState(g, index, indeg, [], ready)
  {
  }

  lemma InsertSorted(index: map<string, int>, ready: seq<string>, lo: nat, name: string)
    requires SortedByIndex(index, ready) && lo <= |ready| && name in index
    requires forall n :: n in ready ==> index[n] != index[name]
    requires forall i :: 0 <= i < lo ==> index[ready[i]] < index[name]
    requires lo < |ready| ==> index[ready[lo]] >= index[name]
    ensures SortedByIndex(index, ready[..lo] + [name] + ready[lo..])
  {
    var r := ready[..lo] + [name] + ready[lo..];
    assert forall i :: lo <= i < |ready| ==> ready[i] in ready && index[ready[i]] > index[name];
    forall i, j | 0 <= i < j < |r|
      ensures index[r[i]] < index[r[j]]
    {
      assert r[i] == if i < lo then ready[i] else if i == lo then name else ready[i - 1];
      assert r[j] == if j < lo then ready[j] else if j == lo then name else ready[j - 1];
    }
  }

  /** Emitting the head of the ready list: it is the least available node. */
  lemma EmitNext(g: Graph, index: map<string, int>, indeg: map<string, int>,
                 adj: map<string, seq<string>>, order: seq<string>, ready: seq<string>)
    requires KahnState(g, index, indeg, order, ready) && ready != []
    requires adj.Keys == g.Keys && Distinct(adj[ready[0]])
    requires forall m :: m in adj[ready[0]] <==> Edge(g, m, ready[0])
    ensures Settling(g, index, indeg, order + [ready[0]], ready[1..], adj[ready[0]])
  {
    var name, order', late := ready[0], order + [ready[0]], adj[ready[0]];
    assert name in ready;
    EmitKeepsGreedy(g, index, order, ready);
    forall n | n in g
      ensures |Pending(g, order, n)| == |Pending(g, order', n)| + if n in late then 1 else 0
    {
      PendingShrinks(g, order, name, n);
    }
    DistinctByIndex(index, ready);
    DistinctTail(ready);
    forall n
      ensures n in ready[1..] <==> Available(g, order', n) && n !in late
    {
      if n in g {
        PendingShrinks(g, order, name, n);
      }
    }
    forall n | n in late
      ensures n !in order'
    {
      assert Edge(g, n, name) && name in Pending(g, order, n);
      if n in order {
        EmittedHasNoPending(g, index, order, n);
      }
    }
  }

  lemma DistinctByIndex(index: map<string, int>, s: seq<string>)
    requires SortedByIndex(index, s)
    ensures Distinct(s)
  {
  }

  lemma PendingShrinks(g: Graph, order: seq<string>, name: string, n: string)
    requires n in g && name in g && name !in order
    ensures |Pending(g, order, n)| == |Pending(g, order + [name], n)| + if Edge(g, n, name) then 1 else 0
    ensures Pending(g, order, n) == {} <==> Pending(g, order + [name], n) == {} && !Edge(g, n, name)
  {
    if Edge(g, n, name) {
      assert Pending(g, order, n) == Pending(g, order + [name], n) + {name};
    } else {
      assert Pending(g, order, n) == Pending(g, order + [name], n);
    }
  }

  lemma EmitKeepsGreedy(g: Graph, index: map<string, int>, order: seq<string>, ready: seq<string>)
    requires g.Keys <= index.Keys && GreedyPrefix(g, index, order) && SortedByIndex(index, ready) && ready != []
    requires forall n :: n in ready <==> Available(g, order, n)
    ensures GreedyPrefix(g, index, order + [ready[0]])
  {
    var name, order' := ready[0], order + [ready[0]];
    assert name in ready;
    assert LeastAvailable(g, index, order, name) by {
      forall m | Available(g, order, m)
        ensures index[name] <= index[m]
      {
        var k :| 0 <= k < |ready| && ready[k] == m;
      }
    }
    forall k | 0 <= k < |order'|
      ensures LeastAvailable(g, index, order'[..k], order'[k])
    {
      if k < |order| {
        assert order'[..k] == order[..k];
      } else {
        assert order'[..k] == order;
      }
    }
  }

  lemma EmittedHasNoPending(g: Graph, index: map<string, int>, order: seq<string>, n: string)
    requires g.Keys <= index.Keys && GreedyPrefix(g, index, order) && n in order
    ensures n in g && Pending(g, order, n) == {}
  {
    var k :| 0 <= k < |order| && order[k] == n;
    assert LeastAvailable(g, index, order[..k], order[k]);
    forall d | d in Pending(g, order, n)
      ensures d in Pending(g, order[..k], n)
    {
    }
  }

  /** Decrementing the next dependent: it becomes ready exactly when it reaches zero. */
  lemma SettleDependent(g: Graph, index: map<string, int>, indeg: map<string, int>,
      order: seq<string>,
      ready: seq<string>, late: seq<string>, ready': seq<string>)
    requires Settling(g, index, indeg, order, ready, late) && late != []
    requires SortedByIndex(index, ready) && !(late[0] in ready) ==> SortedByIndex(index, ready')
    requires late[0] in indeg
    requires forall n :: n in ready' <==> n in ready || (n == late[0] && indeg[late[0]] == 1)
    ensures Settling(g, index, indeg[late[0] := indeg[late[0]] - 1], order, ready', late[1..])
  {
    var n0, late' := late[0], late[1..];
    var indeg' := indeg[n0 := indeg[n0] - 1];
    assert n0 in late && late == [n0] + late';
    DistinctTail(late);
    forall n | n in g
      ensures indeg'[n] == |Pending(g, order, n)| + if n in late' then 1 else 0
    {
    }
    forall n
      ensures n in ready' <==> Available(g, order, n) && n !in late'
    {
      if n == n0 {
        assert indeg[n0] == |Pending(g, order, n0)| + 1;
        assert Available(g, order, n0) <==> indeg[n0] == 1;
      }
    }
  }

  lemma DistinctTail(s: seq<string>)
    requires Distinct(s) && s != []
    ensures Distinct(s[1..]) && s[0] !in s[1..] && forall n :: n in s <==> n == s[0] || n in s[1..]
  {
    var t := s[1..];
    assert forall i :: 0 <= i < |t| ==> t[i] == s[i + 1];
    assert s == [s[0]] + t;
  }

  // ---- what a greedy order is -------------------------------------------------

  lemma GreedyIsDependenciesFirst(g: Graph, index: map<string, int>, order: seq<string>)
    requires g.Keys <= index.Keys && GreedyPrefix(g, index, order)
    ensures Distinct(order) && DependenciesFirst(g, order) && forall n :: n in order ==> n in g
  {
    forall i, j | 0 <= i < j < |order|
      ensures order[i] != order[j]
    {
      assert LeastAvailable(g, index, order[..j], order[j]);
      assert order[i] in order[..j];
    }
    forall i, d | 0 <= i < |order| && Edge(g, order[i], d)
      ensures d in order[..i]
    {
      assert LeastAvailable(g, index, order[..i], order[i]);
      assert d !in Pending(g, order[..i], order[i]);
    }
    forall n | n in order
      ensures n in g
    {
      var k :| 0 <= k < |order| && order[k] == n;
      assert LeastAvailable(g, index, order[..k], order[k]);
    }
  }

  /** A node left out by a greedy order has a dependency that is left out too. */
  lemma LeftOutHasLeftOutDependency(g: Graph, index: map<string, int>, order: seq<string>, n: string)
    requires Greedy(g, index, order) && n in g && n !in order
    ensures exists d :: Edge(g, n, d) && d !in order
  {
    assert !Available(g, order, n);
    var d :| d in Pending(g, order, n);
    assert Edge(g, n, d);
  }

  /** `a` comes before `b` in the lexicographic order of indices. */
  ghost predicate Before(index: map<string, int>, a: seq<string>, b: seq<string>) {
    exists k :: DiffersAt(index, a, b, k)
  }

  ghost predicate DiffersAt(index: map<string, int>, a: seq<string>, b: seq<string>, k: nat) {
    && k < |a| && k < |b| && a[..k] == b[..k]
    && a[k] in index && b[k] in index && index[a[k]] < index[b[k]]
  }

  /** A dependencies-first order of all nodes, and the lexicographically first of them. */
  ghost predicate LeastTopological(g: Graph, index: map<string, int>, order: seq<string>) {
    && IsTopological(g, order)
    && forall other :: IsTopological(g, other) ==> other == order || Before(index, order, other)
  }

  lemma {:induction false} FirstDifference(a: seq<string>, b: seq<string>) returns (k: nat)
    requires |a| == |b| && a != b
    ensures k < |a| && a[..k] == b[..k] && a[k] != b[k]
  {
    if a[0] != b[0] {
      k := 0;
    } else {
      assert a == [a[0]] + a[1..] && b == [b[0]] + b[1..];
      var j := FirstDifference(a[1..], b[1..]);
      k := j + 1;
      assert a[..k] == [a[0]] + a[1..][..j] && b[..k] == [b[0]] + b[1..][..j];
    }
  }

  lemma SameLength(a: seq<string>, b: seq<string>)
    requires Distinct(a) && Distinct(b) && forall n :: n in a <==> n in b
    ensures |a| == |b|
  {
    DistinctCount(a);
    DistinctCount(b);
    assert (set n | n in a) == (set n | n in b);
  }

  lemma {:induction false} DistinctCount(s: seq<string>)
    requires Distinct(s)
    ensures |set n | n in s| == |s|
  {
    if s != [] {
      var init := s[..|s| - 1];
      DistinctCount(init);
      assert (set n | n in s) == (set n | n in init) + {s[|s| - 1]};
      assert s[|s| - 1] !in init;
    }
  }

  /** The greedy order is the lexicographically least of all dependencies-first orders. */
  lemma GreedyIsLeast(g: Graph, index: map<string, int>, order: seq<string>)
    requires Greedy(g, index, order) && InjectiveOn(index, g.Keys)
    requires forall n :: n in g ==> n in order
    ensures LeastTopological(g, index, order)
  {
    GreedyIsDependenciesFirst(g, index, order);
    forall other | IsTopological(g, other) && other != order
      ensures Before(index, order, other)
    {
      SameLength(order, other);
      var k := FirstDifference(order, other);
      assert other[k] in other && order[k] in order;
      assert other[k] !in other[..k];
      assert Available(g, order[..k], other[k]);
      assert LeastAvailable(g, index, order[..k], order[k]);
      assert DiffersAt(index, order, other, k);
    }
  }

  lemma BeforeIsAsymmetric(index: map<string, int>, a: seq<string>, b: seq<string>)
    requires Before(index, a, b)
    ensures !Before(index, b, a)
  {
    var i: nat :| DiffersAt(index, a, b, i);
    forall j: nat
      ensures !DiffersAt(index, b, a, j)
    {
      if i < j <= |a| && j <= |b| {
        assert a[..j][i] == a[i] && b[..j][i] == b[i];
      } else if j < i {
        assert a[..i][j] == a[j] && b[..i][j] == b[j];
      }
    }
  }

  /** The least order depends on which edges there are, not on how they are listed. */
  lemma SameEdgesSameOrder(g: Graph, h: Graph, index: map<string, int>, a: seq<string>,
      b: seq<string>)
    requires g.Keys == h.Keys && forall m, n :: Edge(g, m, n) <==> Edge(h, m, n)
    requires LeastTopological(g, index, a) && LeastTopological(h, index, b)
    ensures a == b
  {
    assert IsTopological(h, a) && IsTopological(g, b);
    if a != b {
      BeforeIsAsymmetric(index, a, b);
    }
  }

  // ---- when the loop stalls ---------------------------------------------------

  /** A walk without repetitions that stays inside `u`. */
  ghost predicate PathInside(g: Graph, u: set<string>, p: seq<string>) {
    IsWalk(g, p) && Distinct(p) && forall n :: n in p ==> n in u
  }

  lemma PathInsideExtends(g: Graph, u: set<string>, p: seq<string>, d: string)
    requires PathInside(g, u, p) && d in u && d !in p && Edge(g, p[|p| - 1], d)
    ensures PathInside(g, u, p + [d]) && |p| < |u|
  {
    WalkExtends(g, p, p[0], p[|p| - 1], d);
    DistinctAppend(p, d);
    DistinctCount(p + [d]);
    CardinalityAtMost((set n | n in p + [d]), u);
  }

  ghost predicate Continues(g: Graph, u: set<string>, n: string) {
    exists d :: d in u && Edge(g, n, d)
  }

  ghost function NextInside(g: Graph, u: set<string>, n: string): (d: string)
    requires Continues(g, u, n)
    ensures d in u && Edge(g, n, d)
  {
    var d :| d in u && Edge(g, n, d);
    d
  }

  /** If every node of `u` depends on a node of `u`, each of its paths leads to a cycle. */
  lemma {:induction false} DescentMeetsCycle(g: Graph, next: map<string, string>, p: seq<string>) returns (m: string)
    requires PathInside(g, next.Keys, p)
    requires forall n {:trigger next[n]} :: n in next ==> next[n] in next && Edge(g, n, next[n])
    ensures ReachesOrIs(g, p[0], m) && Reaches(g, m, m)
    decreases |next.Keys| - |p|
  {
    var last := p[|p| - 1];
    assert last in p && last in next;
    var d := next[last];
    if d in p {
      var j :| 0 <= j < |p| && p[j] == d;
      WalkCloses(g, p, j);
      WalkExtends(g, p, p[0], last, d);
      m := d;
    } else {
      PathInsideExtends(g, next.Keys, p, d);
      m := DescentMeetsCycle(g, next, p + [d]);
    }
  }

  lemma {:induction false} CardinalityAtMost(a: set<string>, b: set<string>)
    requires a <= b
    ensures |a| <= |b|
  {
    if x :| x in a {
      CardinalityAtMost(a - {x}, b - {x});
    }
  }

  /**
   What Kahn's loop leaves out is exactly what is part of a cycle or depends,
   directly or not, on one.
   */
  lemma GreedyOmitsExactlyCycleReaching(g: Graph, index: map<string, int>, order: seq<string>,
      n: string)
    requires Greedy(g, index, order) && n in g
    ensures n !in order <==> exists m :: ReachesOrIs(g, n, m) && Reaches(g, m, m)
  {
    GreedyIsDependenciesFirst(g, index, order);
    if n in order {
      forall m | ReachesOrIs(g, n, m)
        ensures !Reaches(g, m, m)
      {
        var p :| WalkBetween(g, p, n, m);
        var s := set x | x in order;
        ClosedContainsWalk(g, s, p);
        ListedNotOnCycle(g, order, m);
      }
    } else {
      var left := set x | x in g && x !in order;
      forall x | x in left
        ensures Continues(g, left, x)
      {
        LeftOutHasLeftOutDependency(g, index, order, x);
      }
      var next := map x | x in left :: NextInside(g, left, x);
      var m := DescentMeetsCycle(g, next, [n]);
    }
  }

  ghost function GraphWithout(g: Graph, order: seq<string>): Graph {
    map n | n in g && n !in order :: g[n]
  }

  lemma NoLeafMeansCycle(g: Graph)
    requires g != map[] && forall x {:trigger Continues(g, g.Keys, x)} :: x in g ==> Continues(g, g.Keys, x)
    ensures !Acyclic(g)
  {
    var next := map x | x in g :: NextInside(g, g.Keys, x);
    var n :| n in g;
    assert IsWalk(g, [n]);
    var m := DescentMeetsCycle(g, next, [n]);
    var p :| WalkBetween(g, p, n, m);
    assert p[|p| - 1] in p;
  }

  /** The nodes a greedy order leaves out are never free of cycles among themselves. */
  lemma StallMeansCycle(g: Graph, index: map<string, int>, order: seq<string>)
    requires Greedy(g, index, order)
    requires exists n :: n in g && n !in order
    ensures !Acyclic(GraphWithout(g, order))
  {
    var left := GraphWithout(g, order);
    var n :| n in g && n !in order;
    assert n in left;
    forall x | x in left
      ensures Continues(left, left.Keys, x)
    {
      LeftOutHasLeftOutDependency(g, index, order, x);
      var d :| Edge(g, x, d) && d !in order;
      assert Edge(left, x, d);
    }
    NoLeafMeansCycle(left);
  }

  lemma SubgraphCycle(g: Graph, left: Graph, c: seq<string>)
    requires IsCycle(left, c)
    requires forall n :: n in left ==> n in g && left[n] == g[n]
    ensures IsCycle(g, c)
  {
    forall i | 0 < i < |c|
      ensures Edge(g, c[i - 1], c[i])
    {
      assert Edge(left, c[i - 1], c[i]);
    }
  }

  /** A greedy order has as many elements as there are nodes exactly when it has them all. */
  lemma FullLengthMeansAll(order: seq<string>, names: seq<string>)
    requires Distinct(order) && Distinct(names) && forall n :: n in order ==> n in names
    ensures |order| == |names| <==> forall n :: n in names ==> n in order
  {
    var a, b := set n | n in order, set n | n in names;
    DistinctCount(order);
    DistinctCount(names);
    if |order| == |names| && exists n :: n in names && n !in order {
      var n :| n in names && n !in order;
      CardinalityAtMost(a, b - {n});
      assert false;
    } else if forall n :: n in names ==> n in order {
      assert a == b;
    }
  }
}
