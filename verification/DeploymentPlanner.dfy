/**
 The plan that src/deployment/deploymentPlanner.js makes for one service: the
 start-up order of the host's services restricted to what the service needs.
 The verdicts of the compatibility and resource kernels are parameters.
 */
module DeploymentPlanner {
  import opened Graph
  import opened KahnTheory
  import opened Closure
  import opened DependencyGraph
  import opened HostedServices

  datatype Plan = Plan(
    deployOrder: seq<string>,
    rollbackOrder: seq<string>,
    missing: seq<string>,
    dependenciesOk: bool,
    deploymentOk: bool,
    rollbackOk: bool,
    ok: bool)

  /** The other services of the host in their order, then the target. */
  function PlanNodes(existing: seq<Service>, target: Service): seq<Descriptor> {
    Others(existing, target.id) + [AsNode(target)]
  }

  function Others(existing: seq<Service>, id: string): seq<Descriptor> {
    if existing == [] then []
    else
      var last := existing[|existing| - 1];
      Others(existing[..|existing| - 1], id) + if last.id == id then [] else [AsNode(last)]
  }

  /** The node stands for the service: its name, and what it depends on. */
  ghost predicate StandsFor(node: Descriptor, s: Service) {
    node.name == s.id && forall e :: e in EdgesOf(node) <==> e in s.dependsOn
  }

  /** The nodes stand for the services with another id, each once and in the host's order, at these places. */
  ghost predicate OthersAt(existing: seq<Service>, id: string, nodes: seq<Descriptor>, at: seq<nat>) {
    && |nodes| == |at|
    && (forall i :: 0 <= i < |at| ==>
      at[i] < |existing| && existing[at[i]].id != id && StandsFor(nodes[i], existing[at[i]]))
    && (forall i, j :: 0 <= i < j < |at| ==> at[i] < at[j])
    && (forall j :: 0 <= j < |existing| && existing[j].id != id ==> j in at)
  }

  /** The plan's nodes: the other services, and then the target. */
  lemma PlanNodesAre(existing: seq<Service>, target: Service) returns (at: seq<nat>)
    ensures var nodes := PlanNodes(existing, target);
      && |nodes| == |at| + 1 && StandsFor(nodes[|at|], target)
      && OthersAt(existing, target.id, nodes[..|at|], at)
  {
    at := OthersAre(existing, target.id);
    NodeStandsFor(target);
    assert PlanNodes(existing, target)[..|at|] == Others(existing, target.id);
  }

  lemma NodeStandsFor(s: Service)
    ensures StandsFor(AsNode(s), s)
  {
    UniqueElements(AsNode(s).dependsOn + AsNode(s).ports);
  }

  lemma {:induction false} OthersAre(existing: seq<Service>, id: string) returns (at: seq<nat>)
    ensures OthersAt(existing, id, Others(existing, id), at)
  {
    at := [];
    if existing != [] {
      var last := |existing| - 1;
      var init := OthersAre(existing[..last], id);
      NodeStandsFor(existing[last]);
      hide StandsFor, OthersAt;
      OneMoreOther(existing, id, Others(existing[..last], id), init);
      at := if existing[last].id == id then init else init + [last];
    }
  }

  lemma OneMoreOther(existing: seq<Service>, id: string, nodes: seq<Descriptor>, at: seq<nat>)
    requires existing != [] && OthersAt(existing[..|existing| - 1], id, nodes, at)
    requires StandsFor(AsNode(existing[|existing| - 1]), existing[|existing| - 1])
    ensures var last := |existing| - 1;
      if existing[last].id == id then OthersAt(existing, id, nodes, at)
      else OthersAt(existing, id, nodes + [AsNode(existing[last])], at + [last])
  {
    hide StandsFor, AsNode;
    var last := |existing| - 1;
    var longer := if existing[last].id == id then at else at + [last];
    forall j | 0 <= j < |existing| && existing[j].id != id
      ensures j in longer
    {
      if j < last {
        assert existing[..last][j] == existing[j];
        assert j in at;
      } else {
        assert longer[|at|] == last;
      }
    }
  }

  /** Somebody among the services or the target has this id. */
  ghost predicate Known(existing: seq<Service>, target: Service, id: string) {
    id == target.id || exists s :: s in existing && s.id == id
  }

  lemma NodesAreKnown(existing: seq<Service>, target: Service)
    ensures forall id :: id in Names(PlanNodes(existing, target)) <==> Known(existing, target, id)
  {
    var at := PlanNodesAre(existing, target);
    var nodes := PlanNodes(existing, target);
    forall id
      ensures id in Names(nodes) <==> Known(existing, target, id)
    {
      if id in Names(nodes) {
        var i :| 0 <= i < |nodes| && Names(nodes)[i] == id;
        assert i < |at| ==> existing[at[i]] in existing;
      }
      if id == target.id {
        assert Names(nodes)[|at|] == id;
      } else if s :| s in existing && s.id == id {
        var j :| 0 <= j < |existing| && existing[j] == s;
        var i :| 0 <= i < |at| && at[i] == j;
        assert Names(nodes)[i] == id;
      }
    }
  }

  /** In a plan's graph a service leads to the known ones it depends on; the target counts as the plan describes it. */
  lemma PlanEdges(existing: seq<Service>, target: Service, a: string, b: string)
    requires Distinct(Names(PlanNodes(existing, target)))
    ensures Edge(GraphOf(PlanNodes(existing, target)), a, b) <==>
      && Known(existing, target, b)
      && if a == target.id then b in target.dependsOn else exists s :: s in existing && s.id == a && b in s.dependsOn
  {
    var at := PlanNodesAre(existing, target);
    var nodes := PlanNodes(existing, target);
    NodesAreKnown(existing, target);
    TableKeys(nodes);
    hide Names;
    if a == target.id {
      EdgesExactly(nodes, |at|, b);
      UniqueElements(nodes[|at|].dependsOn + nodes[|at|].ports);
    } else if s :| s in existing && s.id == a {
      var j :| 0 <= j < |existing| && existing[j] == s;
      var k :| 0 <= k < |at| && at[k] == j;
      assert nodes[..|at|][k] == nodes[k];
      EdgesExactly(nodes, k, b);
      UniqueElements(nodes[k].dependsOn + nodes[k].ports);
      OnlyOne(existing, target, at, a, s);
    }
  }

  /** Distinct names: whoever has the id of another service is that service. */
  lemma OnlyOne(existing: seq<Service>, target: Service, at: seq<nat>, a: string, s: Service)
    requires var nodes := PlanNodes(existing, target);
      Distinct(Names(nodes)) && |nodes| == |at| + 1 && OthersAt(existing, target.id, nodes[..|at|], at)
    requires s in existing && s.id == a && a != target.id
    ensures forall r :: r in existing && r.id == a ==> r == s
  {
    var nodes := PlanNodes(existing, target);
    forall r | r in existing && r.id == a
      ensures r == s
    {
      var j, l :| 0 <= j < |existing| && existing[j] == s && 0 <= l < |existing| && existing[l] == r;
      var k, m :| 0 <= k < |at| && at[k] == j && 0 <= m < |at| && at[m] == l;
      assert nodes[..|at|][k] == nodes[k] && nodes[..|at|][m] == nodes[m];
      assert Names(nodes)[k] == Names(nodes)[m];
    }
  }

  ghost predicate ValidGraph(nodes: seq<Descriptor>) {
    Distinct(Names(nodes)) && Resolves(nodes) && Acyclic(GraphOf(nodes))
  }

  /**
   Exactly the target and its transitive dependencies, each once, dependencies
   first, in the host's start-up order, with the target last.
   */
  ghost predicate IsDeployOrder(nodes: seq<Descriptor>, id: string, order: seq<string>) {
    && Distinct(order)
    && (forall n :: n in order <==> ReachesOrIs(GraphOf(nodes), id, n))
    && DependenciesFirst(GraphOf(nodes), order)
    && order != [] && order[|order| - 1] == id
    && exists all, keep :: LeastTopological(GraphOf(nodes), IndexOf(nodes), all) && order == KeepOnly(all, keep)
  }

  /** In a dependencies-first order nothing that a node needs comes after the node itself. */
  lemma NotNeededAfter(g: Graph, all: seq<string>, i: nat, j: nat)
    requires IsTopological(g, all) && i < j < |all|
    ensures !ReachesOrIs(g, all[i], all[j])
  {
    if ReachesOrIs(g, all[i], all[j]) {
      var p :| WalkBetween(g, p, all[i], all[j]);
      WalkDescends(g, all, i, p);
      assert false;
    }
  }

  lemma {:induction false} NeededEndsWithTarget(g: Graph, all: seq<string>, needed: set<string>, id: string)
    requires IsTopological(g, all) && id in g
    requires forall n :: n in needed <==> ReachesOrIs(g, id, n)
    ensures var order := KeepOnly(all, needed); order != [] && order[|order| - 1] == id
  {
    hide DependenciesFirst;
    var i :| 0 <= i < |all| && all[i] == id;
    ReachesOrIsSelf(g, id);
    forall x | x in all[i + 1..]
      ensures x !in needed
    {
      var j :| i < j < |all| && all[j] == x;
      NotNeededAfter(g, all, i, j);
    }
    hide ReachesOrIs, IsTopological;
    KeepOnlyNone(all[i + 1..], needed);
    assert all == all[..i] + [id] + all[i + 1..];
    KeepOnlyAppend(all[..i] + [id], all[i + 1..], needed);
    KeepOnlyAppend(all[..i], [id], needed);
  }

  lemma RestrictedIsDeployOrder(nodes: seq<Descriptor>, all: seq<string>, needed: set<string>,
      id: string)
    requires LeastTopological(GraphOf(nodes), IndexOf(nodes), all) && id in GraphOf(nodes)
    requires forall n :: n in needed <==> ReachesOrIs(GraphOf(nodes), id, n)
    ensures IsDeployOrder(nodes, id, KeepOnly(all, needed))
  {
    var g := GraphOf(nodes);
    KeepOnlyDistinct(all, needed);
    KeepOnlyElements(all, needed);
    assert ClosedUnder(g, needed) by {
      forall a, b | a in needed && Edge(g, a, b)
        ensures b in needed
      {
        ReachesStep(g, id, a, b);
      }
    }
    KeepOnlyDependenciesFirst(g, all, needed);
    NeededEndsWithTarget(g, all, needed, id);
    forall n | ReachesOrIs(g, id, n)
      ensures n in all
    {
      var p :| WalkBetween(g, p, id, n);
      assert p[|p| - 1] in p;
    }
  }

  method ClosureOf(id: string, nodes: seq<Descriptor>) returns (seen: set<string>)
    ensures forall n :: n in seen <==> ReachesOrIs(GraphOf(nodes), id, n)
  {
    var byName := ByName(nodes);
    DeclaredHasSameEdges(byName);
    SameEdgesSameWalks(Declared(byName), Edges(byName));
    seen := Reachable(Declared(byName), [id]);
    forall n
      ensures ReachesOrIs(Declared(byName), id, n) <==> ReachesOrIs(GraphOf(nodes), id, n)
    {
      forall p
        ensures WalkBetween(Declared(byName), p, id, n) <==> WalkBetween(GraphOf(nodes), p, id, n)
      {
      }
    }
  }

  method MakePlan(existing: seq<Service>, target: Service, versionOk: bool, resourcesOk: bool) returns (p: Plan)
    ensures ValidGraph(PlanNodes(existing, target)) ==>
      && IsDeployOrder(PlanNodes(existing, target), target.id, p.deployOrder)
      && p.dependenciesOk && p.deploymentOk && p.rollbackOk
      && p.rollbackOrder != [] && p.rollbackOrder[0] == target.id
      && (p.ok <==> versionOk && resourcesOk)
    ensures !ValidGraph(PlanNodes(existing, target)) ==>
      p.deployOrder == [] && !p.deploymentOk && !p.rollbackOk && !p.ok
    ensures p.rollbackOrder == Reverse(p.deployOrder)
    ensures p.missing == Without(target.dependsOn, Names(PlanNodes(existing, target)))
    ensures forall d :: d in p.missing <==> d in target.dependsOn && !Known(existing, target, d)
    ensures p.dependenciesOk <==> p.missing == []
  {
    var nodes := PlanNodes(existing, target);
    var graph := BuildDependencyGraph(nodes);
    var missing := Without(target.dependsOn, Names(nodes));
    TargetIsNode(existing, target);
    NodesAreKnown(existing, target);
    WithoutElements(target.dependsOn, Names(nodes));
    var deployOrder := [];
    var deploymentOk, rollbackOk := false, false;
    if graph.ok {
      var needed := ClosureOf(target.id, nodes);
      deployOrder := KeepOnly(graph.order, needed);
      RestrictedIsDeployOrder(nodes, graph.order, needed, target.id);
      var rollback := Reverse(deployOrder);
      ReverseAt(deployOrder, 0);
      deploymentOk := deployOrder != [] && deployOrder[|deployOrder| - 1] == target.id;
      rollbackOk := rollback != [] && rollback[0] == target.id;
      NothingMissing(existing, target);
    }
    p := Plan(deployOrder, Reverse(deployOrder), missing, missing == [], deploymentOk, rollbackOk,
              missing == [] && deploymentOk && rollbackOk && versionOk && resourcesOk);
  }

  lemma TargetIsNode(existing: seq<Service>, target: Service)
    ensures target.id in GraphOf(PlanNodes(existing, target))
  {
    var nodes := PlanNodes(existing, target);
    NameInTable(nodes, |nodes| - 1);
  }

  /** A graph without dangling edges leaves no declared dependency missing. */
  lemma NothingMissing(existing: seq<Service>, target: Service)
    requires Resolves(PlanNodes(existing, target))
    ensures Without(target.dependsOn, Names(PlanNodes(existing, target))) == []
  {
    var nodes := PlanNodes(existing, target);
    assert nodes[|nodes| - 1] == AsNode(target) && AsNode(target) in nodes;
    UniqueElements(target.dependsOn + []);
    assert target.dependsOn + [] == target.dependsOn;
    forall d | d in target.dependsOn
      ensures d in Names(nodes)
    {
      assert d in EdgesOf(AsNode(target));
    }
    WithoutNothingLeft(target.dependsOn, Names(nodes));
  }
}
