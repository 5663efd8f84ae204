/**
 The host of src/host: a registry of services, the supervisor's states, and the
 ordered start and stop of everything registered. Whether a service's own start
 or stop throws, and whether the runtime does, are parameters of each call.
 */
module HostLifecycle {
  import opened Wrappers
  import opened Graph
  import opened KahnTheory
  import opened Closure
  import opened DependencyGraph
  import opened HostedServices

  datatype HostState = Created | Starting | Ready | Degraded | ShuttingDown | HostStopped | Restarting | HostFailed
  datatype ServiceState = Registered | ServiceStarting | Started | Stopping | Stopped | Failed

  /** What a shutdown answers once the runtime is down: `ok` only if every service stopped. */
  datatype ShutdownReport = ShutdownReport(ok: bool, stopped: seq<string>, errors: seq<string>)

  datatype HostError =
    | DuplicateService(id: string)
    | DependencyNotStarted(id: string, dependency: string)
    | InvalidGraph
    | ServiceFailed(id: string)
    | RuntimeFailed

  type States = map<string, ServiceState>

  /** What happened to a service, with the states of all services just before. */
  datatype Event =
    | Start(service: Service, before: States)
    | Stop(service: Service, before: States)

  ghost predicate IsIn(s: States, id: string, st: ServiceState) {
    id in s && s[id] == st
  }

  /** A start is justified when every declared dependency is started at that moment. */
  ghost predicate StartJustified(e: Event) {
    e.Start? ==> forall d :: d in e.service.dependsOn ==> IsIn(e.before, d, Started)
  }

  /** A stop is justified when a stop of every dependent has been attempted already. */
  ghost predicate StopJustified(e: Event, registered: map<string, Service>) {
    e.Stop? ==> forall a :: a in registered && e.service.id in registered[a].dependsOn ==>
      IsIn(e.before, a, Stopped) || IsIn(e.before, a, Failed)
  }

  function EventIds(log: seq<Event>): seq<string> {
    seq(|log|, i requires 0 <= i < |log| => log[i].service.id)
  }

  /** The position of the first id that fails, or the length. */
  function FirstFailure(ids: seq<string>, fails: set<string>): (k: nat)
    ensures k <= |ids| && (forall i :: 0 <= i < k ==> ids[i] !in fails) && (k < |ids| ==> ids[k] in fails)
  {
    if ids == [] then 0
    else if ids[0] in fails then 0
    else
      var k := FirstFailure(ids[1..], fails);
      assert forall i :: 1 <= i < k + 1 ==> ids[i] == ids[1..][i - 1];
      k + 1
  }

  /** The states after the first `k` ids have started. */
  function AllStarted(before: States, ids: seq<string>): States {
    before + map s | s in ids :: Started
  }

  function StateAfterStart(before: States, ids: seq<string>, k: nat): States
    requires k <= |ids|
  {
    if k == |ids| then AllStarted(before, ids) else AllStarted(before, ids[..k])[ids[k] := Failed]
  }

  lemma AllStartedStep(before: States, ids: seq<string>, i: nat)
    requires i < |ids|
    ensures AllStarted(before, ids[..i])[ids[i] := Started] == AllStarted(before, ids[..i + 1])
  {
    assert ids[..i + 1] == ids[..i] + [ids[i]];
  }

  function StateAfterStop(before: States, ids: seq<string>, fails: set<string>): States {
    before + map s | s in ids :: if s in fails then Failed else Stopped
  }

  lemma StateAfterStopStep(before: States, ids: seq<string>, fails: set<string>, i: nat)
    requires i < |ids|
    ensures StateAfterStop(before, ids[..i], fails)[ids[i] := if ids[i] in fails then Failed else Stopped]
         == StateAfterStop(before, ids[..i + 1], fails)
  {
    assert ids[..i + 1] == ids[..i] + [ids[i]];
  }

  /** Up to the failure the services of a pass are STARTED, the failing one is FAILED, and no other is touched. */
  lemma StatesAfterStart(before: States, ids: seq<string>, k: nat, id: string)
    requires k <= |ids| && Distinct(ids)
    ensures var after := StateAfterStart(before, ids, k);
      && (id in ids[..k] ==> IsIn(after, id, Started))
      && (k < |ids| && id == ids[k] ==> IsIn(after, id, Failed))
      && (id !in ids[..k] && !(k < |ids| && id == ids[k]) ==>
        (id in after <==> id in before) && (id in before ==> after[id] == before[id]))
  {
    assert k == |ids| ==> ids[..k] == ids;
  }

  /** After a stop pass the listed services are STOPPED, or FAILED if their stop threw; no other is touched. */
  lemma StatesAfterStop(before: States, ids: seq<string>, fails: set<string>, id: string)
    ensures var after := StateAfterStop(before, ids, fails);
      && (id in ids && id !in fails ==> IsIn(after, id, Stopped))
      && (id in ids && id in fails ==> IsIn(after, id, Failed))
      && (id !in ids ==> (id in after <==> id in before) && (id in before ==> after[id] == before[id]))
  {
  }

  /** The stop attempts of one pass, with what each of them found. */
  ghost function StopEvents(before: States, byId: map<string, Service>, ids: seq<string>,
      fails: set<string>): seq<Event>
    requires forall id :: id in ids ==> id in byId
  {
    seq(|ids|, i requires 0 <= i < |ids| =>
      assert ids[i] in ids;
      Stop(byId[ids[i]], StateAfterStop(before, ids[..i], fails)[ids[i] := Stopping]))
  }

  lemma StopEventsStep(before: States, byId: map<string, Service>, ids: seq<string>,
                       fails: set<string>, i: nat)
    requires i < |ids| && forall id :: id in ids ==> id in byId
    ensures StopEvents(before, byId, ids[..i + 1], fails)
         == StopEvents(before, byId, ids[..i], fails)
            + [Stop(byId[ids[i]], StateAfterStop(before, ids[..i], fails)[ids[i] := Stopping])]
  {
    assert forall j :: 0 <= j <= i ==> ids[..i + 1][..j] == ids[..j];
    assert forall j :: 0 <= j < i ==> ids[..i][..j] == ids[..j];
  }

  lemma NoEvents()
    ensures EventIds([]) == []
  {
  }

  lemma NoneKept(ids: seq<string>, registered: set<string>, fails: set<string>)
    requires forall id :: id in ids <==> id in registered
    ensures KeepOnly(ids, fails) == [] <==> registered !! fails
  {
    KeepOnlyElements(ids, fails);
    if registered !! fails {
      KeepOnlyNone(ids, fails);
    } else {
      var id :| id in registered && id in fails;
      assert id in KeepOnly(ids, fails);
    }
  }

  // ---- the registry and its graph ---------------------------------------------

  type Registry = map<string, Service>

  /** Ids in registration order, and the service behind each. */
  ghost predicate RegistryOk(order: seq<string>, byId: Registry) {
    && Distinct(order)
    && (forall id :: id in order <==> id in byId)
    && forall id :: id in byId ==> byId[id].id == id
  }

  /** The registered services as nodes of the dependency graph, in registration order. */
  function NodesOf(order: seq<string>, byId: Registry): seq<Descriptor>
    requires forall id :: id in order ==> id in byId
  {
    seq(|order|, i requires 0 <= i < |order| => assert order[i] in order; AsNode(byId[order[i]]))
  }

  /** Every dependency is registered and no service depends on itself, directly or not. */
  ghost predicate GraphOk(order: seq<string>, byId: Registry)
    requires RegistryOk(order, byId)
  {
    Resolves(NodesOf(order, byId)) && Acyclic(GraphOf(NodesOf(order, byId)))
  }

  lemma NodeNames(order: seq<string>, byId: Registry)
    requires RegistryOk(order, byId)
    ensures Names(NodesOf(order, byId)) == order
    ensures GraphOf(NodesOf(order, byId)).Keys == byId.Keys
  {
    var nodes := NodesOf(order, byId);
    forall j | 0 <= j < |order|
      ensures nodes[j].name == order[j]
    {
      assert order[j] in order;
    }
    assert Names(nodes) == order;
    TableKeys(nodes);
  }

  lemma NodeEdges(order: seq<string>, byId: Registry, a: string, d: string)
    requires RegistryOk(order, byId) && a in byId
    ensures Edge(GraphOf(NodesOf(order, byId)), a, d) <==> d in byId && d in byId[a].dependsOn
    ensures AsNode(byId[a]) in NodesOf(order, byId)
  {
    var nodes := NodesOf(order, byId);
    NodeNames(order, byId);
    var i :| 0 <= i < |order| && order[i] == a;
    assert nodes[i] == AsNode(byId[a]);
    TablesAt(nodes, i);
    assert byId[a].dependsOn + [] == byId[a].dependsOn;
    UniqueElements(byId[a].dependsOn);
  }

  /** In a valid graph's order every declared dependency of a service precedes it. */
  lemma DependenciesPrecede(order: seq<string>, byId: Registry, ids: seq<string>, i: nat, d: string)
    requires RegistryOk(order, byId) && GraphOk(order, byId)
    requires IsTopological(GraphOf(NodesOf(order, byId)), ids)
    requires i < |ids| && ids[i] in byId && d in byId[ids[i]].dependsOn
    ensures d in ids[..i]
  {
    var nodes, a := NodesOf(order, byId), ids[i];
    NodeEdges(order, byId, a, d);
    assert d in byId by {
      assert byId[a].dependsOn + [] == byId[a].dependsOn;
      UniqueElements(byId[a].dependsOn);
      assert d in EdgesOf(AsNode(byId[a]));
      NodeNames(order, byId);
    }
  }

  /** Read backwards, the order puts every dependent of a service before it. */
  lemma DependentsPrecedeInReverse(order: seq<string>, byId: Registry, ids: seq<string>, i: nat,
      a: string)
    requires RegistryOk(order, byId) && GraphOk(order, byId)
    requires IsTopological(GraphOf(NodesOf(order, byId)), ids)
    requires i < |ids| && a in byId && |Reverse(ids)| == |ids| && Reverse(ids)[i] in byId[a].dependsOn
    ensures a in Reverse(ids)[..i]
  {
    var r := Reverse(ids);
    NodeNames(order, byId);
    hide Reverse;
    var j :| 0 <= j < |ids| && ids[j] == a;
    DependenciesPrecede(order, byId, ids, j, r[i]);
    var m :| 0 <= m < j && ids[m] == r[i];
    PrecedesInReverse(ids, i, j, m);
  }

  /** What comes later in a list comes earlier in its reverse. */
  lemma PrecedesInReverse(s: seq<string>, i: nat, j: nat, m: nat)
    requires Distinct(s) && m < j < |s| == |Reverse(s)| && i < |s| && Reverse(s)[i] == s[m]
    ensures s[j] in Reverse(s)[..i]
  {
    ReverseAt(s, i);
    assert m == |s| - 1 - i;
    ReverseAt(s, |s| - 1 - j);
    assert Reverse(s)[..i][|s| - 1 - j] == s[j];
  }

  lemma ReverseElements(s: seq<string>)
    ensures |Reverse(s)| == |s| && forall x :: x in Reverse(s) <==> x in s
    ensures Distinct(s) ==> Distinct(Reverse(s))
  {
    forall i | 0 <= i < |s|
      ensures |Reverse(s)| == |s| && Reverse(s)[i] == s[|s| - 1 - i]
    {
      ReverseAt(s, i);
    }
    if s != [] {
      ReverseAt(s, 0);
    }
    forall x | x in s
      ensures x in Reverse(s)
    {
      var i :| 0 <= i < |s| && s[i] == x;
      assert Reverse(s)[|s| - 1 - i] == x;
    }
  }

  /** The first dependency that is not started, in declaration order. */
  function FirstUnstarted(deps: seq<string>, services: States): (r: Option<string>)
    ensures r.None? <==> forall d :: d in deps ==> IsIn(services, d, Started)
    ensures r.Some? ==> r.value in deps && !IsIn(services, r.value, Started)
  {
    if deps == [] then None
    else
      assert deps == [deps[0]] + deps[1..];
      if deps[0] in services && services[deps[0]] == Started then FirstUnstarted(deps[1..], services)
      else
        assert !IsIn(services, deps[0], Started) && deps[0] in deps;
        Some(deps[0])
  }

  lemma {:induction false} KeepsAll(s: seq<string>, x: string)
    requires x !in s
    ensures Without(s, [x]) == s
  {
    if s != [] {
      KeepsAll(s[..|s| - 1], x);
    }
  }

  lemma {:induction false} WithoutDistinct(s: seq<string>, gone: seq<string>)
    requires Distinct(s)
    ensures Distinct(Without(s, gone))
  {
    if s != [] {
      var init, last := s[..|s| - 1], s[|s| - 1];
      assert s == init + [last];
      DistinctAppend(init, last);
      WithoutDistinct(init, gone);
      WithoutElements(init, gone);
      DistinctAppend(Without(init, gone), last);
    }
  }

  lemma RemoveFromRegistry(order: seq<string>, byId: Registry, id: string)
    requires RegistryOk(order, byId)
    ensures RegistryOk(Without(order, [id]), byId - {id})
    ensures id !in byId ==> Without(order, [id]) == order && byId - {id} == byId
  {
    hide Without;
    assert forall x :: x in [id] <==> x == id;
    WithoutElements(order, [id]);
    WithoutDistinct(order, [id]);
    if id !in byId {
      KeepsAll(order, id);
    }
  }

  /** The order of a valid graph meets what a start pass asks for. */
  lemma OrderIsStartable(order: seq<string>, byId: Registry, ids: seq<string>)
    requires RegistryOk(order, byId) && GraphOk(order, byId)
    requires IsTopological(GraphOf(NodesOf(order, byId)), ids)
    ensures Distinct(ids) && forall id :: id in ids <==> id in byId
    ensures forall i, d :: 0 <= i < |ids| && d in byId[ids[i]].dependsOn ==> d in ids[..i]
  {
    NodeNames(order, byId);
    forall i, d | 0 <= i < |ids| && ids[i] in byId && d in byId[ids[i]].dependsOn
      ensures d in ids[..i]
    {
      DependenciesPrecede(order, byId, ids, i, d);
    }
    assert forall i :: 0 <= i < |ids| ==> ids[i] in ids;
  }

  /** A full pass over the registered services ends with all of them started, if none fails. */
  lemma FullPass(before: States, ids: seq<string>, fails: set<string>, byId: Registry)
    requires forall id :: id in ids <==> id in byId
    ensures FirstFailure(ids, fails) == |ids| <==> byId.Keys !! fails
    ensures byId.Keys !! fails ==>
      forall id :: id in byId ==> IsIn(StateAfterStart(before, ids, FirstFailure(ids, fails)), id, Started)
    ensures forall id :: id in byId ==>
      IsIn(StateAfterStop(before, ids, fails), id, if id in fails then Failed else Stopped)
  {
    var k := FirstFailure(ids, fails);
    if k < |ids| {
      assert ids[k] in ids;
    }
  }

  /** With a valid graph each stop attempt comes after those of all dependents. */
  lemma StopAtJustified(before: States, order: seq<string>, byId: Registry,
                        ids: seq<string>, fails: set<string>, i: nat)
    requires RegistryOk(order, byId) && GraphOk(order, byId)
    requires IsTopological(GraphOf(NodesOf(order, byId)), ids)
    requires i < |Reverse(ids)| && forall id :: id in Reverse(ids) ==> id in byId
    ensures StopJustified(StopEvents(before, byId, Reverse(ids), fails)[i], byId)
  {
    ReverseElements(ids);
    var r := Reverse(ids);
    var e := StopEvents(before, byId, r, fails)[i];
    assert r[i] in r && e.service.id == r[i];
    assert r[i] !in r[..i];
    forall a | a in byId && r[i] in byId[a].dependsOn
      ensures IsIn(e.before, a, Stopped) || IsIn(e.before, a, Failed)
    {
      DependentsPrecedeInReverse(order, byId, ids, i, a);
    }
  }

  lemma StopEventsJustified(before: States, order: seq<string>, byId: Registry,
                            ids: seq<string>, fails: set<string>)
    requires RegistryOk(order, byId) && GraphOk(order, byId)
    requires IsTopological(GraphOf(NodesOf(order, byId)), ids)
    ensures forall id :: id in Reverse(ids) ==> id in byId
    ensures forall e :: e in StopEvents(before, byId, Reverse(ids), fails) ==> StopJustified(e, byId)
  {
    hide StopJustified;
    ReverseElements(ids);
    NodeNames(order, byId);
    hide IsTopological, RegistryOk, GraphOk;
    var events := StopEvents(before, byId, Reverse(ids), fails);
    forall e | e in events
      ensures StopJustified(e, byId)
    {
      var i :| 0 <= i < |events| && events[i] == e;
      StopAtJustified(before, order, byId, ids, fails, i);
    }
  }

  // ---- the host -----------------------------------------------------------------

  class Host {
    var order: seq<string>
    var byId: Registry
    var state: HostState
    var services: States
    ghost var log: seq<Event>
    /** The host states so far, as `supervisor.transition` is told of them. */
    ghost var transitions: seq<HostState>

    /** The registry is consistent and every start so far was justified. */
    ghost predicate Valid()
      reads this`order, this`byId, this`log
    {
      RegistryOk(order, byId) && forall e :: e in log ==> StartJustified(e)
    }

    constructor ()
      ensures Valid() && order == [] && byId == map[] && state == Created && services == map[] && log == []
    {
      order, byId, state, services := [], map[], Created, map[];
      log, transitions := [], [];
    }

    method Graph() returns (r: Result<seq<string>, HostError>)
      requires Valid()
      ensures r.Ok? <==> GraphOk(order, byId)
      ensures r.Ok? ==> LeastTopological(GraphOf(NodesOf(order, byId)), IndexOf(NodesOf(order, byId)), r.value)
      ensures r.Err? ==> r.error == InvalidGraph
    {
      NodeNames(order, byId);
      var g := BuildDependencyGraph(NodesOf(order, byId));
      r := if g.ok then Ok(g.order) else Err(InvalidGraph);
    }

    /** One service: starting, then started or failed. */
    method StartOne(id: string, fails: bool)
      requires Valid() && id in byId
      requires forall d :: d in byId[id].dependsOn ==> d != id && IsIn(services, d, Started)
      modifies this`services, this`log
      ensures Valid() && services == old(services)[id := if fails then Failed else Started]
      ensures fails ==> log == old(log)
      ensures !fails ==> log == old(log) + [Start(byId[id], old(services)[id := ServiceStarting])]
    {
      services := services[id := ServiceStarting];
      if fails {
        services := services[id := Failed];
      } else {
        log := log + [Start(byId[id], services)];
        services := services[id := Started];
      }
    }

    /** Starts the given services one after the other; the first failure ends the pass. */
    method StartServices(ids: seq<string>, fails: set<string>) returns (r: Result<seq<string>, HostError>)
      requires Valid() && Distinct(ids) && forall id :: id in ids ==> id in byId
      requires forall i, d :: 0 <= i < |ids| && d in byId[ids[i]].dependsOn ==>
        d in ids[..i] || (d !in ids && IsIn(services, d, Started))
      modifies this`services, this`log
      ensures Valid()
      ensures var k := FirstFailure(ids, fails);
        && r == (if k == |ids| then Ok(ids) else Err(ServiceFailed(ids[k])))
        && services == StateAfterStart(old(services), ids, k)
        && old(log) <= log && EventIds(log[|old(log)|..]) == ids[..k]
    {
      var started: seq<string> := [];
      ghost var k := FirstFailure(ids, fails);
      for i := 0 to |ids|
        invariant i <= k && started == ids[..i] && Valid()
        invariant services == AllStarted(old(services), ids[..i])
        invariant old(log) <= log && EventIds(log[|old(log)|..]) == ids[..i]
      {
        assert ids[i] in ids;
        forall d | d in byId[ids[i]].dependsOn
          ensures d != ids[i] && IsIn(services, d, Started)
        {
          assert d in ids[..i] || (d !in ids && IsIn(old(services), d, Started));
        }
        StartOne(ids[i], ids[i] in fails);
        if ids[i] in fails {
          return Err(ServiceFailed(ids[i]));
        }
        AllStartedStep(old(services), ids, i);
        started := started + [ids[i]];
      }
      assert ids[..|ids|] == ids;
      return Ok(started);
    }

    /** One service: stopping, then stopped or failed. */
    method StopOne(id: string, fails: bool)
      requires Valid() && id in byId
      modifies this`services, this`log
      ensures Valid() && services == old(services)[id := if fails then Failed else Stopped]
      ensures log == old(log) + [Stop(byId[id], old(services)[id := Stopping])]
    {
      services := services[id := Stopping];
      log := log + [Stop(byId[id], services)];
      services := services[id := if fails then Failed else Stopped];
    }

    /** Stops the given services one after the other; a failure is recorded and the pass goes on. */
    method StopServices(ids: seq<string>, fails: set<string>) returns (stopped: seq<string>, errors: seq<string>)
      requires Valid() && forall id :: id in ids ==> id in byId
      modifies this`services, this`log
      ensures Valid()
      ensures stopped == KeepOnly(ids, byId.Keys - fails) && errors == KeepOnly(ids, fails)
      ensures services == StateAfterStop(old(services), ids, fails)
      ensures log == old(log) + StopEvents(old(services), byId, ids, fails)
    {
      stopped, errors := [], [];
      for i := 0 to |ids|
        invariant Valid()
        invariant stopped == KeepOnly(ids[..i], byId.Keys - fails) && errors == KeepOnly(ids[..i], fails)
        invariant services == StateAfterStop(old(services), ids[..i], fails)
        invariant log == old(log) + StopEvents(old(services), byId, ids[..i], fails)
      {
        assert ids[..i + 1][..i] == ids[..i];
        assert ids[i] in ids;
        StopOne(ids[i], ids[i] in fails);
        if ids[i] in fails {
          errors := errors + [ids[i]];
        } else {
          stopped := stopped + [ids[i]];
        }
        StateAfterStopStep(old(services), ids, fails, i);
        StopEventsStep(old(services), byId, ids, fails, i);
      }
      assert ids[..|ids|] == ids;
    }

    /** Adds a service; on a ready host it is started at once, if its dependencies are started. */
    method Register(service: Service, fails: bool) returns (r: Result<string, HostError>)
      requires Valid()
      modifies this`order, this`byId, this`services, this`log
      ensures Valid()
      ensures service.id in old(byId) ==>
        r == Err(DuplicateService(service.id)) && order == old(order) && byId == old(byId)
        && services == old(services) && log == old(log)
      ensures service.id !in old(byId) ==>
        && order == old(order) + [service.id] && byId == old(byId)[service.id := service]
        && var registered := old(services)[service.id := Registered];
           var blocked := FirstUnstarted(service.dependsOn, registered);
           if state != Ready then
             r == Ok(service.id) && services == registered && log == old(log)
           else if blocked.Some? then
             r == Err(DependencyNotStarted(service.id, blocked.value)) && services == registered && log == old(log)
           else if fails then
             r == Err(ServiceFailed(service.id)) && services == registered[service.id := Failed] && log == old(log)
           else
             && r == Ok(service.id) && services == registered[service.id := Started]
             && log == old(log) + [Start(service, registered[service.id := ServiceStarting])]
    {
      var id := service.id;
      if id in byId {
        return Err(DuplicateService(id));
      }
      DistinctAppend(order, id);
      byId := byId[id := service];
      order := order + [id];
      services := services[id := Registered];
      if state == Ready {
        var blocked := FirstUnstarted(service.dependsOn, services);
        if blocked.Some? {
          return Err(DependencyNotStarted(id, blocked.value));
        }
        StartOne(id, fails);
        if fails {
          return Err(ServiceFailed(id));
        }
      }
      return Ok(id);
    }

    /**
     Removes a service, stopping it first if it runs; its dependents are not
     consulted, and a stop that throws changes nothing but the failure list.
     */
    method Unregister(id: string) returns (removed: bool)
      requires Valid()
      modifies this`order, this`byId, this`services, this`log
      ensures Valid()
      ensures removed <==> id in old(byId)
      ensures order == Without(old(order), [id]) && byId == old(byId) - {id}
      ensures if removed && IsIn(old(services), id, Started)
        then services == old(services)[id := Stopped] && log == old(log) + [Stop(old(byId)[id], old(services))]
        else services == old(services) && log == old(log)
    {
      hide RegistryOk;
      RemoveFromRegistry(order, byId, id);
      if id !in byId {
        return false;
      }
      if id in services && services[id] == Started {
        log := log + [Stop(byId[id], services)];
        services := services[id := Stopped];
      }
      byId := byId - {id};
      order := Without(order, [id]);
      return true;
    }

    /** A start pass over the order of a valid graph. */
    method StartInOrder(ids: seq<string>, fails: set<string>) returns (r: Result<seq<string>, HostError>)
      requires Valid() && GraphOk(order, byId) && IsTopological(GraphOf(NodesOf(order, byId)), ids)
      modifies this`services, this`log
      ensures Valid()
      ensures var k := FirstFailure(ids, fails);
        && r == (if k == |ids| then Ok(ids) else Err(ServiceFailed(ids[k])))
        && services == StateAfterStart(old(services), ids, k)
        && old(log) <= log && EventIds(log[|old(log)|..]) == ids[..k]
      ensures r.Ok? <==> byId.Keys !! fails
      ensures r.Ok? ==> r.value == ids && forall id :: id in byId ==> IsIn(services, id, Started)
    {
      OrderIsStartable(order, byId, ids);
      FullPass(services, ids, fails, byId);
      hide *;
      r := StartServices(ids, fails);
    }

    /** A stop pass in the reverse of a valid graph's order. */
    method StopInReverse(ids: seq<string>, fails: set<string>) returns (stopped: seq<string>, errors: seq<string>)
      requires Valid() && GraphOk(order, byId) && IsTopological(GraphOf(NodesOf(order, byId)), ids)
      modifies this`services, this`log
      ensures Valid()
      ensures services == StateAfterStop(old(services), Reverse(ids), fails)
      ensures forall id :: id in byId ==> IsIn(services, id, if id in fails then Failed else Stopped)
      ensures forall id :: id in Reverse(ids) ==> id in byId
      ensures log == old(log) + StopEvents(old(services), byId, Reverse(ids), fails)
      ensures forall e :: e in StopEvents(old(services), byId, Reverse(ids), fails) ==> StopJustified(e, byId)
    {
      NodeNames(order, byId);
      ReverseElements(ids);
      FullPass(services, Reverse(ids), fails, byId);
      StopEventsJustified(services, order, byId, ids, fails);
      hide *;
      stopped, errors := StopServices(Reverse(ids), fails);
    }

    /** Runtime first, then every registered service in dependency order. */
    method StartAll(runtimeReady: bool, fails: set<string>) returns (r: Result<seq<string>, HostError>)
      requires Valid()
      modifies this`state, this`transitions, this`services, this`log
      ensures Valid()
      ensures r.Ok? <==> runtimeReady && GraphOk(order, byId) && byId.Keys !! fails
      ensures r.Ok? ==> state == Ready && forall id :: id in byId ==> IsIn(services, id, Started)
      ensures r.Ok? ==> LeastTopological(GraphOf(NodesOf(order, byId)), IndexOf(NodesOf(order, byId)), r.value)
      ensures r.Err? ==> state == HostFailed
      ensures transitions == old(transitions) + [Starting, state]
      ensures !runtimeReady ==> r == Err(RuntimeFailed)
      ensures runtimeReady && !GraphOk(order, byId) ==> r == Err(InvalidGraph)
      ensures r.Err? && runtimeReady && GraphOk(order, byId) ==> exists ids, k ::
        LeastTopological(GraphOf(NodesOf(order, byId)), IndexOf(NodesOf(order, byId)), ids)
        && 0 <= k < |ids| && ids[k] in fails && (forall i :: 0 <= i < k ==> ids[i] !in fails)
        && r == Err(ServiceFailed(ids[k]))
      ensures !(runtimeReady && GraphOk(order, byId)) ==> services == old(services) && log == old(log)
      ensures runtimeReady && GraphOk(order, byId) ==> exists ids ::
        && LeastTopological(GraphOf(NodesOf(order, byId)), IndexOf(NodesOf(order, byId)), ids)
        && services == StateAfterStart(old(services), ids, FirstFailure(ids, fails))
    {
      state := Starting;
      transitions := transitions + [state];
      if !runtimeReady {
        state := HostFailed;
      transitions := transitions + [state];
        return Err(RuntimeFailed);
      }
      var g := Graph();
      if g.Err? {
        state := HostFailed;
      transitions := transitions + [state];
        return g;
      }
      r := StartInOrder(g.value, fails);
      state := if r.Ok? then Ready else HostFailed;
      transitions := transitions + [state];
    }

    /** Every registered service is stopped once, on a valid graph dependents first. */
    method StopAll(fails: set<string>) returns (stopped: seq<string>, errors: seq<string>, ghost attempted: seq<string>)
      requires Valid()
      modifies this`services, this`log
      ensures Valid()
      ensures Distinct(attempted) && forall id :: id in attempted <==> id in byId
      ensures !GraphOk(order, byId) ==> attempted == Reverse(order)
      ensures log == old(log) + StopEvents(old(services), byId, attempted, fails)
      ensures GraphOk(order, byId) ==>
        forall e :: e in StopEvents(old(services), byId, attempted, fails) ==> StopJustified(e, byId)
      ensures services == StateAfterStop(old(services), attempted, fails)
      ensures stopped == KeepOnly(attempted, byId.Keys - fails) && errors == KeepOnly(attempted, fails)
      ensures errors == [] <==> byId.Keys !! fails
    {
      var g := Graph();
      var ids := Reverse(if g.Ok? then g.value else order);
      ReverseElements(if g.Ok? then g.value else order);
      if g.Ok? {
        NodeNames(order, byId);
        StopEventsJustified(services, order, byId, g.value, fails);
      }
      attempted := ids;
      stopped, errors := StopServices(ids, fails);
      NoneKept(ids, byId.Keys, fails);
    }

    /** The services are stopped first, then the runtime, which may throw. */
    method Shutdown(runtimeStops: bool, fails: set<string>)
      returns (r: Result<ShutdownReport, HostError>, ghost attempted: seq<string>)
      requires Valid()
      modifies this`state, this`transitions, this`services, this`log
      ensures Valid()
      ensures Distinct(attempted) && forall id :: id in attempted <==> id in byId
      ensures !GraphOk(order, byId) ==> attempted == Reverse(order)
      ensures log == old(log) + StopEvents(old(services), byId, attempted, fails)
      ensures GraphOk(order, byId) ==>
        forall e :: e in StopEvents(old(services), byId, attempted, fails) ==> StopJustified(e, byId)
      ensures services == StateAfterStop(old(services), attempted, fails)
      ensures if runtimeStops then r.Ok? && state == HostStopped else r == Err(RuntimeFailed) && state == ShuttingDown
      ensures transitions == old(transitions) + if runtimeStops then [ShuttingDown, HostStopped] else [ShuttingDown]
      ensures r.Ok? ==>
        && r.value.stopped == KeepOnly(attempted, byId.Keys - fails)
        && r.value.errors == KeepOnly(attempted, fails)
        && (r.value.ok <==> byId.Keys !! fails)
    {
      hide *;
      state := ShuttingDown;
      transitions := transitions + [state];
      var stopped, errors;
      stopped, errors, attempted := StopAll(fails);
      if !runtimeStops {
        return Err(RuntimeFailed), attempted;
      }
      state := HostStopped;
      transitions := transitions + [state];
      r := Ok(ShutdownReport(|errors| == 0, stopped, errors));
    }

    /** The log shows a stop of everything in reverse order and a start in order, as far as it came. */
    ghost predicate Restarted(was: States, before: seq<Event>, ids: seq<string>, r: Result<seq<string>, HostError>,
                              runtimeRestarts: bool, stopFails: set<string>, startFails: set<string>)
      requires forall id :: id in Reverse(ids) ==> id in byId
      reads this`services, this`log, this`byId
    {
      var stops := StopEvents(was, byId, Reverse(ids), stopFails);
      var down := StateAfterStop(was, Reverse(ids), stopFails);
      var k := if runtimeRestarts then FirstFailure(ids, startFails) else 0;
      && (forall e :: e in stops ==> StopJustified(e, byId))
      && before + stops <= log && EventIds(log[|before + stops|..]) == ids[..k]
      && r == (if !runtimeRestarts then Err(RuntimeFailed)
               else if k == |ids| then Ok(ids)
               else Err(ServiceFailed(ids[k])))
      && services == if runtimeRestarts then StateAfterStart(down, ids, k) else down
    }

    /** Stops everything, and starts it again if the runtime restarts. */
    method StopAndStart(ids: seq<string>, runtimeRestarts: bool, stopFails: set<string>, startFails: set<string>)
      returns (r: Result<seq<string>, HostError>)
      requires Valid() && GraphOk(order, byId)
      requires LeastTopological(GraphOf(NodesOf(order, byId)), IndexOf(NodesOf(order, byId)), ids)
      modifies this`services, this`log
      ensures Valid()
      ensures forall id :: id in Reverse(ids) ==> id in byId
      ensures Restarted(old(services), old(log), ids, r, runtimeRestarts, stopFails, startFails)
      ensures r.Ok? ==> forall id :: id in byId ==> IsIn(services, id, Started)
    {
      assert IsTopological(GraphOf(NodesOf(order, byId)), ids);
      var stopped, errors := StopInReverse(ids, stopFails);
      hide StateAfterStart, StateAfterStop, StopEvents, FirstFailure, EventIds, GraphOk, LeastTopological;
      hide StopJustified;
      if !runtimeRestarts {
        r := Err(RuntimeFailed);
        assert log[|log|..] == [];
        NoEvents();
        return;
      }
      r := StartInOrder(ids, startFails);
    }

    /**
     Stops everything in reverse order, rebuilds the runtime, starts everything again in
     order; the log shows just that, as far as the restart came.
     */
    method Restart(runtimeRestarts: bool, stopFails: set<string>, startFails: set<string>)
      returns (r: Result<seq<string>, HostError>, ghost ids: seq<string>)
      requires Valid()
      modifies this`state, this`transitions, this`services, this`log
      ensures Valid()
      ensures state == if r.Ok? then Ready else HostFailed
      ensures transitions == old(transitions) + [Restarting, state]
      ensures !GraphOk(order, byId) ==> r == Err(InvalidGraph) && services == old(services) && log == old(log)
      ensures GraphOk(order, byId) ==>
        && LeastTopological(GraphOf(NodesOf(order, byId)), IndexOf(NodesOf(order, byId)), ids)
        && (forall id :: id in Reverse(ids) ==> id in byId)
        && Restarted(old(services), old(log), ids, r, runtimeRestarts, stopFails, startFails)
      ensures r.Ok? ==> forall id :: id in byId ==> IsIn(services, id, Started)
    {
      hide *;
      state := Restarting;
      transitions := transitions + [state];
      ids := [];
      r := Graph();
      if r.Ok? {
        ids := r.value;
        r := StopAndStart(r.value, runtimeRestarts, stopFails, startFails);
      }
      state := if r.Ok? then Ready else HostFailed;
      transitions := transitions + [state];
    }
  }
}
