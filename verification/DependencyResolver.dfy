/**
 The load order of extensions, src/application/extensions/dependencyResolver.js:
 a coloured depth-first search whose finishing order is the load order.
 Version matching and platform compatibility are parameters.
 */
module DependencyResolver {
  import opened Wrappers
  import opened Graph
  import DependencyGraph

  /** `dependencies` lists the entries of a JavaScript object: its keys do not repeat. */
  datatype Manifest = Manifest(id: string, version: string, dependencies: seq<(string, string)>)

  datatype ResolveError =
    | DuplicateId(id: string)
    | Incompatible(id: string)
    | MissingDependency(id: string, dependency: string)
    | VersionMismatch(id: string, dependency: string, range: string, version: string)
    | Cycle(path: seq<string>)

  function Ids(ms: seq<Manifest>): seq<string> {
    seq(|ms|, i requires 0 <= i < |ms| => ms[i].id)
  }

  function ById(ms: seq<Manifest>): map<string, Manifest> {
    if ms == [] then map[]
    else ById(ms[..|ms| - 1])[ms[|ms| - 1].id := ms[|ms| - 1]]
  }

  function Keys(entries: seq<(string, string)>): seq<string> {
    seq(|entries|, i requires 0 <= i < |entries| => entries[i].0)
  }

  function Requirements(byId: map<string, Manifest>): Graph {
    map id | id in byId :: Keys(byId[id].dependencies)
  }

  function GraphOf(ms: seq<Manifest>): Graph {
    Requirements(ById(ms))
  }

  function DuplicateErrors(ms: seq<Manifest>): seq<ResolveError> {
    if ms == [] then []
    else
      var last := ms[|ms| - 1];
      DuplicateErrors(ms[..|ms| - 1])
      + if last.id in Ids(ms[..|ms| - 1]) then [DuplicateId(last.id)] else []
  }

  function CompatibilityErrors(ms: seq<Manifest>, compatible: Manifest -> bool): seq<ResolveError> {
    if ms == [] then []
    else
      CompatibilityErrors(ms[..|ms| - 1], compatible)
      + if compatible(ms[|ms| - 1]) then [] else [Incompatible(ms[|ms| - 1].id)]
  }

  /** What is wrong with one requirement, if anything. */
  function EntryError(id: string, entry: (string, string), byId: map<string, Manifest>,
                      satisfies: (string, string) -> bool): seq<ResolveError> {
    if entry.0 !in byId then [MissingDependency(id, entry.0)]
    else if !satisfies(byId[entry.0].version, entry.1) then
      [VersionMismatch(id, entry.0, entry.1, byId[entry.0].version)]
    else []
  }

  function EntryErrors(id: string, entries: seq<(string, string)>, byId: map<string, Manifest>,
                       satisfies: (string, string) -> bool): seq<ResolveError> {
    if entries == [] then []
    else
      EntryErrors(id, entries[..|entries| - 1], byId, satisfies)
      + EntryError(id, entries[|entries| - 1], byId, satisfies)
  }

  function RequirementErrors(ms: seq<Manifest>, byId: map<string, Manifest>,
                             satisfies: (string, string) -> bool): seq<ResolveError> {
    if ms == [] then []
    else
      var last := ms[|ms| - 1];
      RequirementErrors(ms[..|ms| - 1], byId, satisfies)
      + EntryErrors(last.id, last.dependencies, byId, satisfies)
  }

  /** Everything reported before the search starts. */
  function Complaints(ms: seq<Manifest>, compatible: Manifest -> bool,
                      satisfies: (string, string) -> bool): seq<ResolveError> {
    DuplicateErrors(ms) + CompatibilityErrors(ms, compatible) + RequirementErrors(ms, ById(ms), satisfies)
  }

  /** The required extension is present, in a version the range admits. */
  ghost predicate EntryOk(entry: (string, string), byId: map<string, Manifest>, satisfies: (string, string) -> bool) {
    entry.0 in byId && satisfies(byId[entry.0].version, entry.1)
  }

  /** What a set of manifests must satisfy apart from having no cycle. */
  ghost predicate Consistent(ms: seq<Manifest>, compatible: Manifest -> bool, satisfies: (string, string) -> bool) {
    && Distinct(Ids(ms))
    && (forall m :: m in ms ==> compatible(m))
    && forall m, e :: m in ms && e in m.dependencies ==> EntryOk(e, ById(ms), satisfies)
  }

  // ---- the checks before the search --------------------------------------------

  lemma {:induction false} DuplicatesDetected(ms: seq<Manifest>)
    ensures DuplicateErrors(ms) == [] <==> Distinct(Ids(ms))
  {
    if ms != [] {
      var init := ms[..|ms| - 1];
      DuplicatesDetected(init);
      assert Ids(ms) == Ids(init) + [ms[|ms| - 1].id];
      DistinctAppend(Ids(init), ms[|ms| - 1].id);
    }
  }

  lemma {:induction false} IncompatibilityDetected(ms: seq<Manifest>, compatible: Manifest -> bool)
    ensures CompatibilityErrors(ms, compatible) == [] <==> forall m :: m in ms ==> compatible(m)
  {
    if ms != [] {
      IncompatibilityDetected(ms[..|ms| - 1], compatible);
      assert ms == ms[..|ms| - 1] + [ms[|ms| - 1]];
    }
  }

  lemma {:induction false} EntryErrorsDetected(id: string, entries: seq<(string, string)>, byId: map<string, Manifest>,
                                               satisfies: (string, string) -> bool)
    ensures EntryErrors(id, entries, byId, satisfies) == [] <==>
      forall e :: e in entries ==> EntryOk(e, byId, satisfies)
  {
    if entries != [] {
      var init, last := entries[..|entries| - 1], entries[|entries| - 1];
      EntryErrorsDetected(id, init, byId, satisfies);
      assert entries == init + [last];
      assert forall e :: e in entries <==> e in init || e == last;
      assert EntryError(id, last, byId, satisfies) == [] <==> EntryOk(last, byId, satisfies);
    }
  }

  lemma {:induction false} RequirementErrorsDetected(ms: seq<Manifest>, byId: map<string, Manifest>,
                                                     satisfies: (string, string) -> bool)
    ensures RequirementErrors(ms, byId, satisfies) == [] <==>
      forall m, e :: m in ms && e in m.dependencies ==> EntryOk(e, byId, satisfies)
  {
    if ms != [] {
      var last := ms[|ms| - 1];
      RequirementErrorsDetected(ms[..|ms| - 1], byId, satisfies);
      EntryErrorsDetected(last.id, last.dependencies, byId, satisfies);
      assert ms == ms[..|ms| - 1] + [last];
      assert last in ms;
    }
  }

  lemma ComplaintsAreExact(ms: seq<Manifest>, compatible: Manifest -> bool, satisfies: (string,
      string) -> bool)
    ensures Complaints(ms, compatible, satisfies) == [] <==> Consistent(ms, compatible, satisfies)
  {
    DuplicatesDetected(ms);
    IncompatibilityDetected(ms, compatible);
    RequirementErrorsDetected(ms, ById(ms), satisfies);
    assert Complaints(ms, compatible, satisfies) == [] <==>
      && DuplicateErrors(ms) == []
      && CompatibilityErrors(ms, compatible) == []
      && RequirementErrors(ms, ById(ms), satisfies) == [];
  }

  // ---- what the complaints say ---------------------------------------------------

  /** A manifest's id that an earlier manifest has too. */
  ghost predicate Repeated(ms: seq<Manifest>, id: string) {
    exists i, j :: 0 <= j < i < |ms| && ms[j].id == ms[i].id == id
  }

  ghost predicate Rejected(ms: seq<Manifest>, compatible: Manifest -> bool, id: string) {
    exists m :: m in ms && m.id == id && !compatible(m)
  }

  /** Some manifest of this id has the entry. */
  ghost predicate Requires(ms: seq<Manifest>, id: string, entry: (string, string)) {
    exists m :: m in ms && m.id == id && entry in m.dependencies
  }

  /** What a complaint about a requirement says is the case. */
  ghost predicate RequirementDeserved(ms: seq<Manifest>, byId: map<string, Manifest>,
                                      satisfies: (string, string) -> bool, x: ResolveError) {
    if x.MissingDependency? then x.dependency !in byId && exists e :: Requires(ms, x.id, e) && e.0 == x.dependency
    else
      && x.VersionMismatch? && Requires(ms, x.id, (x.dependency, x.range))
      && x.dependency in byId && byId[x.dependency].version == x.version && !satisfies(x.version, x.range)
  }

  /** What a complaint says is the case. */
  ghost predicate Deserved(ms: seq<Manifest>, compatible: Manifest -> bool, satisfies: (string, string) -> bool,
                           x: ResolveError) {
    if x.DuplicateId? then Repeated(ms, x.id)
    else if x.Incompatible? then Rejected(ms, compatible, x.id)
    else RequirementDeserved(ms, ById(ms), satisfies, x)
  }

  lemma {:induction false} DuplicatesDeserved(ms: seq<Manifest>)
    ensures forall x :: x in DuplicateErrors(ms) <==> x.DuplicateId? && Repeated(ms, x.id)
  {
    if ms != [] {
      var init, last := ms[..|ms| - 1], ms[|ms| - 1];
      DuplicatesDeserved(init);
      assert ms == init + [last];
      forall id
        ensures Repeated(ms, id) <==> Repeated(init, id) || (last.id == id && id in Ids(init))
      {
        RepeatedStep(init, last, id);
      }
      hide Repeated;
    }
  }

  lemma RepeatedStep(init: seq<Manifest>, last: Manifest, id: string)
    ensures Repeated(init + [last], id) <==> Repeated(init, id) || (last.id == id && id in Ids(init))
  {
    var ms := init + [last];
    if last.id == id && id in Ids(init) {
      var j :| 0 <= j < |init| && Ids(init)[j] == id;
      assert ms[j].id == ms[|init|].id == id;
    }
    if i, j :| 0 <= j < i < |init| && init[j].id == init[i].id == id {
      assert ms[j].id == ms[i].id == id;
    }
    if i, j :| 0 <= j < i < |ms| && ms[j].id == ms[i].id == id {
      assert Ids(init)[j] == id;
    }
  }

  lemma {:induction false} IncompatibilityDeserved(ms: seq<Manifest>, compatible: Manifest -> bool)
    ensures forall x :: x in CompatibilityErrors(ms, compatible) <==> x.Incompatible? && Rejected(ms, compatible, x.id)
  {
    if ms != [] {
      var init, last := ms[..|ms| - 1], ms[|ms| - 1];
      IncompatibilityDeserved(init, compatible);
      assert ms == init + [last] && last in ms;
    }
  }

  lemma {:induction false} EntryErrorsDeserved(id: string, entries: seq<(string, string)>, byId: map<string, Manifest>,
                                               satisfies: (string, string) -> bool)
    ensures forall x :: x in EntryErrors(id, entries, byId, satisfies) <==>
      exists e :: e in entries && x in EntryError(id, e, byId, satisfies)
  {
    if entries != [] {
      hide EntryError;
      var init, last := entries[..|entries| - 1], entries[|entries| - 1];
      EntryErrorsDeserved(id, init, byId, satisfies);
      assert entries == init + [last] && last in entries;
    }
  }

  lemma {:induction false} RequirementErrorsDeserved(ms: seq<Manifest>, byId: map<string, Manifest>,
                                                     satisfies: (string, string) -> bool)
    ensures forall x :: x in RequirementErrors(ms, byId, satisfies) <==>
      exists m, e :: m in ms && e in m.dependencies && x in EntryError(m.id, e, byId, satisfies)
  {
    if ms != [] {
      hide EntryError, EntryErrors;
      var init, last := ms[..|ms| - 1], ms[|ms| - 1];
      RequirementErrorsDeserved(init, byId, satisfies);
      EntryErrorsDeserved(last.id, last.dependencies, byId, satisfies);
      assert ms == init + [last] && last in ms;
    }
  }

  lemma RequirementDeservedExactly(ms: seq<Manifest>, byId: map<string, Manifest>, satisfies: (string, string) -> bool,
                                   x: ResolveError)
    ensures x in RequirementErrors(ms, byId, satisfies) <==> RequirementDeserved(ms, byId, satisfies, x)
  {
    RequirementErrorsDeserved(ms, byId, satisfies);
    hide RequirementErrors;
    if m, e :| m in ms && e in m.dependencies && x in EntryError(m.id, e, byId, satisfies) {
      assert Requires(ms, m.id, e);
    }
    if x.MissingDependency? && RequirementDeserved(ms, byId, satisfies, x) {
      var e :| Requires(ms, x.id, e) && e.0 == x.dependency;
      var m :| m in ms && m.id == x.id && e in m.dependencies;
      assert x in EntryError(m.id, e, byId, satisfies);
    }
    if x.VersionMismatch? && RequirementDeserved(ms, byId, satisfies, x) {
      var m :| m in ms && m.id == x.id && (x.dependency, x.range) in m.dependencies;
      assert x in EntryError(m.id, (x.dependency, x.range), byId, satisfies);
    }
  }

  /** Every complaint states a fact about the manifests, and every such fact is complained about. */
  lemma ComplaintsSay(ms: seq<Manifest>, compatible: Manifest -> bool, satisfies: (string, string) -> bool,
                      x: ResolveError)
    ensures x in Complaints(ms, compatible, satisfies) <==> Deserved(ms, compatible, satisfies, x)
  {
    DuplicatesDeserved(ms);
    IncompatibilityDeserved(ms, compatible);
    RequirementDeservedExactly(ms, ById(ms), satisfies, x);
    hide DuplicateErrors, CompatibilityErrors, RequirementErrors, Repeated, Rejected;
  }

  /** A later manifest replaces an earlier one of its id. */
  lemma {:induction false} LatestWins(ms: seq<Manifest>, id: string) returns (i: nat)
    requires id in ById(ms)
    ensures i < |ms| && ms[i].id == id && ById(ms)[id] == ms[i] && forall j :: i < j < |ms| ==> ms[j].id != id
  {
    i := |ms| - 1;
    if ms[i].id != id {
      i := LatestWins(ms[..|ms| - 1], id);
    }
  }

  /** An extension's edges lead to exactly the known extensions that its latest manifest requires. */
  lemma RequirementEdges(ms: seq<Manifest>, a: string, b: string)
    ensures Edge(GraphOf(ms), a, b) <==>
      a in ById(ms) && b in ById(ms) && exists e :: e in ById(ms)[a].dependencies && e.0 == b
  {
    if a in ById(ms) {
      var entries := ById(ms)[a].dependencies;
      if e :| e in entries && e.0 == b {
        var i :| 0 <= i < |entries| && entries[i] == e;
        assert Keys(entries)[i] == b;
      }
    }
  }

  lemma {:induction false} ByIdKeys(ms: seq<Manifest>)
    ensures forall id :: id in ById(ms) <==> id in Ids(ms)
  {
    if ms != [] {
      ByIdKeys(ms[..|ms| - 1]);
      assert Ids(ms) == Ids(ms[..|ms| - 1]) + [ms[|ms| - 1].id];
    }
  }

  lemma {:induction false} ByIdAt(ms: seq<Manifest>, i: nat)
    requires Distinct(Ids(ms)) && i < |ms|
    ensures ms[i].id in ById(ms) && ById(ms)[ms[i].id] == ms[i]
  {
    if i < |ms| - 1 {
      var init := ms[..|ms| - 1];
      assert Ids(ms) == Ids(init) + [ms[|ms| - 1].id];
      DistinctAppend(Ids(init), ms[|ms| - 1].id);
      ByIdAt(init, i);
      assert Ids(init)[i] == ms[i].id;
    }
  }

  method CheckDuplicates(ms: seq<Manifest>) returns (errors: seq<ResolveError>, byId: map<string, Manifest>)
    ensures errors == DuplicateErrors(ms) && byId == ById(ms)
  {
    errors, byId := [], map[];
    for i := 0 to |ms|
      invariant errors == DuplicateErrors(ms[..i]) && byId == ById(ms[..i])
    {
      assert ms[..i + 1][..i] == ms[..i];
      ByIdKeys(ms[..i]);
      if ms[i].id in byId {
        errors := errors + [DuplicateId(ms[i].id)];
      }
      byId := byId[ms[i].id := ms[i]];
    }
    assert ms[..|ms|] == ms;
  }

  method CheckCompatibility(ms: seq<Manifest>, compatible: Manifest -> bool) returns (errors: seq<ResolveError>)
    ensures errors == CompatibilityErrors(ms, compatible)
  {
    errors := [];
    for i := 0 to |ms|
      invariant errors == CompatibilityErrors(ms[..i], compatible)
    {
      assert ms[..i + 1][..i] == ms[..i];
      if !compatible(ms[i]) {
        errors := errors + [Incompatible(ms[i].id)];
      }
    }
    assert ms[..|ms|] == ms;
  }

  lemma NoEntry(id: string, byId: map<string, Manifest>, satisfies: (string, string) -> bool)
    ensures EntryErrors(id, [], byId, satisfies) == []
  {
  }

  lemma OneMoreEntry(id: string, entries: seq<(string, string)>, k: nat, byId: map<string, Manifest>,
                     satisfies: (string, string) -> bool)
    requires k < |entries|
    ensures EntryErrors(id, entries[..k + 1], byId, satisfies)
      == EntryErrors(id, entries[..k], byId, satisfies) + EntryError(id, entries[k], byId, satisfies)
  {
    hide EntryError;
    assert entries[..k + 1][..k] == entries[..k];
  }

  method CheckRequirements(ms: seq<Manifest>, byId: map<string, Manifest>, satisfies: (string, string) -> bool)
    returns (errors: seq<ResolveError>)
    ensures errors == RequirementErrors(ms, byId, satisfies)
  {
    hide EntryErrors, EntryError;
    errors := [];
    for i := 0 to |ms|
      invariant errors == RequirementErrors(ms[..i], byId, satisfies)
    {
      assert ms[..i + 1][..i] == ms[..i];
      ghost var before := errors;
      var entries := ms[i].dependencies;
      NoEntry(ms[i].id, byId, satisfies);
      for k := 0 to |entries|
        invariant errors == before + EntryErrors(ms[i].id, entries[..k], byId, satisfies)
      {
        hide RequirementErrors;
        OneMoreEntry(ms[i].id, entries, k, byId, satisfies);
        errors := errors + EntryError(ms[i].id, entries[k], byId, satisfies);
      }
      assert entries[..|entries|] == entries;
    }
    assert ms[..|ms|] == ms;
  }

  // ---- the coloured search -------------------------------------------------------

  datatype Color = White | Gray | Black

  class ColourSearch {
    const byId: map<string, Manifest>
    var color: map<string, Color>
    var order: seq<string>
    var cyclePath: Option<seq<string>>
    ghost var unvisited: set<string>

    ghost function Searched(): Graph {
      Requirements(byId)
    }

    /** `open` is the chain of gray nodes; the black ones are listed in `order`. */
    ghost predicate Valid(open: seq<string>)
      reads this
    {
      && SearchState(Searched(), open, order)
      && color.Keys == byId.Keys && unvisited <= byId.Keys
      && (forall n :: n in open ==> n in color && color[n] == Gray)
      && (forall n :: n in order ==> n in color && color[n] == Black)
      && forall n :: n in color ==>
        && (color[n] == Gray ==> n in open)
        && (color[n] == Black ==> n in order)
        && (color[n] == White <==> n in unvisited)
    }

    /** Finished nodes stay finished. */
    ghost predicate Kept(before: seq<string>)
      reads this
    {
      forall n :: n in before ==> n in order
    }

    constructor (byId: map<string, Manifest>)
      ensures Valid([]) && cyclePath == None && order == [] && this.byId == byId
    {
      this.byId := byId;
      color := map id | id in byId :: White;
      order, cyclePath := [], None;
      unvisited := byId.Keys;
    }

    method Open(id: string, ghost below: seq<string>)
      requires Valid(below) && id in color && color[id] == White
      requires below != [] ==> Edge(Searched(), below[|below| - 1], id)
      modifies this`color, this`unvisited
      ensures Valid(below + [id]) && id in old(unvisited) && unvisited == old(unvisited) - {id}
    {
      OpenNode(Searched(), below, order, id);
      color := color[id := Gray];
      unvisited := unvisited - {id};
      assert forall n :: n in below + [id] <==> n in below || n == id;
    }

    method Close(id: string, ghost below: seq<string>)
      requires Valid(below + [id])
      requires forall d :: Edge(Searched(), id, d) ==> d in order
      modifies this`color, this`order
      ensures Valid(below) && order == old(order) + [id]
    {
      assert id in below + [id];
      FinishNode(Searched(), below, order, id);
      DistinctAppend(below, id);
      color := color[id := Black];
      order := order + [id];
    }

    /** Returns true, with the cycle recorded, or finishes `id` after all it requires. */
    method Dfs(id: string, stack: seq<string>, ghost below: seq<string>) returns (hit: bool)
      requires stack == below + [id] && cyclePath == None
      requires Valid(below) && id in color && color[id] == White
      requires below != [] ==> Edge(Searched(), below[|below| - 1], id)
      modifies this
      ensures hit <==> cyclePath.Some?
      ensures hit ==> IsCycle(Searched(), cyclePath.value)
      ensures !hit ==> Valid(below) && Kept(old(order)) && id in order && unvisited <= old(unvisited)
      decreases unvisited, 1
    {
      hide SearchState, Valid;
      Open(id, below);
      ghost var entered := unvisited;
      var deps := Keys(byId[id].dependencies);
      for i := 0 to |deps|
        invariant Valid(stack) && cyclePath == None
        invariant Kept(old(order)) && unvisited <= entered
        invariant forall k :: 0 <= k < i && deps[k] in byId ==> deps[k] in order
      {
        if deps[i] in byId {
          hit := Follow(deps[i], stack);
          if hit {
            return;
          }
        }
      }
      Close(id, below);
      hit := false;
    }

    /** Follows one requirement of the node on top of `stack`. */
    method Follow(depId: string, stack: seq<string>) returns (hit: bool)
      requires stack != [] && Valid(stack) && cyclePath == None
      requires Edge(Searched(), stack[|stack| - 1], depId)
      modifies this
      ensures hit <==> cyclePath.Some?
      ensures hit ==> IsCycle(Searched(), cyclePath.value)
      ensures !hit ==> Valid(stack) && Kept(old(order)) && depId in order && unvisited <= old(unvisited)
      decreases unvisited, 2
    {
      if color[depId] == Gray {
        Record(depId, stack);
        hit := true;
      } else if color[depId] == White {
        hit := Dfs(depId, stack + [depId], stack);
      } else {
        hit := false;
      }
    }

    /** A gray node was met again: the cycle is the chain from it, and it once more. */
    method Record(depId: string, stack: seq<string>)
      requires stack != [] && Valid(stack) && depId in stack
      requires Edge(Searched(), stack[|stack| - 1], depId)
      modifies this`cyclePath
      ensures cyclePath.Some? && IsCycle(Searched(), cyclePath.value)
    {
      var start := DependencyGraph.IndexIn(stack, depId);
      CloseCycle(Searched(), stack, order, start);
      cyclePath := Some((stack + [depId])[start..]);
      assert cyclePath.value == stack[start..] + [depId];
    }
  }

  /** Runs the search from every id in turn until a cycle is found. */
  method LoadOrder(ids: seq<string>, byId: map<string, Manifest>)
    returns (order: seq<string>, cyclePath: Option<seq<string>>)
    requires forall id :: id in ids <==> id in byId
    ensures cyclePath.Some? ==> IsCycle(Requirements(byId), cyclePath.value)
    ensures cyclePath.Some? <==> !Acyclic(Requirements(byId))
    ensures cyclePath == None ==> IsTopological(Requirements(byId), order)
  {
    hide SearchState, Acyclic, IsTopological, IsCycle;
    var search := new ColourSearch(byId);
    ghost var g := Requirements(byId);
    for i := 0 to |ids|
      invariant search.byId == byId && search.Valid([]) && search.cyclePath == None
      invariant forall id :: id in ids[..i] ==> id in search.order
    {
      assert ids[i] in ids;
      if search.color[ids[i]] == White {
        var hit := search.Dfs(ids[i], [ids[i]], []);
        if hit {
          CycleIsReal(g, search.cyclePath.value);
          return search.order, search.cyclePath;
        }
      }
    }
    assert ids[..|ids|] == ids;
    FinishedIsTopological(g, search.order);
    return search.order, None;
  }

  /** The whole resolution: an order exactly for consistent, acyclic sets of manifests. */
  method Resolve(ms: seq<Manifest>, compatible: Manifest -> bool, satisfies: (string, string) -> bool)
    returns (r: Result<seq<string>, seq<ResolveError>>)
    ensures r.Ok? <==> Consistent(ms, compatible, satisfies) && Acyclic(GraphOf(ms))
    ensures r.Ok? ==> IsTopological(GraphOf(ms), r.value)
    ensures r.Err? && Acyclic(GraphOf(ms)) ==> r.error == Complaints(ms, compatible, satisfies)
    ensures !Acyclic(GraphOf(ms)) ==> exists c ::
      IsCycle(GraphOf(ms), c) && r == Err(Complaints(ms, compatible, satisfies) + [Cycle(c)])
  {
    var duplicates, byId := CheckDuplicates(ms);
    var incompatible := CheckCompatibility(ms, compatible);
    var unmet := CheckRequirements(ms, byId, satisfies);
    var errors := duplicates + incompatible + unmet;
    ComplaintsAreExact(ms, compatible, satisfies);
    var ids := DependencyGraph.Unique(Ids(ms));
    DependencyGraph.UniqueElements(Ids(ms));
    ByIdKeys(ms);
    var order, cyclePath := LoadOrder(ids, byId);
    if cyclePath.Some? {
      errors := errors + [Cycle(cyclePath.value)];
    }
    if |errors| > 0 {
      r := Err(errors);
    } else {
      r := Ok(order);
    }
  }

  // ---- the two algorithms ----------------------------------------------------------

  function AsDescriptor(m: Manifest): DependencyGraph.Descriptor {
    DependencyGraph.Descriptor(m.id, Keys(m.dependencies), [])
  }

  function AsDescriptors(ms: seq<Manifest>): seq<DependencyGraph.Descriptor> {
    seq(|ms|, i requires 0 <= i < |ms| => AsDescriptor(ms[i]))
  }

  lemma SameEdgesAsKahn(ms: seq<Manifest>)
    requires Distinct(Ids(ms))
    ensures DependencyGraph.Names(AsDescriptors(ms)) == Ids(ms)
    ensures SameEdges(GraphOf(ms), DependencyGraph.GraphOf(AsDescriptors(ms)))
  {
    var ds := AsDescriptors(ms);
    var g, h := GraphOf(ms), DependencyGraph.GraphOf(ds);
    assert DependencyGraph.Names(ds) == Ids(ms);
    assert g.Keys == h.Keys by {
      ByIdKeys(ms);
      DependencyGraph.TableKeys(ds);
    }
    forall a, b
      ensures Edge(g, a, b) <==> Edge(h, a, b)
    {
      if a in g {
        ByIdKeys(ms);
        var i :| 0 <= i < |ms| && Ids(ms)[i] == a;
        SameRow(ms, i);
        assert SameElements(g[a], h[a]);
      }
    }
  }

  /**
   Given the same extensions, the coloured search and Kahn's loop face the same
   graph: by their contracts they report a cycle on exactly the same inputs, and
   the orders either may return are the same.
   */
  lemma AgreesWithKahn(ms: seq<Manifest>)
    requires Distinct(Ids(ms))
    ensures Acyclic(GraphOf(ms)) <==> Acyclic(DependencyGraph.GraphOf(AsDescriptors(ms)))
    ensures forall order ::
      (IsTopological(GraphOf(ms), order) <==> IsTopological(DependencyGraph.GraphOf(AsDescriptors(ms)), order))
  {
    SameEdgesAsKahn(ms);
    SameEdgesSameWalks(GraphOf(ms), DependencyGraph.GraphOf(AsDescriptors(ms)));
  }

  ghost predicate SameElements(a: seq<string>, b: seq<string>) {
    forall x :: x in a <==> x in b
  }

  lemma {:induction false} SameRow(ms: seq<Manifest>, i: nat)
    requires Distinct(Ids(ms)) && i < |ms|
    ensures ms[i].id in ById(ms) && ms[i].id in DependencyGraph.ByName(AsDescriptors(ms))
    ensures SameElements(
      Keys(ById(ms)[ms[i].id].dependencies),
      DependencyGraph.EdgesOf(DependencyGraph.ByName(AsDescriptors(ms))[ms[i].id]))
  {
    var ds := AsDescriptors(ms);
    assert DependencyGraph.Names(ds) == Ids(ms);
    ByIdAt(ms, i);
    DependencyGraph.TablesAt(ds, i);
    DependencyGraph.UniqueElements(ds[i].dependsOn + ds[i].ports);
    assert ds[i].dependsOn + ds[i].ports == Keys(ms[i].dependencies);
  }
}
