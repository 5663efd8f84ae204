/**
 The deterministic start-up order of src/platform/dependencyGraph.js: Kahn's
 algorithm with a ready list kept sorted by registration index, and the
 depth-first search that names one cycle when the algorithm stalls.
 */
module DependencyGraph {
  import opened Wrappers
  import opened Graph
  import opened KahnTheory

  datatype Descriptor = Descriptor(name: string, dependsOn: seq<string>, ports: seq<string>)

  datatype Issue =
    | Duplicate(kernel: string)
    | Missing(kernel: string, dependency: string)
    | Circular(nodes: seq<string>)

  datatype GraphResult = GraphResult(
    ok: bool,
    order: seq<string>,
    shutdownOrder: seq<string>,
    issues: seq<Issue>,
    cycle: Option<seq<string>>)

  /** The elements of `s` in order of first occurrence, as a JavaScript Set keeps them. */
  function Unique(s: seq<string>): seq<string> {
    if s == [] then []
    else
      var r := Unique(s[..|s| - 1]);
      if s[|s| - 1] in r then r else r + [s[|s| - 1]]
  }

  lemma {:induction false} UniqueElements(s: seq<string>)
    ensures Distinct(Unique(s)) && forall x :: x in Unique(s) <==> x in s
  {
    if s != [] {
      UniqueElements(s[..|s| - 1]);
      assert s == s[..|s| - 1] + [s[|s| - 1]];
    }
  }

  /** Each element once, where it occurs first. */
  lemma {:induction false} UniqueInOrder(s: seq<string>) returns (at: seq<nat>)
    ensures |at| == |Unique(s)|
    ensures forall k :: 0 <= k < |at| ==> at[k] < |s| && s[at[k]] == Unique(s)[k] && s[at[k]] !in s[..at[k]]
    ensures forall k, l :: 0 <= k < l < |at| ==> at[k] < at[l]
  {
    at := [];
    if s != [] {
      var last := |s| - 1;
      UniqueElements(s[..last]);
      at := UniqueInOrder(s[..last]);
      assert forall k :: 0 <= k < |at| ==> s[..last][..at[k]] == s[..at[k]];
      if s[last] !in Unique(s[..last]) {
        at := at + [last];
      }
    }
  }

  function EdgesOf(d: Descriptor): seq<string> {
    Unique(d.dependsOn + d.ports)
  }

  function Names(ds: seq<Descriptor>): seq<string> {
    seq(|ds|, i requires 0 <= i < |ds| => ds[i].name)
  }

  function NameSet(ds: seq<Descriptor>): set<string> {
    set n | n in Names(ds)
  }

  /** Name to descriptor; a later registration of a name replaces an earlier one. */
  function ByName(ds: seq<Descriptor>): map<string, Descriptor> {
    if ds == [] then map[]
    else
      var last := ds[|ds| - 1];
      ByName(ds[..|ds| - 1])[last.name := last]
  }

  /** Name to the registration index that breaks ties. */
  function IndexOf(ds: seq<Descriptor>): map<string, int> {
    if ds == [] then map[]
    else IndexOf(ds[..|ds| - 1])[ds[|ds| - 1].name := |ds| - 1]
  }

  lemma {:induction false} TableKeys(ds: seq<Descriptor>)
    ensures ByName(ds).Keys == IndexOf(ds).Keys == NameSet(ds)
  {
    if ds != [] {
      TableKeys(ds[..|ds| - 1]);
      assert Names(ds) == Names(ds[..|ds| - 1]) + [ds[|ds| - 1].name];
    }
  }

  function Edges(byName: map<string, Descriptor>): Graph {
    map n | n in byName :: EdgesOf(byName[n])
  }

  function GraphOf(ds: seq<Descriptor>): Graph {
    Edges(ByName(ds))
  }

  /** The dependency lists as declared, repetitions included. */
  function Declared(byName: map<string, Descriptor>): Graph {
    map n | n in byName :: byName[n].dependsOn + byName[n].ports
  }

  lemma DeclaredHasSameEdges(byName: map<string, Descriptor>)
    ensures SameEdges(Declared(byName), Edges(byName))
  {
    forall a, b
      ensures Edge(Declared(byName), a, b) <==> Edge(Edges(byName), a, b)
    {
      if a in byName {
        UniqueElements(byName[a].dependsOn + byName[a].ports);
      }
    }
  }

  /** Every dependency and port names a registered kernel. */
  ghost predicate Resolves(ds: seq<Descriptor>) {
    forall d, e :: d in ds && e in EdgesOf(d) ==> e in Names(ds)
  }

  function Duplicates(ds: seq<Descriptor>): seq<Issue> {
    if ds == [] then []
    else
      var last := ds[|ds| - 1];
      Duplicates(ds[..|ds| - 1])
      + if last.name in Names(ds[..|ds| - 1]) then [Duplicate(last.name)] else []
  }

  function MissingIn(kernel: string, deps: seq<string>, known: set<string>): seq<Issue> {
    if deps == [] then []
    else
      MissingIn(kernel, deps[..|deps| - 1], known)
      + if deps[|deps| - 1] in known then [] else [Missing(kernel, deps[|deps| - 1])]
  }

  function AllMissing(ds: seq<Descriptor>, known: set<string>): seq<Issue> {
    if ds == [] then []
    else
      AllMissing(ds[..|ds| - 1], known)
      + MissingIn(ds[|ds| - 1].name, EdgesOf(ds[|ds| - 1]), known)
  }

  function Reverse(s: seq<string>): seq<string> {
    if s == [] then [] else [s[|s| - 1]] + Reverse(s[..|s| - 1])
  }

  lemma {:induction false} ReverseAt(s: seq<string>, i: nat)
    requires i < |s|
    ensures |Reverse(s)| == |s| && Reverse(s)[i] == s[|s| - 1 - i]
  {
    if i > 0 {
      ReverseAt(s[..|s| - 1], i - 1);
    } else if |s| > 1 {
      ReverseAt(s[..|s| - 1], 0);
    }
  }

  function Without(s: seq<string>, gone: seq<string>): seq<string> {
    if s == [] then []
    else Without(s[..|s| - 1], gone) + if s[|s| - 1] in gone then [] else [s[|s| - 1]]
  }

  lemma {:induction false} WithoutElements(s: seq<string>, gone: seq<string>)
    ensures forall x :: x in Without(s, gone) <==> x in s && x !in gone
  {
    if s != [] {
      WithoutElements(s[..|s| - 1], gone);
      assert s == s[..|s| - 1] + [s[|s| - 1]];
    }
  }

  lemma {:induction false} WithoutNothingLeft(s: seq<string>, gone: seq<string>)
    requires forall x :: x in s ==> x in gone
    ensures Without(s, gone) == []
  {
    if s != [] {
      WithoutNothingLeft(s[..|s| - 1], gone);
    }
  }

  // ---- what the tables mean ------------------------------------------------

  lemma {:induction false} TablesAt(ds: seq<Descriptor>, i: nat)
    requires Distinct(Names(ds)) && i < |ds|
    ensures ds[i].name in ByName(ds) && ByName(ds)[ds[i].name] == ds[i]
    ensures ds[i].name in IndexOf(ds) && IndexOf(ds)[ds[i].name] == i
    decreases |ds|
  {
    var init := ds[..|ds| - 1];
    assert Names(ds)[i] == ds[i].name;
    if i < |ds| - 1 {
      assert Names(ds)[|ds| - 1] == ds[|ds| - 1].name;
      assert Names(init) == Names(ds)[..|ds| - 1];
      assert forall a, b :: 0 <= a < b < |init| ==> Names(init)[a] == Names(ds)[a] && Names(init)[b] == Names(ds)[b];
      TablesAt(init, i);
    }
  }

  /** The tables hold the latest registration of a name. */
  lemma {:induction false} LatestWins(ds: seq<Descriptor>, n: string) returns (i: nat)
    requires n in ByName(ds) || n in IndexOf(ds)
    ensures i < |ds| && ds[i].name == n && (forall j :: i < j < |ds| ==> ds[j].name != n)
    ensures n in ByName(ds) && ByName(ds)[n] == ds[i] && n in IndexOf(ds) && IndexOf(ds)[n] == i
  {
    i := |ds| - 1;
    if ds[i].name != n {
      i := LatestWins(ds[..|ds| - 1], n);
    }
  }

  ghost predicate TakenBefore(ds: seq<Descriptor>, i: nat)
    requires i < |ds|
  {
    exists j :: 0 <= j < i && ds[j].name == ds[i].name
  }

  /** The issues name, in registration order, the descriptors whose name was taken already. */
  ghost predicate DuplicatesAt(ds: seq<Descriptor>, issues: seq<Issue>, at: seq<nat>) {
    && |at| == |issues|
    && (forall k :: 0 <= k < |at| ==> at[k] < |ds| && issues[k] == Duplicate(ds[at[k]].name))
    && (forall k, l :: 0 <= k < l < |at| ==> at[k] < at[l])
    && (forall i :: 0 <= i < |ds| ==> (i in at <==> TakenBefore(ds, i)))
  }

  lemma TakenIsListed(ds: seq<Descriptor>, i: nat)
    requires i < |ds|
    ensures TakenBefore(ds, i) <==> ds[i].name in Names(ds[..i])
  {
    if j :| 0 <= j < i && ds[j].name == ds[i].name {
      assert Names(ds[..i])[j] == ds[i].name;
    }
  }

  lemma TakenInPrefix(ds: seq<Descriptor>, i: nat)
    requires i < |ds| - 1
    ensures TakenBefore(ds, i) <==> TakenBefore(ds[..|ds| - 1], i)
  {
    TakenIsListed(ds, i);
    TakenIsListed(ds[..|ds| - 1], i);
    assert ds[..|ds| - 1][..i] == ds[..i];
  }

  lemma OneMoreDuplicate(ds: seq<Descriptor>, issues: seq<Issue>, at: seq<nat>)
    requires ds != [] && DuplicatesAt(ds[..|ds| - 1], issues, at)
    ensures var last := |ds| - 1;
      if TakenBefore(ds, last) then DuplicatesAt(ds, issues + [Duplicate(ds[last].name)], at + [last])
      else DuplicatesAt(ds, issues, at)
  {
    hide TakenBefore;
    var last := |ds| - 1;
    var longer := if TakenBefore(ds, last) then at + [last] else at;
    forall i | 0 <= i < |ds|
      ensures i in longer <==> TakenBefore(ds, i)
    {
      if i < last {
        TakenInPrefix(ds, i);
        assert i in longer <==> i in at;
      } else if TakenBefore(ds, last) {
        assert longer[|at|] == last;
      }
    }
  }

  lemma {:induction false} DuplicatesAre(ds: seq<Descriptor>) returns (at: seq<nat>)
    ensures DuplicatesAt(ds, Duplicates(ds), at)
  {
    at := [];
    if ds != [] {
      var last := |ds| - 1;
      at := DuplicatesAre(ds[..last]);
      OneMoreDuplicate(ds, Duplicates(ds[..last]), at);
      TakenIsListed(ds, last);
      hide DuplicatesAt, TakenBefore, Names;
      if ds[last].name in Names(ds[..last]) {
        at := at + [last];
      }
    }
  }

  /** Some descriptor of this name depends on, or is ported to, a name that nobody has. */
  ghost predicate Dangling(ds: seq<Descriptor>, known: set<string>, n: string, e: string) {
    exists d :: d in ds && d.name == n && e in d.dependsOn + d.ports && e !in known
  }

  lemma {:induction false} MissingInAre(kernel: string, deps: seq<string>, known: set<string>)
    ensures forall x :: x in MissingIn(kernel, deps, known) <==>
      x.Missing? && x.kernel == kernel && x.dependency in deps && x.dependency !in known
  {
    if deps != [] {
      MissingInAre(kernel, deps[..|deps| - 1], known);
      assert deps == deps[..|deps| - 1] + [deps[|deps| - 1]];
    }
  }

  /** The missing-dependency issues are exactly the dangling dependencies, each with its own kernel. */
  lemma {:induction false} MissingAre(ds: seq<Descriptor>, known: set<string>)
    ensures forall x :: x in AllMissing(ds, known) <==> x.Missing? && Dangling(ds, known, x.kernel, x.dependency)
  {
    if ds != [] {
      var init, last := ds[..|ds| - 1], ds[|ds| - 1];
      MissingAre(init, known);
      MissingInAre(last.name, EdgesOf(last), known);
      UniqueElements(last.dependsOn + last.ports);
      assert ds == init + [last];
      forall n, e
        ensures Dangling(ds, known, n, e) <==>
          (Dangling(init, known, n, e) || (last.name == n && e in last.dependsOn + last.ports && e !in known))
      {
        DanglingStep(init, last, known, n, e);
      }
      hide Dangling, MissingIn, EdgesOf;
    }
  }

  lemma DanglingStep(init: seq<Descriptor>, last: Descriptor, known: set<string>, n: string, e: string)
    ensures Dangling(init + [last], known, n, e) <==>
      (Dangling(init, known, n, e) || (last.name == n && e in last.dependsOn + last.ports && e !in known))
  {
    assert last in init + [last];
    forall d | d in init
      ensures d in init + [last]
    {
    }
  }

  /** The missing-dependency issues come in the order in which their kernels were registered. */
  lemma {:induction false} MissingInOrder(ds: seq<Descriptor>, known: set<string>) returns (at: seq<nat>)
    ensures |at| == |AllMissing(ds, known)|
    ensures forall k :: 0 <= k < |at| ==>
      at[k] < |ds| && AllMissing(ds, known)[k].Missing? && AllMissing(ds, known)[k].kernel == ds[at[k]].name
    ensures forall k, l :: 0 <= k < l < |at| ==> at[k] <= at[l]
  {
    at := [];
    if ds != [] {
      var init, last := ds[..|ds| - 1], ds[|ds| - 1];
      var before := MissingInOrder(init, known);
      var here := MissingIn(last.name, EdgesOf(last), known);
      MissingInAre(last.name, EdgesOf(last), known);
      assert forall k :: 0 <= k < |here| ==> here[k] in here;
      at := before + seq(|here|, i => |init|);
    }
  }

  /** The issues name exactly the names registered twice and the dangling dependencies. */
  ghost predicate NamesRight(ds: seq<Descriptor>, issues: seq<Issue>) {
    && (forall n :: Duplicate(n) in issues <==> exists i :: 0 <= i < |ds| && ds[i].name == n && TakenBefore(ds, i))
    && (forall n, e :: Missing(n, e) in issues <==> Dangling(ds, NameSet(ds), n, e))
  }

  lemma NamingIssuesAreRight(ds: seq<Descriptor>)
    ensures NamesRight(ds, NamingIssues(ds))
    ensures forall x :: x in NamingIssues(ds) ==> !x.Circular?
  {
    var at := DuplicatesAre(ds);
    MissingAre(ds, NameSet(ds));
    var first, second := Duplicates(ds), AllMissing(ds, NameSet(ds));
    forall n
      ensures Duplicate(n) in first <==> exists i :: 0 <= i < |ds| && ds[i].name == n && TakenBefore(ds, i)
    {
      if i :| 0 <= i < |ds| && ds[i].name == n && TakenBefore(ds, i) {
        var k :| 0 <= k < |at| && at[k] == i;
        assert first[k] == Duplicate(n);
      }
    }
    hide Duplicates, AllMissing, TakenBefore, Dangling;
  }

  lemma {:induction false} DuplicatesDetected(ds: seq<Descriptor>)
    ensures Duplicates(ds) == [] <==> Distinct(Names(ds))
  {
    if ds != [] {
      var init := ds[..|ds| - 1];
      DuplicatesDetected(init);
      assert Names(ds) == Names(init) + [ds[|ds| - 1].name];
      DistinctAppend(Names(init), ds[|ds| - 1].name);
    }
  }

  lemma {:induction false} MissingInDetected(kernel: string, deps: seq<string>, known: set<string>)
    ensures MissingIn(kernel, deps, known) == [] <==> forall e :: e in deps ==> e in known
  {
    if deps != [] {
      MissingInDetected(kernel, deps[..|deps| - 1], known);
      assert deps == deps[..|deps| - 1] + [deps[|deps| - 1]];
    }
  }

  lemma {:induction false} AllMissingDetected(ds: seq<Descriptor>, known: set<string>)
    ensures AllMissing(ds, known) == [] <==> forall d, e :: d in ds && e in EdgesOf(d) ==> e in known
  {
    if ds != [] {
      var last := ds[|ds| - 1];
      AllMissingDetected(ds[..|ds| - 1], known);
      MissingInDetected(last.name, EdgesOf(last), known);
      assert ds == ds[..|ds| - 1] + [last];
      assert last in ds;
    }
  }

  lemma MissingDetected(ds: seq<Descriptor>)
    ensures ByName(ds).Keys == NameSet(ds)
    ensures AllMissing(ds, NameSet(ds)) == [] <==> Resolves(ds)
  {
    TableKeys(ds);
    AllMissingDetected(ds, NameSet(ds));
    assert forall e :: e in NameSet(ds) <==> e in Names(ds);
  }

  // ---- the algorithm -------------------------------------------------------

  /** First pass: the lookup tables and the duplicate registrations. */
  method Register(ds: seq<Descriptor>)
    returns (issues: seq<Issue>, index: map<string, int>, byName: map<string, Descriptor>)
    ensures issues == Duplicates(ds) && index == IndexOf(ds) && byName == ByName(ds)
  {
    issues, index, byName := [], map[], map[];
    var seen: set<string> := {};
    for i := 0 to |ds|
      invariant issues == Duplicates(ds[..i]) && index == IndexOf(ds[..i]) && byName == ByName(ds[..i])
      invariant forall n :: n in seen <==> n in Names(ds[..i])
    {
      var d := ds[i];
      assert ds[..i + 1][..i] == ds[..i];
      assert Names(ds[..i + 1]) == Names(ds[..i]) + [d.name];
      if d.name in seen {
        issues := issues + [Duplicate(d.name)];
      }
      seen := seen + {d.name};
      index := index[d.name := i];
      byName := byName[d.name := d];
    }
    assert ds[..|ds|] == ds;
  }

  /** Second pass: dependencies and ports that name no registered kernel. */
  method FindMissing(ds: seq<Descriptor>, known: set<string>) returns (issues: seq<Issue>)
    ensures issues == AllMissing(ds, known)
    ensures forall x :: x in issues <==> x.Missing? && Dangling(ds, known, x.kernel, x.dependency)
  {
    MissingAre(ds, known);
    hide Dangling;
    issues := [];
    for i := 0 to |ds|
      invariant issues == AllMissing(ds[..i], known)
    {
      var deps := EdgesOf(ds[i]);
      ghost var before := issues;
      for k := 0 to |deps|
        invariant issues == before + MissingIn(ds[i].name, deps[..k], known)
      {
        assert deps[..k + 1][..k] == deps[..k];
        if deps[k] !in known {
          issues := issues + [Missing(ds[i].name, deps[k])];
        }
      }
      assert deps[..|deps|] == deps;
      assert ds[..i + 1][..i] == ds[..i];
    }
    assert ds[..|ds|] == ds;
  }

  /** The edges of the first `i` descriptors and the first `k` of the next one. */
  ghost predicate CountedUpTo(ds: seq<Descriptor>, i: nat, k: nat, part: Graph) {
    forall j :: 0 <= j < |ds| ==>
      && ds[j].name in part
      && part[ds[j].name] ==
         if j < i then EdgesOf(ds[j])
         else if j == i && k <= |EdgesOf(ds[j])| then EdgesOf(ds[j])[..k]
         else []
  }

  lemma CountedNext(ds: seq<Descriptor>, i: nat, k: nat, part: Graph)
    requires Distinct(Names(ds)) && i < |ds| && k < |EdgesOf(ds[i])|
    requires CountedUpTo(ds, i, k, part)
    ensures CountedUpTo(ds, i, k + 1, part[ds[i].name := part[ds[i].name] + [EdgesOf(ds[i])[k]]])
    ensures EdgesOf(ds[i])[k] !in part[ds[i].name]
  {
    var edges := EdgesOf(ds[i]);
    UniqueElements(ds[i].dependsOn + ds[i].ports);
    assert edges[..k + 1] == edges[..k] + [edges[k]];
    forall j | 0 <= j < |ds| && j != i
      ensures ds[j].name != ds[i].name
    {
      assert Names(ds)[j] == ds[j].name && Names(ds)[i] == ds[i].name;
    }
  }

  lemma CountedRow(ds: seq<Descriptor>, part: Graph, n: string)
    requires Distinct(Names(ds)) && CountedUpTo(ds, |ds|, 0, part)
    requires n in ByName(ds)
    ensures n in part && part[n] == EdgesOf(ByName(ds)[n])
  {
    TableKeys(ds);
    var j :| 0 <= j < |ds| && Names(ds)[j] == n;
    TablesAt(ds, j);
  }

  lemma CountedAll(ds: seq<Descriptor>, part: Graph)
    requires Distinct(Names(ds)) && CountedUpTo(ds, |ds|, 0, part)
    requires part.Keys == ByName(ds).Keys
    ensures part == GraphOf(ds)
  {
    var byName := ByName(ds);
    assert forall n :: n in byName ==> part[n] == EdgesOf(byName[n]) by {
      forall n | n in byName
        ensures part[n] == EdgesOf(byName[n])
      {
        CountedRow(ds, part, n);
      }
    }
    assert part == Edges(byName);
  }

  ghost predicate SameNodes(g: Graph, indeg: map<string, int>, adj: map<string, seq<string>>) {
    && indeg.Keys == adj.Keys == g.Keys
    && forall n, m :: n in adj && m in adj[n] ==> m in indeg
  }

  lemma NameInTable(ds: seq<Descriptor>, i: nat)
    requires i < |ds|
    ensures ds[i].name in ByName(ds)
  {
    TableKeys(ds);
    assert Names(ds)[i] == ds[i].name;
  }

  /** Every registered name with indegree 0 and no dependents; `part` has no edge yet. */
  method EmptyTables(ds: seq<Descriptor>)
    returns (indeg: map<string, int>, adj: map<string, seq<string>>, ghost part: Graph)
    ensures SameNodes(part, indeg, adj) && part.Keys == ByName(ds).Keys
    ensures Counted(part, indeg, adj) && CountedUpTo(ds, 0, 0, part)
  {
    indeg, adj, part := map[], map[], map[];
    for i := 0 to |ds|
      invariant indeg.Keys == adj.Keys == part.Keys == ByName(ds[..i]).Keys
      invariant forall n :: n in indeg ==> indeg[n] == 0 && adj[n] == [] && part[n] == []
    {
      assert ds[..i + 1][..i] == ds[..i];
      indeg := indeg[ds[i].name := 0];
      adj := adj[ds[i].name := []];
      part := part[ds[i].name := []];
    }
    assert ds[..|ds|] == ds;
    forall n | n in part
      ensures |Pending(part, [], n)| == 0
    {
      assert Pending(part, [], n) == {};
    }
    forall j | 0 <= j < |ds|
      ensures ds[j].name in part
    {
      NameInTable(ds, j);
    }
  }

  /** One edge of the third pass; an edge to an unregistered kernel is not counted. */
  method CountEdge(name: string, dep: string, indeg0: map<string, int>, adj0: map<string, seq<string>>,
                   ghost part: Graph)
    returns (indeg: map<string, int>, adj: map<string, seq<string>>)
    requires name in part && SameNodes(part, indeg0, adj0)
    ensures SameNodes(part[name := part[name] + [dep]], indeg, adj)
    ensures part[name := part[name] + [dep]].Keys == part.Keys
    ensures Counted(part, indeg0, adj0) && dep !in part[name]
      ==> Counted(part[name := part[name] + [dep]], indeg, adj)
  {
    indeg, adj := indeg0, adj0;
    if Counted(part, indeg0, adj0) && dep !in part[name] {
      if dep in adj {
        CountOne(part, indeg, adj, name, dep);
      } else {
        CountDangling(part, indeg, adj, name, dep);
      }
    }
    if dep in adj {
      indeg := indeg[name := indeg[name] + 1];
      adj := adj[dep := adj[dep] + [name]];
    }
    assert (part[name := part[name] + [dep]]).Keys == part.Keys;
    assert indeg.Keys == indeg0.Keys && adj.Keys == adj0.Keys;
  }

  /** The edges of the `i`-th descriptor. */
  method CountRow(ds: seq<Descriptor>, i: nat, indeg0: map<string, int>, adj0: map<string, seq<string>>,
                  ghost part0: Graph)
    returns (indeg: map<string, int>, adj: map<string, seq<string>>, ghost part: Graph)
    requires i < |ds| && SameNodes(part0, indeg0, adj0) && ds[i].name in part0
    ensures SameNodes(part, indeg, adj) && part.Keys == part0.Keys
    ensures Distinct(Names(ds)) && Counted(part0, indeg0, adj0) && CountedUpTo(ds, i, 0, part0)
      ==> Counted(part, indeg, adj) && CountedUpTo(ds, i + 1, 0, part)
  {
    hide Counted;
    ghost var exact := Distinct(Names(ds)) && Counted(part0, indeg0, adj0) && CountedUpTo(ds, i, 0, part0);
    indeg, adj, part := indeg0, adj0, part0;
    var name, deps := ds[i].name, EdgesOf(ds[i]);
    for k := 0 to |deps|
      invariant SameNodes(part, indeg, adj) && part.Keys == part0.Keys
      invariant exact ==> Counted(part, indeg, adj) && CountedUpTo(ds, i, k, part)
    {
      if exact {
        CountedNext(ds, i, k, part);
      }
      indeg, adj := CountEdge(name, deps[k], indeg, adj, part);
      part := part[name := part[name] + [deps[k]]];
    }
    assert deps[..|deps|] == deps;
  }

  /** Third pass: indegrees and, for each kernel, the kernels that depend on it. */
  method CountEdges(ds: seq<Descriptor>)
    returns (indeg: map<string, int>, adj: map<string, seq<string>>)
    ensures SameNodes(GraphOf(ds), indeg, adj)
    ensures Distinct(Names(ds)) ==> Counted(GraphOf(ds), indeg, adj)
  {
    hide Counted, CountedUpTo, Distinct;
    ghost var distinct := Distinct(Names(ds));
    ghost var part: Graph;  // the edges counted so far
    indeg, adj, part := EmptyTables(ds);
    for i := 0 to |ds|
      invariant SameNodes(part, indeg, adj) && part.Keys == ByName(ds).Keys
      invariant distinct ==> Counted(part, indeg, adj) && CountedUpTo(ds, i, 0, part)
    {
      NameInTable(ds, i);
      indeg, adj, part := CountRow(ds, i, indeg, adj, part);
    }
    if distinct {
      CountedAll(ds, part);
    }
  }

  /** Puts `name` before the first element whose index is not smaller. */
  method InsertByIndex(ready: seq<string>, name: string, index: map<string, int>) returns (r: seq<string>)
    requires name in index && forall n :: n in ready ==> n in index
    ensures |r| == |ready| + 1 && forall n :: n in r <==> n in ready || n == name
    ensures SortedByIndex(index, ready) && (forall n :: n in ready ==> index[n] != index[name])
      ==> SortedByIndex(index, r)
  {
    var idx := index[name];
    var lo := 0;
    while lo < |ready| && index[ready[lo]] < idx
      invariant 0 <= lo <= |ready|
      invariant forall i :: 0 <= i < lo ==> index[ready[i]] < idx
    {
      lo := lo + 1;
    }
    r := ready[..lo] + [name] + ready[lo..];
    assert ready == ready[..lo] + ready[lo..];
    if SortedByIndex(index, ready) && (forall n :: n in ready ==> index[n] != index[name]) {
      InsertSorted(index, ready, lo, name);
    }
  }

  /** The names with no counted dependency, sorted by index. */
  method InitialReady(names: seq<string>, indeg: map<string, int>, index: map<string, int>)
    returns (ready: seq<string>)
    requires forall n :: n in names ==> n in indeg && n in index
    ensures forall n :: n in ready <==> n in names && indeg[n] == 0
    ensures Distinct(names) && InjectiveOn(index, set n | n in names) ==> SortedByIndex(index, ready)
  {
    ready := [];
    for i := 0 to |names|
      invariant forall n :: n in ready <==> n in names[..i] && indeg[n] == 0
      invariant Distinct(names) && InjectiveOn(index, set n | n in names) ==> SortedByIndex(index, ready)
    {
      if indeg[names[i]] == 0 {
        assert Distinct(names) ==> names[i] !in names[..i];
        ready := InsertByIndex(ready, names[i], index);
      }
    }
  }

  /** Decrements every dependent once; one that reaches zero joins the ready list. */
  method ReleaseDependents(dependents: seq<string>, index: map<string, int>,
                           indeg0: map<string, int>, ready0: seq<string>,
                           ghost g: Graph, ghost order: seq<string>)
    returns (indeg: map<string, int>, ready: seq<string>)
    requires indeg0.Keys == index.Keys
    requires forall n :: n in dependents ==> n in index
    requires forall n :: n in ready0 ==> n in index
    ensures indeg.Keys == index.Keys
    ensures forall n :: n in ready ==> n in index
    ensures |ready| + |Positive(indeg)| == |ready0| + |Positive(indeg0)|
    ensures Settling(g, index, indeg0, order, ready0, dependents) ==> KahnState(g, index, indeg, order, ready)
  {
    ghost var exact := Settling(g, index, indeg0, order, ready0, dependents);
    indeg, ready := indeg0, ready0;
    assert dependents[0..] == dependents;
    for j := 0 to |dependents|
      invariant indeg.Keys == index.Keys
      invariant forall n :: n in ready ==> n in index
      invariant |ready| + |Positive(indeg)| == |ready0| + |Positive(indeg0)|
      invariant exact ==> Settling(g, index, indeg, order, ready, dependents[j..])
    {
      var dependent := dependents[j];
      assert dependents[j..][0] == dependent && dependents[j..][1..] == dependents[j + 1..];
      ghost var indegBefore, readyBefore := indeg, ready;
      PositiveDecrement(indeg, dependent);
      indeg := indeg[dependent := indeg[dependent] - 1];
      if indeg[dependent] == 0 {
        ready := InsertByIndex(ready, dependent, index);
      }
      if exact {
        SettleDependent(g, index, indegBefore, order, readyBefore, dependents[j..], ready);
      }
    }
    assert dependents[|dependents|..] == [];
  }

  /** Kahn's loop. Without duplicate names its result is the greedy order of the graph. */
  method Kahn(names: seq<string>, index: map<string, int>, indeg0: map<string, int>,
              adj: map<string, seq<string>>, ghost g: Graph)
    returns (order: seq<string>)
    requires indeg0.Keys == adj.Keys == index.Keys
    requires forall n :: n in names <==> n in index
    requires forall n, m :: n in adj && m in adj[n] ==> m in indeg0
    ensures Distinct(names) && Counted(g, indeg0, adj) && InjectiveOn(index, g.Keys) ==> Greedy(g, index, order)
  {
    hide InjectiveOn, SortedByIndex, Distinct;
    ghost var exact := Distinct(names) && Counted(g, indeg0, adj) && InjectiveOn(index, g.Keys);
    var indeg := indeg0;
    order := [];
    var ready := InitialReady(names, indeg, index);
    if exact {
      assert (set n | n in names) == g.Keys;
      ReadyAtStart(g, indeg0, adj, index, ready);
    }
    while |ready| > 0
      invariant indeg.Keys == adj.Keys == index.Keys
      invariant forall n :: n in ready ==> n in index
      invariant exact ==> KahnState(g, index, indeg, order, ready)
      decreases |ready| + |Positive(indeg)|
    {
      var name := ready[0];
      assert name in ready;
      if exact {
        EmitNext(g, index, indeg, adj, order, ready);
      }
      ready := ready[1..];
      order := order + [name];
      indeg, ready := ReleaseDependents(adj[name], index, indeg, ready, g, order);
    }
  }

  // ---- cycle detection -------------------------------------------------------

  /** The part of the graph that lies among the given names. */
  function Among(byName: map<string, Descriptor>, names: set<string>): Graph {
    map n | n in byName && n in names :: EdgesOf(byName[n])
  }

  datatype Mark = OnStack | Done

  /** The mutable state shared by the nested searches; an absent mark means unvisited. */
  class CycleSearch {
    const inSet: set<string>
    const byName: map<string, Descriptor>
    var state: map<string, Mark>
    var stack: seq<string>
    var found: Option<seq<string>>
    ghost var finished: seq<string>

    ghost function Searched(): Graph {
      Among(byName, inSet)
    }

    ghost predicate Valid()
      reads this
    {
      && inSet <= byName.Keys
      && SearchState(Searched(), stack, finished)
      && (forall n :: n in state <==> n in stack || n in finished)
      && forall n :: n in state ==> (state[n] == OnStack <==> n in stack)
    }

    /** Finished nodes stay finished. */
    ghost predicate Kept(before: seq<string>)
      reads this
    {
      forall n :: n in before ==> n in finished
    }

    constructor (remaining: seq<string>, byName: map<string, Descriptor>)
      requires forall n :: n in remaining ==> n in byName
      ensures Valid() && found == None && stack == [] && finished == []
      ensures this.byName == byName && inSet == set n | n in remaining
    {
      this.byName := byName;
      inSet := set n | n in remaining;
      state, stack, found := map[], [], None;
      finished := [];
    }

    /** Marks `node` as being explored. */
    method Enter(node: string)
      requires Valid() && node in inSet && node !in state
      requires stack != [] ==> Edge(Searched(), stack[|stack| - 1], node)
      modifies this`state, this`stack
      ensures Valid() && stack == old(stack) + [node] && state.Keys == old(state.Keys) + {node}
    {
      OpenNode(Searched(), stack, finished, node);
      state := state[node := OnStack];
      stack := stack + [node];
    }

    /** Marks the node on top as done, once its dependencies are. */
    method Leave(node: string, ghost below: seq<string>)
      requires Valid() && stack == below + [node]
      requires forall d :: Edge(Searched(), node, d) ==> d in finished
      modifies this`state, this`stack, this`finished
      ensures Valid() && stack == below && finished == old(finished) + [node] && state.Keys == old(state.Keys)
    {
      FinishNode(Searched(), below, finished, node);
      assert node in stack;
      DistinctAppend(below, node);
      stack := stack[..|stack| - 1];
      assert stack == below;
      state := state[node := Done];
      finished := finished + [node];
    }

    /** Explores `node`: either everything it leads to is finished, or a cycle is recorded. */
    method Dfs(node: string)
      requires Valid() && found == None && node in inSet && node !in state
      requires stack != [] ==> Edge(Searched(), stack[|stack| - 1], node)
      modifies this
      ensures found == None ==> Valid() && stack == old(stack) && Kept(old(finished)) && node in finished
      ensures found.Some? ==> IsCycle(Searched(), found.value)
      decreases inSet - state.Keys, 1
    {
      hide SearchState, Valid;
      Enter(node);
      var deps := EdgesOf(byName[node]);
      ghost var entered, path := state.Keys, stack;
      for i := 0 to |deps|
        invariant Valid() && found == None && stack == path
        invariant Kept(old(finished)) && entered <= state.Keys
        invariant forall k :: 0 <= k < i && deps[k] in inSet ==> deps[k] in finished
      {
        if deps[i] in inSet {
          Follow(node, deps[i]);
          if found.Some? {
            return;
          }
        }
      }
      Leave(node, old(stack));
    }

    /** Follows one edge from the node on top of the stack. */
    method Follow(node: string, dep: string)
      requires Valid() && found == None && stack != [] && stack[|stack| - 1] == node
      requires Edge(Searched(), node, dep)
      modifies this
      ensures found == None ==>
        && Valid() && stack == old(stack) && Kept(old(finished)) && dep in finished
        && old(state.Keys) <= state.Keys
      ensures found.Some? ==> IsCycle(Searched(), found.value)
      decreases inSet - state.Keys, 2
    {
      if dep in state && state[dep] == OnStack {
        var start := IndexIn(stack, dep);
        CloseCycle(Searched(), stack, finished, start);
        found := Some(stack[start..] + [dep]);
      } else if dep !in state {
        Dfs(dep);
      }
    }
  }

  /** The position of the first occurrence. */
  method IndexIn(s: seq<string>, x: string) returns (i: nat)
    requires x in s
    ensures i < |s| && s[i] == x && x !in s[..i]
  {
    i := 0;
    while s[i] != x
      invariant i < |s| && x !in s[..i] && x in s[i..]
      decreases |s| - i
    {
      assert s[i..] == [s[i]] + s[i + 1..];
      i := i + 1;
    }
  }

  /**
   One concrete cycle among the given names, if there is any: the answer is
   none exactly when the names can be put in dependencies-first order.
   */
  method DetectCycle(remaining: seq<string>, byName: map<string, Descriptor>) returns (found: Option<seq<string>>)
    requires forall n :: n in remaining ==> n in byName
    ensures var g := Among(byName, set n | n in remaining);
      && (found.Some? ==> IsCycle(g, found.value))
      && (found.Some? <==> !Acyclic(g))
  {
    hide SearchState;
    var search := new CycleSearch(remaining, byName);
    ghost var g := search.Searched();
    for i := 0 to |remaining|
      invariant search.Valid() && search.found == None && search.stack == []
      invariant g == search.Searched()
      invariant forall n :: n in remaining[..i] ==> n in search.finished
    {
      if remaining[i] !in search.state {
        search.Dfs(remaining[i]);
        if search.found.Some? {
          CycleIsReal(g, search.found.value);
          return search.found;
        }
      }
    }
    assert remaining[..|remaining|] == remaining;
    FinishedIsTopological(g, search.finished);
    return search.found;
  }

  // ---- the whole function ------------------------------------------------------

  lemma IndexIsInjective(ds: seq<Descriptor>)
    requires Distinct(Names(ds))
    ensures InjectiveOn(IndexOf(ds), GraphOf(ds).Keys)
    ensures GraphOf(ds).Keys == IndexOf(ds).Keys == NameSet(ds)
  {
    TableKeys(ds);
    var index := IndexOf(ds);
    forall a, b | a in index && b in index && index[a] == index[b]
      ensures a == b
    {
      var i :| 0 <= i < |ds| && Names(ds)[i] == a;
      var j :| 0 <= j < |ds| && Names(ds)[j] == b;
      TablesAt(ds, i);
      TablesAt(ds, j);
    }
  }

  /** Kahn's loop ran out of ready kernels before it had emitted them all. */
  ghost predicate Stalled(ds: seq<Descriptor>, order: seq<string>) {
    && Greedy(GraphOf(ds), IndexOf(ds), order)
    && exists n :: n in GraphOf(ds) && n !in order
  }

  /** Indegrees and Kahn's loop: a full-length result is the least order, a shorter one a stall. */
  method Order(ds: seq<Descriptor>, index: map<string, int>) returns (order: seq<string>)
    requires index == IndexOf(ds)
    ensures Distinct(Names(ds)) && |order| == |ds| ==>
      LeastTopological(GraphOf(ds), IndexOf(ds), order) && Acyclic(GraphOf(ds))
    ensures Distinct(Names(ds)) && |order| != |ds| ==> Stalled(ds, order)
  {
    TableKeys(ds);
    var indeg, adj := CountEdges(ds);
    order := Kahn(Names(ds), index, indeg, adj, GraphOf(ds));
    if Distinct(Names(ds)) {
      IndexIsInjective(ds);
      GreedyIsDependenciesFirst(GraphOf(ds), index, order);
      FullLengthMeansAll(order, Names(ds));
      if |order| == |ds| {
        GreedyIsLeast(GraphOf(ds), index, order);
        TopologicalIsAcyclic(GraphOf(ds), order);
      }
    }
  }

  /** After Kahn's loop: a cycle among the names left over; without duplicates there is one. */
  method DiagnoseStall(ds: seq<Descriptor>, byName: map<string, Descriptor>, order: seq<string>)
    returns (cycle: Option<seq<string>>, remaining: seq<string>)
    requires byName == ByName(ds)
    requires Distinct(Names(ds)) ==> Stalled(ds, order)
    ensures remaining == Without(Names(ds), order)
    ensures cycle.Some? ==> IsCycle(GraphOf(ds), cycle.value) && !Acyclic(GraphOf(ds))
    ensures cycle.Some? ==> forall n :: n in cycle.value ==> n !in order
    ensures Distinct(Names(ds)) ==> cycle.Some?
  {
    remaining := Without(Names(ds), order);
    LeftOver(ds, order);
    cycle := DetectCycle(remaining, byName);
    ghost var g, left := GraphOf(ds), GraphWithout(GraphOf(ds), order);
    if cycle.Some? {
      SubgraphCycle(g, left, cycle.value);
      CycleIsReal(g, cycle.value);
    }
    if Distinct(Names(ds)) {
      StallMeansCycle(g, IndexOf(ds), order);
    }
  }

  /** The names left over span exactly the part of the graph that was not emitted. */
  lemma LeftOver(ds: seq<Descriptor>, order: seq<string>)
    ensures forall n :: n in Without(Names(ds), order) ==> n in ByName(ds)
    ensures Among(ByName(ds), set n | n in Without(Names(ds), order)) == GraphWithout(GraphOf(ds), order)
  {
    WithoutElements(Names(ds), order);
    TableKeys(ds);
  }

  /** The issues found before ordering: duplicate registrations, then dangling dependencies. */
  function NamingIssues(ds: seq<Descriptor>): seq<Issue> {
    Duplicates(ds) + AllMissing(ds, NameSet(ds))
  }

  method CheckNames(ds: seq<Descriptor>)
    returns (issues: seq<Issue>, index: map<string, int>, byName: map<string, Descriptor>)
    ensures issues == NamingIssues(ds) && index == IndexOf(ds) && byName == ByName(ds)
    ensures issues == [] <==> Distinct(Names(ds)) && Resolves(ds)
    ensures NamesRight(ds, issues) && forall x :: x in issues ==> !x.Circular?
  {
    NamingIssuesAreRight(ds);
    hide NamesRight;
    var duplicates;
    duplicates, index, byName := Register(ds);
    var missing := FindMissing(ds, byName.Keys);
    DuplicatesDetected(ds);
    MissingDetected(ds);
    issues := duplicates + missing;
  }

  lemma CircularKeepsNames(ds: seq<Descriptor>, issues: seq<Issue>, nodes: seq<string>)
    requires NamesRight(ds, issues)
    ensures NamesRight(ds, issues + [Circular(nodes)])
  {
    hide TakenBefore, Dangling;
  }

  method BuildDependencyGraph(ds: seq<Descriptor>) returns (r: GraphResult)
    ensures r.ok <==> Distinct(Names(ds)) && Resolves(ds) && Acyclic(GraphOf(ds))
    ensures r.ok ==> LeastTopological(GraphOf(ds), IndexOf(ds), r.order)
    ensures !r.ok ==> r.order == []
    ensures r.shutdownOrder == Reverse(r.order)
    ensures r.cycle.Some? ==> IsCycle(GraphOf(ds), r.cycle.value)
    ensures Distinct(Names(ds)) ==> (r.cycle.Some? <==> !Acyclic(GraphOf(ds)))
    ensures NamingIssues(ds) <= r.issues && (r.ok <==> r.issues == [])
    ensures NamesRight(ds, r.issues)
    ensures r.issues == NamingIssues(ds) || exists nodes :: r.issues == NamingIssues(ds) + [Circular(nodes)]
    ensures r.cycle.Some? ==> r.issues == NamingIssues(ds) + [Circular(r.cycle.value)]
    ensures Distinct(Names(ds)) && r.cycle == None ==> r.issues == NamingIssues(ds)
  {
    var issues, index, byName := CheckNames(ds);
    assert Reverse([]) == [];
    hide *;
    var order := Order(ds, index);
    var cycle := None;
    if |order| != |ds| {
      var remaining;
      cycle, remaining := DiagnoseStall(ds, byName, order);
      ghost var named, nodes := issues, if cycle.Some? then cycle.value else remaining;
      CircularKeepsNames(ds, named, nodes);
      issues := issues + [Circular(if cycle.Some? then cycle.value else remaining)];
    }
    var ok := |issues| == 0;
    r := GraphResult(ok, if ok then order else [], if ok then Reverse(order) else [], issues, cycle);
  }

  // ---- consequences ------------------------------------------------------------

  /** A kernel's edges lead to exactly the registered kernels among its dependencies and ports. */
  lemma EdgesExactly(ds: seq<Descriptor>, i: nat, e: string)
    requires Distinct(Names(ds)) && i < |ds|
    ensures Edge(GraphOf(ds), ds[i].name, e) <==> (e in ds[i].dependsOn || e in ds[i].ports) && e in Names(ds)
  {
    TablesAt(ds, i);
    TableKeys(ds);
    UniqueElements(ds[i].dependsOn + ds[i].ports);
  }

  /** The order depends on which dependencies are declared, not on how they are listed. */
  lemma OrderIgnoresListing(ds: seq<Descriptor>, es: seq<Descriptor>, a: seq<string>, b: seq<string>)
    requires Names(ds) == Names(es) && Distinct(Names(ds))
    requires forall i, e :: 0 <= i < |ds| && i < |es| ==>
      (e in ds[i].dependsOn + ds[i].ports <==> e in es[i].dependsOn + es[i].ports)
    requires LeastTopological(GraphOf(ds), IndexOf(ds), a) && LeastTopological(GraphOf(es), IndexOf(es), b)
    ensures a == b
  {
    assert |ds| == |Names(ds)| == |es|;
    SameIndex(ds, es);
    TableKeys(ds);
    TableKeys(es);
    forall m, n
      ensures Edge(GraphOf(ds), m, n) <==> Edge(GraphOf(es), m, n)
    {
      if m in Names(ds) {
        var i :| 0 <= i < |ds| && Names(ds)[i] == m;
        assert Names(es)[i] == m;
        TablesAt(ds, i);
        TablesAt(es, i);
        UniqueElements(ds[i].dependsOn + ds[i].ports);
        UniqueElements(es[i].dependsOn + es[i].ports);
      }
    }
    SameEdgesSameOrder(GraphOf(ds), GraphOf(es), IndexOf(ds), a, b);
  }

  lemma {:induction false} SameIndex(ds: seq<Descriptor>, es: seq<Descriptor>)
    requires Names(ds) == Names(es)
    ensures IndexOf(ds) == IndexOf(es)
  {
    assert |ds| == |Names(ds)| == |es|;
    if ds != [] {
      assert Names(ds[..|ds| - 1]) == Names(ds)[..|ds| - 1] == Names(es[..|es| - 1]);
      assert Names(ds)[|ds| - 1] == Names(es)[|es| - 1];
      SameIndex(ds[..|ds| - 1], es[..|es| - 1]);
    }
  }

  /** Registering dependencies before dependents makes the start-up order the registration order. */
  lemma RegistrationOrderKept(ds: seq<Descriptor>, order: seq<string>)
    requires LeastTopological(GraphOf(ds), IndexOf(ds), order)
    requires IsTopological(GraphOf(ds), Names(ds))
    ensures order == Names(ds)
  {
    var names, index := Names(ds), IndexOf(ds);
    forall k: nat
      ensures !DiffersAt(index, order, names, k)
    {
      if k < |names| && k < |order| && order[..k] == names[..k] {
        assert order[k] in order && order[k] in names;
        assert forall i :: 0 <= i < k ==> order[i] == order[..k][i] == names[i];
        var j :| 0 <= j < |names| && names[j] == order[k];
        TablesAt(ds, j);
        TablesAt(ds, k);
        assert j >= k;
      }
    }
  }
}
