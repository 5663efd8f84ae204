/**
 Kernel selection and composition in src/platform/platformBuilder.js: the chosen
 kernels with everything they need are composed in dependency order, each port and
 each injected service having to be composed already. Which factories fail is a
 parameter.
 */
module PlatformBuilder {
  import opened Wrappers
  import opened Graph
  import opened KahnTheory
  import opened Closure
  import opened DependencyGraph

  /** `inject` holds the names of the kernels whose services are injected by name. */
  datatype Kernel = Kernel(name: string, dependsOn: seq<string>, ports: seq<string>, inject: seq<string>)

  datatype ComposeError =
    | DuplicateKernel
    | MissingKernel
    | CircularKernels
    | PortNotComposed(kernel: string, port: string)
    | InjectNotComposed(kernel: string, target: string)
    | FactoryFailed(kernel: string)

  function AsDescriptor(k: Kernel): Descriptor {
    Descriptor(k.name, k.dependsOn, k.ports)
  }

  function AsDescriptors(ks: seq<Kernel>): seq<Descriptor> {
    seq(|ks|, i requires 0 <= i < |ks| => AsDescriptor(ks[i]))
  }

  function CatalogGraph(ks: seq<Kernel>): Graph {
    GraphOf(AsDescriptors(ks))
  }

  function KernelNames(ks: seq<Kernel>): seq<string> {
    Names(AsDescriptors(ks))
  }

  /** Distinct names, no dangling name, no cycle. */
  ghost predicate WellFormed(ks: seq<Kernel>) {
    && Distinct(KernelNames(ks))
    && Resolves(AsDescriptors(ks))
    && Acyclic(CatalogGraph(ks))
  }

  /** What a malformed catalog is refused for: duplicates first, then dangling names, then a cycle. */
  ghost function Malformation(ks: seq<Kernel>): ComposeError {
    if !Distinct(KernelNames(ks)) then DuplicateKernel
    else if !Resolves(AsDescriptors(ks)) then MissingKernel
    else CircularKernels
  }

  /** Every injected service belongs to a declared dependency or port. */
  ghost predicate InjectsDeclared(ks: seq<Kernel>) {
    forall k, t :: k in ks && t in k.inject ==> t in EdgesOf(AsDescriptor(k))
  }

  function Chosen(ks: seq<Kernel>, keep: set<string>): seq<Kernel> {
    if ks == [] then []
    else Chosen(ks[..|ks| - 1], keep) + if ks[|ks| - 1].name in keep then [ks[|ks| - 1]] else []
  }

  /** A kernel's edges lead to exactly the kernels of the catalog among its dependencies and ports. */
  lemma CatalogEdges(ks: seq<Kernel>, k: Kernel, e: string)
    requires Distinct(KernelNames(ks)) && k in ks
    ensures Edge(CatalogGraph(ks), k.name, e) <==>
      (e in k.dependsOn || e in k.ports) && exists l :: l in ks && l.name == e
  {
    var i :| 0 <= i < |ks| && ks[i] == k;
    EdgesExactly(AsDescriptors(ks), i, e);
    if l :| l in ks && l.name == e {
      NameIn(ks, l);
    }
  }

  /** Names one of the requested kernels or something they need. */
  ghost predicate Needed(ks: seq<Kernel>, only: seq<string>, n: string) {
    only == [] || exists root :: root in only && ReachesOrIs(CatalogGraph(ks), root, n)
  }

  // ---- selection -----------------------------------------------------------------

  lemma {:induction false} ChosenElements(ks: seq<Kernel>, keep: set<string>)
    ensures forall k :: k in Chosen(ks, keep) <==> k in ks && k.name in keep
  {
    if ks != [] {
      ChosenElements(ks[..|ks| - 1], keep);
      assert ks == ks[..|ks| - 1] + [ks[|ks| - 1]];
    }
  }

  lemma NamesAppend(ks: seq<Kernel>, k: Kernel)
    ensures KernelNames(ks + [k]) == KernelNames(ks) + [k.name]
  {
  }

  lemma NameIn(ks: seq<Kernel>, k: Kernel)
    requires k in ks
    ensures k.name in KernelNames(ks) && AsDescriptor(k) in AsDescriptors(ks)
  {
    var i :| 0 <= i < |ks| && ks[i] == k;
    assert KernelNames(ks)[i] == k.name && AsDescriptors(ks)[i] == AsDescriptor(k);
  }

  lemma {:induction false} ChosenNames(ks: seq<Kernel>, keep: set<string>)
    ensures KernelNames(Chosen(ks, keep)) == KeepOnly(KernelNames(ks), keep)
  {
    if ks != [] {
      var init, last := ks[..|ks| - 1], ks[|ks| - 1];
      ChosenNames(init, keep);
      assert ks == init + [last];
      NamesAppend(init, last);
      NamesAppend(Chosen(init, keep), last);
      assert KernelNames(ks)[..|ks| - 1] == KernelNames(init);
    }
  }

  /** `k` is the row that the catalog's graph has for its name. */
  lemma RowOf(ks: seq<Kernel>, k: Kernel)
    requires Distinct(KernelNames(ks)) && k in ks
    ensures k.name in CatalogGraph(ks) && CatalogGraph(ks)[k.name] == EdgesOf(AsDescriptor(k))
  {
    var i :| 0 <= i < |ks| && ks[i] == k;
    assert AsDescriptors(ks)[i] == AsDescriptor(k);
    TablesAt(AsDescriptors(ks), i);
  }

  lemma NodeIsKernel(ks: seq<Kernel>, n: string) returns (k: Kernel)
    requires n in CatalogGraph(ks)
    ensures k in ks && k.name == n
  {
    TableKeys(AsDescriptors(ks));
    var i :| 0 <= i < |ks| && KernelNames(ks)[i] == n;
    assert AsDescriptors(ks)[i] == AsDescriptor(ks[i]);
    assert KernelNames(ks)[i] == AsDescriptor(ks[i]).name;
    k := ks[i];
  }

  /** Choosing a closed set of kernels keeps the catalog well formed. */
  lemma ChosenIsWellFormed(ks: seq<Kernel>, keep: set<string>)
    requires WellFormed(ks) && ClosedUnder(CatalogGraph(ks), keep)
    ensures WellFormed(Chosen(ks, keep))
  {
    var sel := Chosen(ks, keep);
    ChosenNames(ks, keep);
    KeepOnlyDistinct(KernelNames(ks), keep);
    ChosenElements(ks, keep);
    forall d, e | d in AsDescriptors(sel) && e in EdgesOf(d)
      ensures e in KernelNames(sel)
    {
      var i :| 0 <= i < |sel| && AsDescriptors(sel)[i] == d;
      ChosenEdge(ks, keep, sel[i], e);
    }
    forall n | n in CatalogGraph(sel)
      ensures n in CatalogGraph(ks) && CatalogGraph(sel)[n] == CatalogGraph(ks)[n]
    {
      var k := NodeIsKernel(sel, n);
      RowOf(sel, k);
      RowOf(ks, k);
    }
    SubgraphIsAcyclic(CatalogGraph(ks), CatalogGraph(sel));
  }

  lemma ChosenEdge(ks: seq<Kernel>, keep: set<string>, k: Kernel, e: string)
    requires WellFormed(ks) && ClosedUnder(CatalogGraph(ks), keep)
    requires k in ks && k.name in keep && e in EdgesOf(AsDescriptor(k))
    ensures e in KeepOnly(KernelNames(ks), keep)
  {
    NameIn(ks, k);
    RowOf(ks, k);
    TableKeys(AsDescriptors(ks));
    assert e in KernelNames(ks);
    assert Edge(CatalogGraph(ks), k.name, e);
    KeepOnlyElements(KernelNames(ks), keep);
  }

  lemma SubgraphIsAcyclic(g: Graph, sub: Graph)
    requires Acyclic(g) && forall n :: n in sub ==> n in g && sub[n] == g[n]
    ensures Acyclic(sub)
  {
    forall n | n in sub
      ensures !Reaches(sub, n, n)
    {
      if Reaches(sub, n, n) {
        var p :| WalkBetween(sub, p, n, n) && |p| >= 2;
        forall i | 0 < i < |p|
          ensures Edge(g, p[i - 1], p[i])
        {
          assert Edge(sub, p[i - 1], p[i]);
        }
        assert WalkBetween(g, p, n, n);
      }
    }
  }

  /** The requested kernels with everything they need; without a request, all of them. */
  method SelectKernels(all: seq<Kernel>, only: seq<string>) returns (sel: seq<Kernel>, ghost keep: set<string>)
    ensures sel == Chosen(all, keep)
    ensures forall k :: k in sel <==> k in all && Needed(all, only, k.name)
    ensures ClosedUnder(CatalogGraph(all), keep)
  {
    var g := Declared(ByName(AsDescriptors(all)));
    if |only| == 0 {
      keep := set n | n in KernelNames(all);
      AllChosen(all, keep);
      EverythingIsClosed(all);
      return all, keep;
    }
    var seen := Reachable(g, only);
    SameReach(all);
    ChosenElements(all, seen);
    sel, keep := Chosen(all, seen), seen;
  }

  lemma EverythingIsClosed(all: seq<Kernel>)
    ensures ClosedUnder(CatalogGraph(all), set n | n in KernelNames(all))
    ensures forall k :: k in all ==> k.name in KernelNames(all)
  {
    TableKeys(AsDescriptors(all));
    forall k | k in all
      ensures k.name in KernelNames(all)
    {
      NameIn(all, k);
    }
  }

  lemma {:induction false} AllChosen(ks: seq<Kernel>, keep: set<string>)
    requires forall n :: n in KernelNames(ks) ==> n in keep
    ensures Chosen(ks, keep) == ks
  {
    if ks != [] {
      var init, last := ks[..|ks| - 1], ks[|ks| - 1];
      assert ks == init + [last];
      NamesAppend(init, last);
      AllChosen(init, keep);
    }
  }

  lemma SameReach(all: seq<Kernel>)
    ensures var g := Declared(ByName(AsDescriptors(all)));
      && SameEdges(g, CatalogGraph(all))
      && forall a, b :: ReachesOrIs(g, a, b) <==> ReachesOrIs(CatalogGraph(all), a, b)
  {
    var g := Declared(ByName(AsDescriptors(all)));
    DeclaredHasSameEdges(ByName(AsDescriptors(all)));
    SameEdgesSameWalks(g, CatalogGraph(all));
    forall a, b
      ensures ReachesOrIs(g, a, b) <==> ReachesOrIs(CatalogGraph(all), a, b)
    {
      assert forall p :: WalkBetween(g, p, a, b) <==> WalkBetween(CatalogGraph(all), p, a, b);
    }
  }

  // ---- composition -----------------------------------------------------------------

  /** The first listed name that is not composed yet. */
  function FirstAbsent(needed: seq<string>, composed: set<string>): (r: Option<string>)
    ensures r.None? <==> forall n :: n in needed ==> n in composed
  {
    if needed == [] then None
    else
      assert needed == [needed[0]] + needed[1..];
      if needed[0] in composed then FirstAbsent(needed[1..], composed)
      else
        assert needed[0] in needed;
        Some(needed[0])
  }

  /** The error one kernel raises when it is composed after `composed`, if any. */
  function KernelError(k: Kernel, composed: set<string>, fails: set<string>): Option<ComposeError> {
    var port := FirstAbsent(k.ports, composed);
    var target := FirstAbsent(k.inject, composed);
    if port.Some? then Some(PortNotComposed(k.name, port.value))
    else if target.Some? then Some(InjectNotComposed(k.name, target.value))
    else if k.name in fails then Some(FactoryFailed(k.name))
    else None
  }

  /** What can go wrong with a kernel whose ports are composed: its first missing injection, or its factory. */
  function Complaint(k: Kernel, composed: set<string>, fails: set<string>): Option<ComposeError> {
    var target := FirstAbsent(k.inject, composed);
    if target.Some? then Some(InjectNotComposed(k.name, target.value))
    else if k.name in fails then Some(FactoryFailed(k.name))
    else None
  }

  /** Some name is not composed, and those listed before it are. */
  ghost predicate FirstMissing(needed: seq<string>, composed: set<string>, n: string) {
    && n !in composed
    && exists i :: 0 <= i < |needed| && needed[i] == n && forall j :: 0 <= j < i ==> needed[j] in composed
  }

  lemma {:induction false} FirstAbsentIsFirst(needed: seq<string>, composed: set<string>)
    ensures var r := FirstAbsent(needed, composed); r.Some? ==> FirstMissing(needed, composed, r.value)
  {
    if needed != [] && needed[0] in composed {
      FirstAbsentIsFirst(needed[1..], composed);
      var r := FirstAbsent(needed[1..], composed);
      if r.Some? {
        var i :|
          0 <= i < |needed| - 1 && needed[1..][i] == r.value && forall j :: 0 <= j < i ==> needed[1..][j] in composed;
        assert forall j :: 0 < j < i + 1 ==> needed[j] == needed[1..][j - 1];
        assert needed[i + 1] == r.value;
      }
    }
  }

  /**
   A kernel is refused for its first port that is not composed, else for its first such
   injection, else for its own factory; it composes exactly if there is none of these.
   */
  lemma KernelErrorSays(k: Kernel, composed: set<string>, fails: set<string>)
    ensures var error := KernelError(k, composed, fails);
      && (error.None? <==>
        && (forall n :: n in k.ports ==> n in composed)
        && (forall n :: n in k.inject ==> n in composed)
        && k.name !in fails)
      && match error
         case None => true
         case Some(PortNotComposed(n, port)) => n == k.name && FirstMissing(k.ports, composed, port)
         case Some(InjectNotComposed(n, target)) =>
           n == k.name && (forall p :: p in k.ports ==> p in composed) && FirstMissing(k.inject, composed, target)
         case Some(FactoryFailed(n)) =>
           n == k.name && k.name in fails && forall p :: p in k.ports || p in k.inject ==> p in composed
         case _ => false
  {
    FirstAbsentIsFirst(k.ports, composed);
    FirstAbsentIsFirst(k.inject, composed);
    hide FirstMissing;
  }

  /** Ports are edges, so in dependency order they are composed; injections need not be. */
  lemma PortsAreComposed(ks: seq<Kernel>, order: seq<string>, i: nat, k: Kernel, fails: set<string>)
    requires WellFormed(ks) && IsTopological(CatalogGraph(ks), order) && i < |order| && k in ks && k.name == order[i]
    ensures KernelError(k, (set n | n in order[..i]), fails) == Complaint(k, (set n | n in order[..i]), fails)
  {
    RowOf(ks, k);
    NameIn(ks, k);
    TableKeys(AsDescriptors(ks));
    UniqueElements(k.dependsOn + k.ports);
    forall e | e in k.ports
      ensures e in order[..i]
    {
      assert e in EdgesOf(AsDescriptor(k)) && e in KernelNames(ks);
      assert Edge(CatalogGraph(ks), order[i], e);
    }
  }

  /** The `i`-th kernel of the order composes after those before it. */
  ghost predicate Composes(sel: seq<Kernel>, order: seq<string>, i: nat, fails: set<string>)
    requires i < |order|
  {
    forall k :: k in sel && k.name == order[i] ==> Complaint(k, (set n | n in order[..i]), fails).None?
  }

  /** The error is the complaint of the first kernel of the order that has one. */
  ghost predicate FirstComplaint(sel: seq<Kernel>, order: seq<string>, i: nat, fails: set<string>, error: ComposeError)
    requires i < |order|
  {
    && (forall j :: 0 <= j < i ==> Composes(sel, order, j, fails))
    && exists k :: k in sel && k.name == order[i] && Complaint(k, (set n | n in order[..i]), fails) == Some(error)
  }

  ghost predicate ComposedRight(sel: seq<Kernel>, order: seq<string>, fails: set<string>,
                                r: Result<seq<string>, ComposeError>) {
    match r
    case Ok(composed) => composed == order && forall i :: 0 <= i < |order| ==> Composes(sel, order, i, fails)
    case Err(error) => exists i :: 0 <= i < |order| && FirstComplaint(sel, order, i, fails, error)
  }

  /** With ports and injections among its edges, a kernel in order can only fail in its factory. */
  lemma OnlyFactoriesFail(ks: seq<Kernel>, order: seq<string>, i: nat, k: Kernel, fails: set<string>)
    requires WellFormed(ks) && InjectsDeclared(ks)
    requires IsTopological(CatalogGraph(ks), order) && i < |order| && k in ks && k.name == order[i]
    ensures KernelError(k, (set n | n in order[..i]), fails)
      == if k.name in fails then Some(FactoryFailed(k.name)) else None
  {
    RowOf(ks, k);
    NameIn(ks, k);
    TableKeys(AsDescriptors(ks));
    UniqueElements(k.dependsOn + k.ports);
    forall e | e in EdgesOf(AsDescriptor(k))
      ensures e in order[..i]
    {
      assert e in KernelNames(ks);
      assert Edge(CatalogGraph(ks), order[i], e);
    }
  }

  method ComposeOne(sel: seq<Kernel>, order: seq<string>, i: nat, composed: set<string>, fails: set<string>)
    returns (error: Option<ComposeError>)
    requires WellFormed(sel) && IsTopological(CatalogGraph(sel), order) && i < |order|
    requires composed == set n | n in order[..i]
    ensures error.None? ==> Composes(sel, order, i, fails)
    ensures error.Some? ==>
      exists k :: k in sel && k.name == order[i] && Complaint(k, composed, fails) == error
  {
    assert order[i] in order;
    var k := Find(sel, order[i]);
    PortsAreComposed(sel, order, i, k, fails);
    error := KernelError(k, composed, fails);
    forall l | l in sel && l.name == order[i]
      ensures l == k
    {
      SameNameSameKernel(sel, k, l);
    }
  }

  lemma SameNameSameKernel(sel: seq<Kernel>, k: Kernel, l: Kernel)
    requires WellFormed(sel) && k in sel && l in sel && k.name == l.name
    ensures k == l
  {
    var i :| 0 <= i < |sel| && sel[i] == k;
    var j :| 0 <= j < |sel| && sel[j] == l;
    assert KernelNames(sel)[i] == KernelNames(sel)[j];
  }

  /** Declared injections are edges too: then the first failing factory is all there is to report. */
  lemma DeclaredInjectionsCompose(sel: seq<Kernel>, order: seq<string>, fails: set<string>,
                                  r: Result<seq<string>, ComposeError>)
    requires WellFormed(sel) && InjectsDeclared(sel) && IsTopological(CatalogGraph(sel), order)
    requires ComposedRight(sel, order, fails, r)
    ensures r.Ok? <==> forall k :: k in sel ==> k.name !in fails
    ensures r.Err? ==> exists i ::
      0 <= i < |order| && FirstFailure(order, i, fails) && r.error == FactoryFailed(order[i])
  {
    OrderIsKernels(sel, order);
    forall i, k | 0 <= i < |order| && k in sel && k.name == order[i]
      ensures Complaint(k, (set n | n in order[..i]), fails)
        == if k.name in fails then Some(FactoryFailed(k.name)) else None
    {
      OnlyFactoriesFail(sel, order, i, k, fails);
      PortsAreComposed(sel, order, i, k, fails);
    }
    hide WellFormed, InjectsDeclared, IsTopological, Complaint;
    if r.Err? {
      var i :| 0 <= i < |order| && FirstComplaint(sel, order, i, fails, r.error);
      forall j | 0 <= j < i
        ensures order[j] !in fails
      {
        assert Composes(sel, order, j, fails) && order[j] in order;
      }
    } else {
      forall k | k in sel
        ensures k.name !in fails
      {
        assert k.name in order;
        var i :| 0 <= i < |order| && order[i] == k.name;
        assert Composes(sel, order, i, fails);
      }
    }
  }

  ghost predicate FirstFailure(order: seq<string>, i: nat, fails: set<string>)
    requires i < |order|
  {
    order[i] in fails && forall j :: 0 <= j < i ==> order[j] !in fails
  }

  /** The first kernel of the least order whose factory fails. */
  ghost predicate FirstToFail(sel: seq<Kernel>, fails: set<string>, n: string) {
    exists order, i :: LeastTopological(CatalogGraph(sel), IndexOf(AsDescriptors(sel)), order)
      && 0 <= i < |order| && order[i] == n && FirstFailure(order, i, fails)
  }

  method ComposeInOrder(sel: seq<Kernel>, order: seq<string>, fails: set<string>) returns (r: Result<seq<string>,
      ComposeError>)
    requires WellFormed(sel) && IsTopological(CatalogGraph(sel), order)
    ensures ComposedRight(sel, order, fails, r)
  {
    hide WellFormed, IsTopological, CatalogGraph, Composes, Complaint;
    var composed: set<string> := {};
    for i := 0 to |order|
      invariant composed == set n | n in order[..i]
      invariant forall j :: 0 <= j < i ==> Composes(sel, order, j, fails)
    {
      var error := ComposeOne(sel, order, i, composed, fails);
      if error.Some? {
        assert FirstComplaint(sel, order, i, fails, error.value);
        return Err(error.value);
      }
      composed := composed + {order[i]};
      assert order[..i + 1] == order[..i] + [order[i]];
    }
    return Ok(order);
  }

  method Find(ks: seq<Kernel>, n: string) returns (k: Kernel)
    requires n in CatalogGraph(ks)
    ensures k in ks && k.name == n
  {
    ghost var wanted := NodeIsKernel(ks, n);
    ghost var at :| 0 <= at < |ks| && ks[at] == wanted;
    var i := 0;
    while ks[i].name != n
      invariant i <= at < |ks| && ks[at].name == n
      decreases at - i
    {
      i := i + 1;
    }
    k := ks[i];
  }

  /** The whole composition of a catalog restricted to the requested kernels. */
  method Compose(all: seq<Kernel>, only: seq<string>, fails: set<string>)
    returns (r: Result<seq<string>, ComposeError>, ghost sel: seq<Kernel>)
    ensures forall k :: k in sel <==> k in all && Needed(all, only, k.name)
    ensures !WellFormed(sel) ==> r == Err(Malformation(sel))
    ensures WellFormed(sel) ==> exists order ::
      LeastTopological(CatalogGraph(sel), IndexOf(AsDescriptors(sel)), order) && ComposedRight(sel, order, fails, r)
    ensures WellFormed(all) && InjectsDeclared(all) ==>
      && WellFormed(sel)
      && (r.Ok? <==> forall k :: k in sel ==> k.name !in fails)
      && (r.Err? ==> r.error.FactoryFailed? && FirstToFail(sel, fails, r.error.kernel))
  {
    ghost var keep;
    var chosen;
    chosen, keep := SelectKernels(all, only);
    sel := chosen;
    if WellFormed(all) {
      ChosenIsWellFormed(all, keep);
    }
    r := ComposeSelected(chosen, fails);
  }

  method ComposeSelected(sel: seq<Kernel>, fails: set<string>) returns (r: Result<seq<string>, ComposeError>)
    ensures !WellFormed(sel) ==> r == Err(Malformation(sel))
    ensures WellFormed(sel) ==> exists order ::
      LeastTopological(CatalogGraph(sel), IndexOf(AsDescriptors(sel)), order) && ComposedRight(sel, order, fails, r)
    ensures WellFormed(sel) && InjectsDeclared(sel) ==>
      && (r.Ok? <==> forall k :: k in sel ==> k.name !in fails)
      && (r.Err? ==> r.error.FactoryFailed? && FirstToFail(sel, fails, r.error.kernel))
  {
    var ds := AsDescriptors(sel);
    var issues, index, byName := CheckNames(ds);
    DuplicatesDetected(ds);
    if |Duplicates(ds)| > 0 {
      return Err(DuplicateKernel);
    }
    if |issues| > 0 {
      return Err(MissingKernel);
    }
    var graph := BuildDependencyGraph(ds);
    if !graph.ok {
      return Err(CircularKernels);
    }
    r := ComposeInOrder(sel, graph.order, fails);
    if InjectsDeclared(sel) {
      DeclaredInjectionsCompose(sel, graph.order, fails, r);
    }
  }

  lemma OrderIsKernels(sel: seq<Kernel>, order: seq<string>)
    requires IsTopological(CatalogGraph(sel), order)
    ensures forall n :: n in order <==> exists k :: k in sel && k.name == n
  {
    TableKeys(AsDescriptors(sel));
    forall n
      ensures n in order <==> exists k :: k in sel && k.name == n
    {
      if n in order {
        var k := NodeIsKernel(sel, n);
      }
      if k :| k in sel && k.name == n {
        NameIn(sel, k);
      }
    }
  }
}
