/**
 Registering and unregistering services on a ready host (src/host/host.js:51-80) with
 the calls interleaved where they await a service's own start or stop. Whether a start
 throws is part of the move that ends it.
 */
module HostInterleaving {
  import opened Wrappers
  import opened HostedServices
  import opened HostLifecycle

  /** What a call is waiting for. */
  datatype Work = BeingStarted(service: Service) | BeingStopped(id: string) | Done

  datatype Desk = Desk(registered: set<string>, states: States, work: seq<Work>)

  datatype Move =
    | Register(service: Service)
    | StartEnds(t: nat, ok: bool)
    | Unregister(id: string)
    | StopEnds(t: nat)

  predicate MayMove(s: Desk, m: Move) {
    match m
    case Register(service) => service.id !in s.registered
    case StartEnds(t, _) => t < |s.work| && s.work[t].BeingStarted?
    case Unregister(id) => id in s.registered
    case StopEnds(t) => t < |s.work| && s.work[t].BeingStopped?
  }

  /** The check before a start: every declared dependency is started at that moment. */
  predicate StartsAtOnce(s: Desk, service: Service) {
    MayMove(s, Register(service)) && FirstUnstarted(service.dependsOn, s.states[service.id := Registered]).None?
  }

  function Moved(s: Desk, m: Move): Desk {
    if !MayMove(s, m) then s
    else
      match m
      case Register(service) =>
        var id := service.id;
        var added := s.(registered := s.registered + {id}, states := s.states[id := Registered]);
        if StartsAtOnce(s, service)
        then added.(states := s.states[id := ServiceStarting], work := s.work + [BeingStarted(service)])
        else added
      case StartEnds(t, ok) =>
        s.(states := s.states[s.work[t].service.id := if ok then Started else Failed], work := s.work[t := Done])
      case Unregister(id) =>
        if id in s.states && s.states[id] == Started then s.(work := s.work + [BeingStopped(id)])
        else s.(registered := s.registered - {id})
      case StopEnds(t) =>
        var id := s.work[t].id;
        s.(registered := s.registered - {id}, states := s.states[id := Stopped], work := s.work[t := Done])
  }

  function Steps(s: Desk, more: seq<Move>): Desk {
    if more == [] then s else Moved(Steps(s, more[..|more| - 1]), more[|more| - 1])
  }

  // ---- what can happen to a dependency meanwhile ------------------------------------------------

  ghost predicate TakesDown(s: Desk, m: Move, d: string) {
    MayMove(s, m) &&
    match m
    case Register(service) => service.id == d
    case StartEnds(t, ok) => s.work[t].service.id == d && !ok
    case Unregister(_) => false
    case StopEnds(t) => s.work[t].id == d
  }

  ghost predicate BringsUp(s: Desk, m: Move, d: string) {
    MayMove(s, m) && m.StartEnds? && s.work[m.t].service.id == d && m.ok
  }

  /** Some move takes `d` down, and none brings it up again. */
  ghost predicate LeftDown(s: Desk, more: seq<Move>, d: string) {
    exists k :: 0 <= k < |more| && TakesDown(Steps(s, more[..k]), more[k], d) && StaysDown(s, more, k, d)
  }

  ghost predicate StaysDown(s: Desk, more: seq<Move>, k: nat, d: string) {
    forall l :: k < l < |more| ==> !BringsUp(Steps(s, more[..l]), more[l], d)
  }

  lemma OneMove(s: Desk, m: Move, d: string)
    ensures IsIn(Moved(s, m).states, d, Started) <==>
      (BringsUp(s, m, d) || (IsIn(s.states, d, Started) && !TakesDown(s, m, d)))
  {
  }

  lemma LeftDownStep(s: Desk, init: seq<Move>, m: Move, d: string)
    ensures LeftDown(s, init + [m], d) <==>
      (TakesDown(Steps(s, init), m, d) || (LeftDown(s, init, d) && !BringsUp(Steps(s, init), m, d)))
  {
    var more := init + [m];
    hide Steps, TakesDown, BringsUp;
    assert forall k :: 0 <= k <= |init| ==> more[..k] == init[..k];
    assert init[..|init|] == init;
    if TakesDown(Steps(s, init), m, d) {
      assert StaysDown(s, more, |init|, d);
    }
    if LeftDown(s, init, d) && !BringsUp(Steps(s, init), m, d) {
      var k :| 0 <= k < |init| && TakesDown(Steps(s, init[..k]), init[k], d) && StaysDown(s, init, k, d);
      assert StaysDown(s, more, k, d) && more[k] == init[k];
    }
    if LeftDown(s, more, d) {
      var k :| 0 <= k < |more| && TakesDown(Steps(s, more[..k]), more[k], d) && StaysDown(s, more, k, d);
      if k < |init| {
        assert more[|init|] == m && !BringsUp(Steps(s, more[..|init|]), more[|init|], d);
        assert StaysDown(s, init, k, d) && more[k] == init[k];
      }
    }
  }

  /** A dependency that was started when a start began is started now exactly if it was not left down in between. */
  lemma {:induction false} StartedUnlessLeftDown(s: Desk, more: seq<Move>, d: string)
    requires IsIn(s.states, d, Started)
    ensures IsIn(Steps(s, more).states, d, Started) <==> !LeftDown(s, more, d)
  {
    if more != [] {
      var init, m := more[..|more| - 1], more[|more| - 1];
      assert more == init + [m];
      StartedUnlessLeftDown(s, init, d);
      OneMove(Steps(s, init), m, d);
      LeftDownStep(s, init, m, d);
      TakenDownIsNotUp(Steps(s, init), m, d);
      hide Moved, TakesDown, BringsUp, LeftDown;
    }
  }

  lemma TakenDownIsNotUp(s: Desk, m: Move, d: string)
    ensures !(TakesDown(s, m, d) && BringsUp(s, m, d))
  {
  }

  /** A service that can start is being started by its own call, any other only joins the registry. */
  lemma RegisteredOnce(s: Desk, service: Service)
    ensures var r := Moved(s, Register(service));
      if service.id in s.registered then r == s
      else
        && service.id in r.registered
        && if StartsAtOnce(s, service)
           then IsIn(r.states, service.id, ServiceStarting) && r.work == s.work + [BeingStarted(service)]
           else IsIn(r.states, service.id, Registered) && r.work == s.work
  {
  }

  /** A service leaves the registry at once, or when its stop has ended; then it is STOPPED. */
  lemma LeavesWhenStopped(s: Desk, id: string)
    requires id in s.registered
    ensures var u := Moved(s, Unregister(id));
      if IsIn(s.states, id, Started) then
        && id in u.registered && u.work == s.work + [BeingStopped(id)]
        && var e := Moved(u, StopEnds(|s.work|)); id !in e.registered && IsIn(e.states, id, Stopped)
      else id !in u.registered && u.states == s.states && u.work == s.work
  {
  }

  /** Each call ends once. */
  lemma CallsEndOnce(s: Desk, m: Move, n: Move)
    requires MayMove(s, m) && (m.StartEnds? || m.StopEnds?)
    requires (n.StartEnds? || n.StopEnds?) && n.t == m.t
    ensures !MayMove(Moved(s, m), n)
  {
  }

  // ---- entering STARTED ----------------------------------------------------------------------------

  /** A ready host without services. */
  const EMPTY_DESK := Desk({}, map[], [])

  function After(run: seq<Move>): Desk {
    Steps(EMPTY_DESK, run)
  }

  lemma {:induction false} StepsAppend(s: Desk, a: seq<Move>, b: seq<Move>)
    ensures Steps(s, a + b) == Steps(Steps(s, a), b)
  {
    if b == [] {
      assert a + b == a;
    } else {
      assert (a + b)[..|a + b| - 1] == a + b[..|b| - 1];
      StepsAppend(s, a, b[..|b| - 1]);
    }
  }

  lemma NewStartWasRegistered(s: Desk, m: Move, t: nat)
    requires t < |Moved(s, m).work| && Moved(s, m).work[t].BeingStarted?
    ensures if t < |s.work| then s.work[t] == Moved(s, m).work[t]
            else
              && m == Register(Moved(s, m).work[t].service) && StartsAtOnce(s, Moved(s, m).work[t].service)
              && t == |s.work|
  {
  }

  /** Move `i` of the run registered the service, and its dependencies were started then. */
  ghost predicate BeganAt(run: seq<Move>, i: nat, service: Service) {
    i < |run| && run[i] == Register(service) && StartsAtOnce(After(run[..i]), service)
  }

  lemma {:induction false} EveryStartBegan(run: seq<Move>, t: nat) returns (i: nat)
    requires t < |After(run).work| && After(run).work[t].BeingStarted?
    ensures BeganAt(run, i, After(run).work[t].service)
    ensures t == |After(run[..i]).work|
  {
    var init, m := run[..|run| - 1], run[|run| - 1];
    NewStartWasRegistered(After(init), m, t);
    hide Moved, StartsAtOnce;
    if t < |After(init).work| {
      i := EveryStartBegan(init, t);
      assert run[..i] == init[..i];
    } else {
      i := |init|;
    }
  }

  lemma DependsOnOthers(s: Desk, service: Service)
    requires StartsAtOnce(s, service)
    ensures forall d :: d in service.dependsOn ==>
      d != service.id && IsIn(Moved(s, Register(service)).states, d, Started)
  {
  }

  lemma StartedAtEnd(s: Desk, t: nat, d: string)
    requires t < |s.work| && s.work[t].BeingStarted?
    ensures var id, states := s.work[t].service.id, Moved(s, StartEnds(t, true)).states;
      IsIn(states, id, Started) && (d != id ==> (IsIn(states, d, Started) <==> IsIn(s.states, d, Started)))
  {
  }

  /**
   In every run, when a start that was begun at move `i` ends well, the service enters STARTED,
   with all its dependencies started exactly when none of them was left down in between.
   */
  lemma EndsJustifiedExactly(run: seq<Move>, t: nat) returns (i: nat)
    requires t < |After(run).work| && After(run).work[t].BeingStarted?
    ensures var service, states := After(run).work[t].service, Moved(After(run), StartEnds(t, true)).states;
      && BeganAt(run, i, service) && IsIn(states, service.id, Started)
      && ((forall d :: d in service.dependsOn ==> IsIn(states, d, Started)) <==>
          (forall d :: d in service.dependsOn ==> !LeftDown(After(run[..i + 1]), run[i + 1..], d)))
  {
    var service := After(run).work[t].service;
    i := EveryStartBegan(run, t);
    var begun, more := After(run[..i + 1]), run[i + 1..];
    assert run[..i + 1][..i] == run[..i] && run[..i + 1] + more == run;
    StepsAppend(EMPTY_DESK, run[..i + 1], more);
    DependsOnOthers(After(run[..i]), service);
    StartedAtEnd(After(run), t, service.id);
    hide Moved, StartsAtOnce, LeftDown;
    forall d | d in service.dependsOn
      ensures IsIn(Moved(After(run), StartEnds(t, true)).states, d, Started) <==> !LeftDown(begun, more, d)
    {
      StartedAtEnd(After(run), t, d);
      StartedUnlessLeftDown(begun, more, d);
    }
  }

  // ---- what is under way already ------------------------------------------------------------------

  /** Nobody calls anything new: only the calls under way end. */
  ghost predicate NoNewCalls(more: seq<Move>) {
    forall i :: 0 <= i < |more| ==> more[i].StartEnds? || more[i].StopEnds?
  }

  ghost predicate Concerns(w: Work, d: string) {
    (w.BeingStopped? && w.id == d) || (w.BeingStarted? && w.service.id == d)
  }

  ghost predicate UnderWay(s: Desk, d: string) {
    exists t :: 0 <= t < |s.work| && Concerns(s.work[t], d)
  }

  lemma {:induction false} NothingUnderWayStays(s: Desk, more: seq<Move>, d: string)
    requires NoNewCalls(more) && IsIn(s.states, d, Started) && !UnderWay(s, d)
    ensures IsIn(Steps(s, more).states, d, Started) && !UnderWay(Steps(s, more), d)
  {
    if more != [] {
      var before := Steps(s, more[..|more| - 1]);
      NothingUnderWayStays(s, more[..|more| - 1], d);
      forall t | 0 <= t < |before.work|
        ensures !Concerns(before.work[t], d)
      {
      }
    }
  }

  lemma UnderWayEndsDown(s: Desk, t: nat, d: string) returns (m: Move)
    requires t < |s.work| && Concerns(s.work[t], d)
    ensures (m.StartEnds? || m.StopEnds?) && m.t == t && !IsIn(Moved(s, m).states, d, Started)
  {
    m := if s.work[t].BeingStopped? then StopEnds(t) else StartEnds(t, false);
  }

  /** Once `more` has happened, the end of start `t` makes its service STARTED without `d`. */
  ghost predicate EntersWithout(s: Desk, t: nat, more: seq<Move>, service: Service, d: string) {
    var e := Steps(s, more);
    && t < |e.work| && e.work[t] == BeingStarted(service)
    && IsIn(Moved(e, StartEnds(t, true)).states, service.id, Started)
    && !IsIn(Moved(e, StartEnds(t, true)).states, d, Started)
  }

  /**
   Without any new call a service that begins to start can still enter STARTED without a
   dependency, exactly when a stop or another start of that dependency is under way.
   */
  lemma CanLoseExactly(s: Desk, service: Service, d: string)
    requires StartsAtOnce(s, service) && d in service.dependsOn
    ensures var begun, t := Moved(s, Register(service)), |s.work|;
      (exists more :: NoNewCalls(more) && EntersWithout(begun, t, more, service, d)) <==> UnderWay(s, d)
  {
    var begun := Moved(s, Register(service));
    DependsOnOthers(s, service);
    if t :| 0 <= t < |s.work| && Concerns(s.work[t], d) {
      assert begun.work[t] == s.work[t];
      var m := UnderWayEndsDown(begun, t, d);
      assert [m][..0] == [];
      assert Steps(begun, []) == begun && Steps(begun, [m]) == Moved(begun, m);
      assert NoNewCalls([m]);
      StartedAtEnd(Moved(begun, m), |s.work|, d);
      assert EntersWithout(begun, |s.work|, [m], service, d);
    } else {
      forall more | NoNewCalls(more)
        ensures !EntersWithout(begun, |s.work|, more, service, d)
      {
        NothingUnderWayStays(begun, more, d);
      }
    }
  }

  function ExampleRun(): seq<Move> {
    [Register(Service("a", [])), StartEnds(0, true), Unregister("a"), Register(Service("b", ["a"])), StopEnds(1),
     StartEnds(2, true)]
  }

  lemma OneStep(run: seq<Move>, k: nat)
    requires k < |run|
    ensures After(run[..k + 1]) == Moved(After(run[..k]), run[k])
  {
    assert run[..k + 1][..k] == run[..k];
  }

  /** It happens: a service registered while its dependency is being stopped ends up STARTED without it. */
  lemma StartedWithoutDependency()
    ensures var end := After(ExampleRun());
      IsIn(end.states, "b", Started) && IsIn(end.states, "a", Stopped) && end.registered == {"b"}
  {
    var run := ExampleRun();
    assert After(run[..0]) == EMPTY_DESK;
    OneStep(run, 0);
    OneStep(run, 1);
    OneStep(run, 2);
    OneStep(run, 3);
    OneStep(run, 4);
    OneStep(run, 5);
    assert run[..6] == run;
  }
}
