/**
 Mutual exclusion by promise chaining: `prev.then(fn, fn)` behind a per-key tail. The
 same few lines appear in the platform's mutex, the audit service, the jobs service,
 `dbTransaction` and the self-cleaning driver lock. The event loop decides when a
 callback whose turn has come runs and when it settles, so a run is any sequence of
 the steps below; a step that is not enabled changes nothing.
 */
module PromiseChain {
  import opened Wrappers

  datatype Phase = Waiting | Running | Settled(ok: bool)

  /** `pred` is the task whose settling this one waits for. */
  datatype Task = Task(key: string, pred: Option<nat>, phase: Phase)

  /** `tails` is the map of last promises; a key is absent until used, and after cleaning. */
  datatype Chains = Chains(tasks: seq<Task>, tails: map<string, nat>)

  datatype Step =
    | Submit(key: string)
    | Start(task: nat)
    | Settle(task: nat, ok: bool)
    | Clean(task: nat)

  const EMPTY := Chains([], map[])

  function Tail(c: Chains, key: string): Option<nat> {
    if key in c.tails then Some(c.tails[key]) else None
  }

  predicate IsSettled(c: Chains, t: nat) {
    t < |c.tasks| && c.tasks[t].phase.Settled?
  }

  predicate IsRunning(c: Chains, t: nat) {
    t < |c.tasks| && c.tasks[t].phase.Running?
  }

  /** A fulfilled and a rejected predecessor both release the next task. */
  predicate CanStart(c: Chains, t: nat) {
    && t < |c.tasks|
    && c.tasks[t].phase.Waiting?
    && (c.tasks[t].pred.Some? ==> IsSettled(c, c.tasks[t].pred.value))
  }

  function Submitted(c: Chains, key: string): Chains {
    Chains(c.tasks + [Task(key, Tail(c, key), Waiting)], c.tails[key := |c.tasks|])
  }

  function WithPhase(c: Chains, t: nat, phase: Phase): Chains
    requires t < |c.tasks|
  {
    c.(tasks := c.tasks[t := c.tasks[t].(phase := phase)])
  }

  /** The tail is dropped only while it is still the promise of the settled task. */
  function Cleaned(c: Chains, t: nat): Chains
    requires t < |c.tasks|
  {
    if Tail(c, c.tasks[t].key) == Some(t) then c.(tails := c.tails - {c.tasks[t].key}) else c
  }

  predicate Enabled(c: Chains, step: Step) {
    match step
    case Submit(_) => true
    case Start(t) => CanStart(c, t)
    case Settle(t, _) => IsRunning(c, t)
    case Clean(t) => IsSettled(c, t)
  }

  function Apply(c: Chains, step: Step): Chains {
    if !Enabled(c, step) then c
    else
      match step
      case Submit(key) => Submitted(c, key)
      case Start(t) => WithPhase(c, t, Running)
      case Settle(t, ok) => WithPhase(c, t, Settled(ok))
      case Clean(t) => Cleaned(c, t)
  }

  function After(run: seq<Step>): Chains {
    if run == [] then EMPTY else Apply(After(run[..|run| - 1]), run[|run| - 1])
  }

  // ---- what every step keeps --------------------------------------------------------

  /** A task follows the latest earlier task of its key, or nothing that is still going on. */
  ghost predicate Linked(c: Chains, t: nat)
    requires t < |c.tasks|
  {
    var key := c.tasks[t].key;
    match c.tasks[t].pred
    case None => forall u :: 0 <= u < t && c.tasks[u].key == key ==> c.tasks[u].phase.Settled?
    case Some(p) =>
      && p < t
      && c.tasks[p].key == key
      && forall u :: p < u < t ==> c.tasks[u].key != key
  }

  ghost predicate AllLinked(c: Chains) {
    forall t :: 0 <= t < |c.tasks| ==> Linked(c, t)
  }

  /** Once a task has begun, every earlier task of its key is over. */
  ghost predicate InTurn(c: Chains) {
    forall t, u :: 0 <= u < t < |c.tasks| && c.tasks[u].key == c.tasks[t].key && !c.tasks[t].phase.Waiting?
      ==> c.tasks[u].phase.Settled?
  }

  /** The recorded tail of a key is its latest task; a key without a tail is idle. */
  ghost predicate TailsRight(c: Chains) {
    && (forall key :: key in c.tails ==>
      && c.tails[key] < |c.tasks|
      && c.tasks[c.tails[key]].key == key
      && forall u :: c.tails[key] < u < |c.tasks| ==> c.tasks[u].key != key)
    && (forall u :: 0 <= u < |c.tasks| && c.tasks[u].key !in c.tails ==> c.tasks[u].phase.Settled?)
  }

  ghost predicate Sound(c: Chains) {
    AllLinked(c) && InTurn(c) && TailsRight(c)
  }

  lemma SubmitKeepsSound(c: Chains, key: string)
    requires Sound(c)
    ensures Sound(Submitted(c, key))
  {
    var d := Submitted(c, key);
    forall t | 0 <= t < |d.tasks|
      ensures Linked(d, t)
    {
      assert t < |c.tasks| ==> Linked(c, t);
    }
  }

  lemma StartKeepsSound(c: Chains, t: nat)
    requires Sound(c) && CanStart(c, t)
    ensures Sound(WithPhase(c, t, Running))
  {
    assert Linked(c, t);
    var d := WithPhase(c, t, Running);
    forall u | 0 <= u < |d.tasks|
      ensures Linked(d, u)
    {
      assert Linked(c, u);
    }
  }

  lemma SettleKeepsSound(c: Chains, t: nat, ok: bool)
    requires Sound(c) && IsRunning(c, t)
    ensures Sound(WithPhase(c, t, Settled(ok)))
  {
    var d := WithPhase(c, t, Settled(ok));
    forall u | 0 <= u < |d.tasks|
      ensures Linked(d, u)
    {
      assert Linked(c, u);
    }
  }

  /** Behind a settled latest task nothing of its key is pending, so the tail can go. */
  lemma CleanKeepsSound(c: Chains, t: nat)
    requires Sound(c) && IsSettled(c, t)
    ensures Sound(Cleaned(c, t))
  {
    var d := Cleaned(c, t);
    forall u | 0 <= u < |d.tasks|
      ensures Linked(d, u)
    {
      assert Linked(c, u);
    }
  }

  /** Cleaning forgets a key exactly when the settled task is its latest, and touches no other key. */
  lemma CleanForgetsExactly(c: Chains, t: nat, key: string)
    requires Sound(c) && IsSettled(c, t)
    ensures var d := Cleaned(c, t);
      && d.tasks == c.tasks
      && (key in d.tails <==>
        key in c.tails && (key != c.tasks[t].key || exists u :: t < u < |c.tasks| && c.tasks[u].key == key))
      && (key in d.tails ==> d.tails[key] == c.tails[key])
  {
  }

  lemma StepKeepsSound(c: Chains, step: Step)
    requires Sound(c)
    ensures Sound(Apply(c, step))
  {
    if Enabled(c, step) {
      match step
      case Submit(key) => SubmitKeepsSound(c, key);
      case Start(t) => StartKeepsSound(c, t);
      case Settle(t, ok) => SettleKeepsSound(c, t, ok);
      case Clean(t) => CleanKeepsSound(c, t);
    }
  }

  lemma {:induction false} RunsAreSound(run: seq<Step>)
    ensures Sound(After(run))
  {
    if run != [] {
      RunsAreSound(run[..|run| - 1]);
      StepKeepsSound(After(run[..|run| - 1]), run[|run| - 1]);
    }
  }

  /** Whatever the interleaving, two tasks of one key never run at the same time. */
  lemma MutualExclusion(run: seq<Step>, t: nat, u: nat)
    requires IsRunning(After(run), t) && IsRunning(After(run), u)
    requires After(run).tasks[t].key == After(run).tasks[u].key
    ensures t == u
  {
    RunsAreSound(run);
  }

  /** A key with unfinished tasks always has one that is running or may start now. */
  lemma {:induction false} NeverStuck(c: Chains, t: nat) returns (next: nat)
    requires Sound(c) && t < |c.tasks| && !c.tasks[t].phase.Settled?
    ensures next <= t && c.tasks[next].key == c.tasks[t].key && (IsRunning(c, next) || CanStart(c, next))
  {
    next := t;
    if exists u :: 0 <= u < t && c.tasks[u].key == c.tasks[t].key && !c.tasks[u].phase.Settled? {
      var u :| 0 <= u < t && c.tasks[u].key == c.tasks[t].key && !c.tasks[u].phase.Settled?;
      next := NeverStuck(c, u);
    } else {
      assert Linked(c, t);
    }
  }

  // ---- every task gets its turn -------------------------------------------------------

  /** How many steps the tasks are away from being settled. */
  function Load(tasks: seq<Task>): nat {
    if tasks == [] then 0
    else
      Load(tasks[..|tasks| - 1])
      + match tasks[|tasks| - 1].phase { case Waiting => 2 case Running => 1 case Settled(_) => 0 }
  }

  lemma {:induction false} LoadDrops(tasks: seq<Task>, t: nat, task: Task)
    requires t < |tasks|
    requires (tasks[t].phase.Waiting? && !task.phase.Waiting?) || (tasks[t].phase.Running? && task.phase.Settled?)
    ensures Load(tasks[t := task]) < Load(tasks)
  {
    var last := |tasks| - 1;
    if t == last {
      assert tasks[t := task][..last] == tasks[..last];
    } else {
      assert tasks[t := task][..last] == tasks[..last][t := task];
      LoadDrops(tasks[..last], t, task);
    }
  }

  /** Every task can still begin, and then end in success or failure, whatever becomes of those before it. */
  lemma EveryTaskCanEnd(run: seq<Step>, t: nat, ok: bool) returns (more: seq<Step>)
    requires t < |After(run).tasks| && !After(run).tasks[t].phase.Settled?
    ensures t < |After(run + more).tasks| && After(run + more).tasks[t].phase == Settled(ok)
    decreases Load(After(run).tasks)
  {
    hide Sound, Linked;
    RunsAreSound(run);
    var c := After(run);
    var next := NeverStuck(c, t);
    var step := if IsRunning(c, next) then Settle(next, ok) else Start(next);
    NextStep(c, next, step, ok, t);
    var longer := Extended(run, step);
    hide After, Load, Apply, CanStart, IsRunning;
    if next == t && step.Settle? {
      more := [step];
    } else {
      var rest := EveryTaskCanEnd(longer, t, ok);
      more := [step] + rest;
      assert run + more == longer + rest;
    }
  }

  lemma NextStep(c: Chains, next: nat, step: Step, ok: bool, t: nat)
    requires t < |c.tasks| && !c.tasks[t].phase.Settled?
    requires step == if IsRunning(c, next) then Settle(next, ok) else Start(next)
    requires IsRunning(c, next) || CanStart(c, next)
    ensures t < |Apply(c, step).tasks| && Load(Apply(c, step).tasks) < Load(c.tasks)
    ensures if next == t && step.Settle? then Apply(c, step).tasks[t].phase == Settled(ok)
            else !Apply(c, step).tasks[t].phase.Settled?
  {
    LoadDrops(c.tasks, next, Apply(c, step).tasks[next]);
  }

  // ---- runs are serial ---------------------------------------------------------------

  datatype Event = Began(task: nat) | Ended(task: nat)

  /** The tasks of a key in the order they were submitted. */
  function Turns(tasks: seq<Task>, key: string): seq<nat> {
    if tasks == [] then []
    else
      var last := |tasks| - 1;
      Turns(tasks[..last], key) + if tasks[last].key == key then [last] else []
  }

  /** What a queue with a single server would do: each task begins and ends before the next. */
  function OneByOne(ids: seq<nat>): seq<Event> {
    if ids == [] then []
    else
      var last := ids[|ids| - 1];
      OneByOne(ids[..|ids| - 1]) + [Began(last), Ended(last)]
  }

  /** The begin and end events of one key in a run. */
  function Events(run: seq<Step>, key: string): seq<Event> {
    if run == [] then []
    else
      var before, step := After(run[..|run| - 1]), run[|run| - 1];
      Events(run[..|run| - 1], key) +
      if !Enabled(before, step) then []
      else if step.Start? && before.tasks[step.task].key == key then [Began(step.task)]
      else if step.Settle? && before.tasks[step.task].key == key then [Ended(step.task)]
      else []
  }

  function Trace(t: nat, phase: Phase): seq<Event> {
    match phase
    case Waiting => []
    case Running => [Began(t)]
    case Settled(_) => [Began(t), Ended(t)]
  }

  /** The events that the phases of a key's tasks speak of, in submission order. */
  function Lived(tasks: seq<Task>, key: string): seq<Event> {
    if tasks == [] then []
    else
      var last := |tasks| - 1;
      Lived(tasks[..last], key) + if tasks[last].key == key then Trace(last, tasks[last].phase) else []
  }

  lemma OneByOneAppend(ids: seq<nat>, t: nat)
    ensures OneByOne(ids + [t]) == OneByOne(ids) + [Began(t), Ended(t)]
  {
    assert (ids + [t])[..|ids|] == ids;
  }

  lemma {:induction false} SettledLived(tasks: seq<Task>, key: string)
    requires forall u :: 0 <= u < |tasks| && tasks[u].key == key ==> tasks[u].phase.Settled?
    ensures Lived(tasks, key) == OneByOne(Turns(tasks, key))
  {
    if tasks != [] {
      var last := |tasks| - 1;
      SettledLived(tasks[..last], key);
      if tasks[last].key == key {
        assert Turns(tasks, key) == Turns(tasks[..last], key) + [last];
        OneByOneAppend(Turns(tasks[..last], key), last);
      } else {
        assert Turns(tasks, key) == Turns(tasks[..last], key);
      }
    }
  }

  lemma {:induction false} WaitingLived(tasks: seq<Task>, key: string, n: nat)
    requires n <= |tasks|
    requires forall u :: n <= u < |tasks| && tasks[u].key == key ==> tasks[u].phase.Waiting?
    ensures Lived(tasks, key) == Lived(tasks[..n], key)
    decreases |tasks|
  {
    if n < |tasks| {
      WaitingLived(tasks[..|tasks| - 1], key, n);
      assert tasks[..|tasks| - 1][..n] == tasks[..n];
    } else {
      assert tasks[..n] == tasks;
    }
  }

  lemma LivedUpTo(tasks: seq<Task>, key: string, t: nat)
    requires t < |tasks| && tasks[t].key == key
    requires forall u :: t < u < |tasks| && tasks[u].key == key ==> tasks[u].phase.Waiting?
    ensures Lived(tasks, key) == Lived(tasks[..t], key) + Trace(t, tasks[t].phase)
  {
    WaitingLived(tasks, key, t + 1);
    assert tasks[..t + 1][..t] == tasks[..t];
  }

  lemma {:induction false} OtherKeyLived(tasks: seq<Task>, t: nat, phase: Phase, key: string)
    requires t < |tasks| && tasks[t].key != key
    ensures Lived(tasks[t := tasks[t].(phase := phase)], key) == Lived(tasks, key)
  {
    var last := |tasks| - 1;
    var changed := tasks[t := tasks[t].(phase := phase)];
    if t == last {
      assert changed[..last] == tasks[..last];
    } else {
      OtherKeyLived(tasks[..last], t, phase, key);
      assert changed[..last] == tasks[..last][t := tasks[t].(phase := phase)];
    }
  }

  /** Moving the task whose turn it is to its next phase adds one event at the end. */
  lemma TurnLived(c: Chains, t: nat, phase: Phase)
    requires Sound(c) && t < |c.tasks|
    requires (CanStart(c, t) && phase.Running?) || (IsRunning(c, t) && phase.Settled?)
    ensures var key := c.tasks[t].key;
      Lived(WithPhase(c, t, phase).tasks, key)
      == Lived(c.tasks, key) + [if phase.Running? then Began(t) else Ended(t)]
  {
    var key, d := c.tasks[t].key, WithPhase(c, t, phase);
    hide Linked, TailsRight, Lived;
    LivedUpTo(c.tasks, key, t);
    LivedUpTo(d.tasks, key, t);
    assert c.tasks[..t] == d.tasks[..t];
  }

  lemma {:induction false} EventsAreLived(run: seq<Step>, key: string)
    ensures Events(run, key) == Lived(After(run).tasks, key)
  {
    if run != [] {
      var init, step := run[..|run| - 1], run[|run| - 1];
      var c := After(init);
      EventsAreLived(init, key);
      RunsAreSound(init);
      if Enabled(c, step) {
        match step
        case Submit(k) =>
          assert Submitted(c, k).tasks[..|c.tasks|] == c.tasks;
        case Start(t) =>
          if c.tasks[t].key == key {
            TurnLived(c, t, Running);
          } else {
            OtherKeyLived(c.tasks, t, Running, key);
          }
        case Settle(t, ok) =>
          if c.tasks[t].key == key {
            TurnLived(c, t, Settled(ok));
          } else {
            OtherKeyLived(c.tasks, t, Settled(ok), key);
          }
        case Clean(t) =>
      }
    }
  }

  lemma {:induction false} LivedIsPrefix(c: Chains, n: nat, key: string)
    requires InTurn(c) && n <= |c.tasks|
    ensures Lived(c.tasks[..n], key) <= OneByOne(Turns(c.tasks[..n], key))
  {
    if n > 0 {
      var tasks := c.tasks[..n];
      assert tasks[..n - 1] == c.tasks[..n - 1];
      LivedIsPrefix(c, n - 1, key);
      if tasks[n - 1].key == key {
        assert Turns(tasks, key) == Turns(tasks[..n - 1], key) + [n - 1];
        OneByOneAppend(Turns(tasks[..n - 1], key), n - 1);
        if !tasks[n - 1].phase.Waiting? {
          SettledLived(tasks[..n - 1], key);
        }
      } else {
        assert Turns(tasks, key) == Turns(tasks[..n - 1], key);
      }
    }
  }

  /**
   Every interleaving does, key by key, what the single-server queue does: the begins
   and ends of a key are a prefix of running its tasks one by one as submitted.
   */
  lemma RunsAreSerial(run: seq<Step>, key: string)
    ensures Events(run, key) <= OneByOne(Turns(After(run).tasks, key))
  {
    var c := After(run);
    RunsAreSound(run);
    EventsAreLived(run, key);
    LivedIsPrefix(c, |c.tasks|, key);
    assert c.tasks[..|c.tasks|] == c.tasks;
  }

  /** Deleting the tail without comparing it first would let two tasks of one key run. */
  lemma CleaningNeedsTheComparison() returns (c: Chains)
    ensures var forgotten := c.(tails := c.tails - {"a"});
      && Sound(c) && IsSettled(c, 0)
      && (exists run :: c == After(run))
      && var d := Apply(Apply(forgotten, Submit("a")), Start(2));
      && IsRunning(d, 1) && IsRunning(d, 2) && d.tasks[1].key == d.tasks[2].key
  {
    var run := [];
    run := Extended(run, Submit("a"));
    run := Extended(run, Submit("a"));
    run := Extended(run, Start(0));
    run := Extended(run, Settle(0, true));
    run := Extended(run, Start(1));
    c := After(run);
    RunsAreSound(run);
  }

  lemma Extended(run: seq<Step>, step: Step) returns (longer: seq<Step>)
    ensures longer == run + [step] && After(longer) == Apply(After(run), step)
  {
    longer := run + [step];
    assert longer[..|run|] == run;
  }

  // ---- the mutex object --------------------------------------------------------------

  /** The mutex: `chains` is its map of promises, `tasks` the callbacks handed to it. */
  class Mutex {
    var tasks: seq<Task>
    var chains: map<string, nat>

    ghost function View(): Chains
      reads this
    {
      Chains(tasks, chains)
    }

    constructor ()
      ensures View() == EMPTY
    {
      tasks, chains := [], map[];
    }

    method RunExclusive(key: string) returns (t: nat)
      requires Sound(View())
      modifies this
      ensures t == |old(tasks)| && View() == Submitted(old(View()), key) && Sound(View())
    {
      SubmitKeepsSound(View(), key);
      var prev := if key in chains then Some(chains[key]) else None;
      t := |tasks|;
      tasks := tasks + [Task(key, prev, Waiting)];
      chains := chains[key := t];
    }

    /** The event loop calls the callback if the promise it hangs on has settled. */
    method Begin(t: nat) returns (begun: bool)
      requires Sound(View())
      modifies this`tasks
      ensures begun == CanStart(old(View()), t)
      ensures View() == Apply(old(View()), Start(t)) && Sound(View())
    {
      StepKeepsSound(View(), Start(t));
      begun := false;
      if t < |tasks| && tasks[t].phase.Waiting? {
        var prev := tasks[t].pred;
        if prev.None? || (prev.value < |tasks| && tasks[prev.value].phase.Settled?) {
          tasks := tasks[t := tasks[t].(phase := Running)];
          begun := true;
        }
      }
    }

    method End(t: nat, ok: bool)
      requires Sound(View()) && IsRunning(View(), t)
      modifies this`tasks
      ensures View() == Apply(old(View()), Settle(t, ok)) && Sound(View())
    {
      StepKeepsSound(View(), Settle(t, ok));
      tasks := tasks[t := tasks[t].(phase := Settled(ok))];
    }

    /** The driver lock's clean-up after a task. */
    method Forget(t: nat)
      requires Sound(View()) && IsSettled(View(), t)
      modifies this`chains
      ensures View() == Apply(old(View()), Clean(t)) && Sound(View())
    {
      StepKeepsSound(View(), Clean(t));
      var key := tasks[t].key;
      if key in chains && chains[key] == t {
        chains := chains - {key};
      }
    }
  }
}
