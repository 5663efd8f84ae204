/**
 Overlapping ticks and cancels in src/application/jobs/jobsService.js: every mutation of a
 job runs under the job's lock, and the provider may refuse any write, stored or not. A
 run is any sequence of moves at the `await` points.
 */
module JobsInterleaving {
  import opened Wrappers
  import opened Job
  import P = PromiseChain

  /** What ticks and callers put behind a job's lock. */
  datatype Task =
    | Execute(key: Key, now: Time)
    | Recover(key: Key, now: Time)
    | Cancel(key: Key)

  /**
   Where the task is: before its lock, about to read the job, about to store the job it
   holds in memory, in the handler, or done. The end of an execution is stored inside the
   `try` when `guarded`, so that a refused write is handled as one more failure.
   */
  datatype Work =
    | Idle
    | Entered
    | Starting(job: Job)
    | Handling(job: Job)
    | Ending(job: Job, guarded: bool)
    | Storing(job: Job)
    | Over

  /** `started` lists the handler calls in order. */
  datatype Engine = Engine(locks: P.Chains, tasks: seq<Task>, work: seq<Work>, store: map<Key, Job>, started: seq<Key>)

  /** A write may be stored and acknowledged, lost and refused, or stored and refused all the same. */
  datatype Write = Acknowledged | Lost | StoredButRefused

  /** What a task was waiting for, as it comes in. */
  datatype Answer =
    | Read
    | StartWritten(write: Write, handled: bool)
    | HandlerEnded(outcome: Outcome)
    | EndWritten(write: Write, at: Time)
    | ChangeWritten(write: Write)

  datatype Move =
    | Add(job: Job)
    | Submit(task: Task)
    | Enter(t: nat)
    | Advance(t: nat, answer: Answer)

  const IDLE_ENGINE := Engine(P.EMPTY, [], [], map[], [])

  function LockName(k: Key): string {
    k.namespace + "::" + k.id
  }

  // ---- one task -----------------------------------------------------------------------------

  predicate Awaits(task: Task, w: Work, a: Answer) {
    match a
    case Read => w.Entered?
    case StartWritten(_, _) => w.Starting? && task.Execute?
    case HandlerEnded(_) => w.Handling?
    case EndWritten(_, _) => w.Ending?
    case ChangeWritten(_) => w.Storing?
  }

  /** What an answer makes of a task: its next work, a write that took effect, how it settles. */
  datatype Effect = Effect(work: Work, put: Option<Job>, ok: bool)

  function Put(j: Job, write: Write): Option<Job> {
    if write.Lost? then None else Some(j)
  }

  /** Under the lock the job is read again, and left alone if it has moved on. */
  function Fetched(task: Task, found: Option<Job>): Work {
    if found.None? then Over
    else
      var j := found.value;
      match task
      case Execute(_, now) => if Pending(j.status) then Starting(MarkRunning(j, now)) else Over
      case Recover(_, now) => if j.status.Running? then Storing(Failed(j, now)) else Over
      case Cancel(_) => if Terminal(j.status) || j.status.Running? then Over else Storing(j.(status := Cancelled))
  }

  function Next(task: Task, w: Work, found: Option<Job>, a: Answer): Effect
    requires Awaits(task, w, a)
  {
    match a
    case Read => Effect(Fetched(task, found), None, true)
    case StartWritten(write, handled) =>
      Effect(if !write.Acknowledged? then Over
             else if handled then Handling(w.job)
             else Ending(Failed(w.job, task.now), false),
             Put(w.job, write), write.Acknowledged?)
    case HandlerEnded(outcome) => Effect(Ending(Concluded(w.job, outcome), true), None, true)
    case EndWritten(write, at) =>
      Effect(if !write.Acknowledged? && w.guarded then Ending(Failed(w.job, at), false) else Over,
             Put(w.job, write), write.Acknowledged?)
    case ChangeWritten(write) => Effect(Over, Put(w.job, write), write.Acknowledged?)
  }

  /** A retry is only ever planned while attempts are left, and a job only given up when none is. */
  ghost predicate Affordable(j: Job) {
    && ValidPolicy(j.policy)
    && j.attempts <= j.policy.maxAttempts
    && (Pending(j.status) ==> j.attempts < j.policy.maxAttempts)
    && (j.status.DeadLetter? ==> j.attempts == j.policy.maxAttempts)
  }

  /** What an execution ends in. */
  ghost predicate Ends(after: Status) {
    after.Completed? || after.Retrying? || after.DeadLetter?
  }

  /**
   The life of a job: pending, running, and back to pending or over; only pending jobs are
   cancelled. A retry may be written twice, if its first write was refused.
   */
  ghost predicate Allowed(before: Status, after: Status) {
    if before.Running? then Ends(after)
    else Pending(before) && (after.Running? || after.Cancelled? || (before.Retrying? && after.Retrying?))
  }

  /** The failure that is written after the end of an execution was stored but refused. */
  ghost predicate Overrules(stored: Job, j: Job) {
    !j.status.Completed? && (stored.status.Completed? || (stored.status.Retrying? && j.status.Retrying?) || j == stored)
  }

  /** The job a task holds is the stored one, one step further. */
  ghost predicate Successor(stored: Job, w: Work) {
    match w
    case Starting(j) =>
      Pending(stored.status) && SameJob(stored, j) && j.status.Running? && j.attempts == stored.attempts + 1
    case Handling(j) => j == stored && j.status.Running?
    case Ending(j, guarded) =>
      && SameJob(stored, j) && j.attempts == stored.attempts && Affordable(j) && Ends(j.status)
      && (stored.status.Running? || (!guarded && Overrules(stored, j)))
    case Storing(j) =>
      && SameJob(stored, j) && j.attempts == stored.attempts && Affordable(j)
      && !j.status.Running? && Allowed(stored.status, j.status)
    case _ => true
  }

  ghost predicate Holds(w: Work) {
    w.Starting? || w.Handling? || w.Ending? || w.Storing?
  }

  /** The provider's job is sound and what the task holds follows it. */
  ghost predicate InStep(k: Key, found: Option<Job>, w: Work) {
    && (found.Some? ==> found.value.key == k && Affordable(found.value))
    && (Holds(w) ==> found.Some? && Successor(found.value, w))
  }

  /** A completion is stored while a failure is about to be written over it. */
  ghost predicate Overruling(w: Work, found: Option<Job>) {
    w.Ending? && found.Some? && found.value.status.Completed?
  }

  /** The answer that stores a completion and reports it as refused. */
  ghost predicate RefusesCompletion(w: Work, a: Answer) {
    a.EndWritten? && a.write.StoredButRefused? && w.Ending? && w.job.status.Completed?
  }

  function Afterwards(eff: Effect, found: Option<Job>): Option<Job> {
    if eff.put.Some? then eff.put else found
  }

  /** A write leaves the stored job alone or takes the same job one step along its life. */
  ghost predicate OneStep(before: Job, after: Job) {
    after == before || (SameJob(before, after) && Allowed(before.status, after.status))
  }

  /** One answer keeps a task in step with the provider; a handler call is charged one attempt. */
  lemma NextInStep(task: Task, w: Work, found: Option<Job>, a: Answer)
    requires Awaits(task, w, a) && InStep(task.key, found, w)
    ensures var eff := Next(task, w, found, a);
      && !eff.work.Idle? && !eff.work.Entered?
      && (eff.put.Some? ==> found.Some? && eff.put.value.key == task.key)
      && InStep(task.key, Afterwards(eff, found), eff.work)
      && (found.Some? ==> found.value.attempts <= Afterwards(eff, found).value.attempts)
      && (eff.work.Handling? ==>
        eff.work.job.key == task.key && found.value.attempts < Afterwards(eff, found).value.attempts)
  {
  }

  lemma NextIsStep(task: Task, w: Work, found: Option<Job>, a: Answer)
    requires Awaits(task, w, a) && InStep(task.key, found, w) && found.Some? && !Overruling(w, found)
    ensures OneStep(found.value, Afterwards(Next(task, w, found, a), found).value)
  {
  }

  /** Only a refused completion sets up an overruling; an overruling that is written rewrites the job. */
  lemma OverrulingComesFrom(task: Task, w: Work, found: Option<Job>, a: Answer)
    requires Awaits(task, w, a) && InStep(task.key, found, w)
    ensures var eff := Next(task, w, found, a);
      Overruling(eff.work, Afterwards(eff, found)) ==> RefusesCompletion(w, a) && !Overruling(w, found)
    ensures Overruling(w, found) && a == EndWritten(Acknowledged, 0.0)
      ==> Afterwards(Next(task, w, found, a), found) != found
  {
  }

  /**
   Under its lock a task acts on the job as it finds it: an execution starts a pending job, a
   recovery fails a running one, and a cancellation cancels a pending one.
   */
  lemma ActsOnWhatItFinds(task: Task, found: Option<Job>)
    ensures var work := Next(task, Entered, found, Read).work;
      && (work.Starting? <==> task.Execute? && found.Some? && Pending(found.value.status))
      && (work.Starting? ==> work.job == MarkRunning(found.value, task.now))
      && (work.Storing? <==>
        && found.Some?
        && if task.Recover? then found.value.status.Running? else task.Cancel? && Pending(found.value.status))
      && (work.Storing? && task.Recover? ==> work.job == Failed(found.value, task.now))
      && (work.Storing? && task.Cancel? ==> work.job == found.value.(status := Cancelled))
      && (work.Starting? || work.Storing? || work.Over?)
  {
  }

  /** A write stores what the task holds, unless it is lost; nothing else is ever stored. */
  lemma StoresWhatItHolds(task: Task, w: Work, found: Option<Job>, a: Answer)
    requires Awaits(task, w, a)
    ensures var put := Next(task, w, found, a).put;
      match a
      case StartWritten(write, _) => put == if write.Lost? then None else Some(w.job)
      case EndWritten(write, _) => put == if write.Lost? then None else Some(w.job)
      case ChangeWritten(write) => put == if write.Lost? then None else Some(w.job)
      case _ => put.None?
  {
  }

  /** A task is over as a success unless its last write was refused; only the end of a handler is tried twice. */
  lemma EndsAsWritten(task: Task, w: Work, found: Option<Job>, a: Answer)
    requires Awaits(task, w, a)
    ensures var eff := Next(task, w, found, a);
      && (eff.work.Over? ==> (eff.ok <==> match a
                                          case StartWritten(write, _) => write.Acknowledged?
                                          case EndWritten(write, _) => write.Acknowledged?
                                          case ChangeWritten(write) => write.Acknowledged?
                                          case _ => true))
      && (eff.work.Ending? && eff.work.guarded ==> a.HandlerEnded?)
      && (a.HandlerEnded? ==> eff.work == Ending(Concluded(w.job, a.outcome), true))
      && (a.StartWritten? && a.write.Acknowledged? && !a.handled ==> eff.work == Ending(Failed(w.job, task.now), false))
  {
  }

  // ---- all tasks -------------------------------------------------------------------------------

  predicate Active(e: Engine, t: nat) {
    P.IsRunning(e.locks, t) && t < |e.tasks| && t < |e.work|
  }

  predicate MayMove(e: Engine, m: Move) {
    match m
    case Add(j) => j.key !in e.store && Pending(j.status) && j.attempts == 0 && ValidPolicy(j.policy)
    case Submit(_) => true
    case Enter(t) => P.CanStart(e.locks, t) && t < |e.tasks| && t < |e.work|
    case Advance(t, a) => Active(e, t) && Awaits(e.tasks[t], e.work[t], a)
  }

  function Find(store: map<Key, Job>, k: Key): Option<Job> {
    if k in store then Some(store[k]) else None
  }

  /** A task that is over releases its lock. */
  function Advanced(e: Engine, t: nat, eff: Effect): Engine
    requires Active(e, t)
  {
    e.(work := e.work[t := eff.work],
       store := if eff.put.Some? then e.store[eff.put.value.key := eff.put.value] else e.store,
       started := if eff.work.Handling? then e.started + [eff.work.job.key] else e.started,
       locks := if eff.work.Over? then P.WithPhase(e.locks, t, P.Settled(eff.ok)) else e.locks)
  }

  function EffectOf(e: Engine, t: nat, a: Answer): Effect
    requires Active(e, t) && Awaits(e.tasks[t], e.work[t], a)
  {
    Next(e.tasks[t], e.work[t], Find(e.store, e.tasks[t].key), a)
  }

  function Moved(e: Engine, m: Move): Engine {
    if !MayMove(e, m) then e
    else
      match m
      case Add(j) => e.(store := e.store[j.key := j])
      case Submit(task) =>
        e.(locks := P.Submitted(e.locks, LockName(task.key)), tasks := e.tasks + [task], work := e.work + [Idle])
      case Enter(t) => e.(work := e.work[t := Entered], locks := P.WithPhase(e.locks, t, P.Running))
      case Advance(t, a) => Advanced(e, t, EffectOf(e, t, a))
  }

  function After(run: seq<Move>): Engine {
    if run == [] then IDLE_ENGINE else Moved(After(run[..|run| - 1]), run[|run| - 1])
  }

  ghost predicate Placed(e: Engine, t: nat)
    requires t < |e.tasks| == |e.work| == |e.locks.tasks|
  {
    && e.locks.tasks[t].key == LockName(e.tasks[t].key)
    && (e.work[t].Idle? <==> e.locks.tasks[t].phase.Waiting?)
    && (e.work[t].Over? <==> e.locks.tasks[t].phase.Settled?)
    && InStep(e.tasks[t].key, Find(e.store, e.tasks[t].key), e.work[t])
  }

  function CountOf(keys: seq<Key>, k: Key): nat {
    if keys == [] then 0
    else CountOf(keys[..|keys| - 1], k) + if keys[|keys| - 1] == k then 1 else 0
  }

  /** No more handler calls than attempts have been charged. */
  ghost predicate Charged(store: map<Key, Job>, started: seq<Key>) {
    forall k :: CountOf(started, k) <= if k in store then store[k].attempts else 0
  }

  ghost predicate StoreSound(store: map<Key, Job>) {
    forall k :: k in store ==> store[k].key == k && Affordable(store[k])
  }

  ghost predicate Coherent(e: Engine) {
    && P.Sound(e.locks)
    && |e.tasks| == |e.work| == |e.locks.tasks|
    && (forall t :: 0 <= t < |e.tasks| ==> Placed(e, t))
    && StoreSound(e.store)
    && Charged(e.store, e.started)
  }

  /** Two tasks of one job are never both past its lock. */
  lemma OnePerJob(e: Engine, t: nat, u: nat)
    requires Coherent(e) && Active(e, t) && Active(e, u) && t != u
    ensures e.tasks[t].key != e.tasks[u].key
  {
    assert Placed(e, t) && Placed(e, u);
  }

  /** What one task does to its own job leaves every other task where it was. */
  lemma OthersStayPlaced(e: Engine, t: nat, eff: Effect, u: nat)
    requires Coherent(e) && Active(e, t) && u < |e.tasks| && u != t
    requires eff.put.Some? ==> eff.put.value.key == e.tasks[t].key
    requires InStep(e.tasks[t].key, Afterwards(eff, Find(e.store, e.tasks[t].key)), eff.work)
    ensures Placed(Advanced(e, t, eff), u)
  {
    assert Placed(e, u) && Placed(e, t);
    if Active(e, u) {
      OnePerJob(e, t, u);
    }
    hide P.Sound, StoreSound, Charged, Successor, Affordable;
  }

  lemma OwnStaysPlaced(e: Engine, t: nat, eff: Effect)
    requires Coherent(e) && Active(e, t) && !eff.work.Idle?
    requires eff.put.Some? ==> eff.put.value.key == e.tasks[t].key
    requires InStep(e.tasks[t].key, Afterwards(eff, Find(e.store, e.tasks[t].key)), eff.work)
    ensures Placed(Advanced(e, t, eff), t)
  {
    assert Placed(e, t);
    hide P.Sound, StoreSound, Charged, InStep;
  }

  lemma AdvanceKeepsStore(e: Engine, t: nat, eff: Effect)
    requires Coherent(e) && Active(e, t)
    requires eff.put.Some? ==> eff.put.value.key == e.tasks[t].key
    requires InStep(e.tasks[t].key, Afterwards(eff, Find(e.store, e.tasks[t].key)), eff.work)
    ensures StoreSound(Advanced(e, t, eff).store)
  {
    hide P.Sound, Charged, Placed, Affordable, Successor;
  }

  lemma AdvanceKeepsCharged(e: Engine, t: nat, eff: Effect)
    requires Coherent(e) && Active(e, t)
    requires var k, found := e.tasks[t].key, Find(e.store, e.tasks[t].key);
      && (eff.put.Some? ==> found.Some? && eff.put.value.key == k)
      && (found.Some? ==> found.value.attempts <= Afterwards(eff, found).value.attempts)
      && (eff.work.Handling? ==>
        found.Some? && eff.work.job.key == k && found.value.attempts < Afterwards(eff, found).value.attempts)
    ensures var f := Advanced(e, t, eff); Charged(f.store, f.started)
  {
    var f := Advanced(e, t, eff);
    hide P.Sound, Placed, StoreSound;
    forall k
      ensures CountOf(f.started, k) <= if k in f.store then f.store[k].attempts else 0
    {
      assert CountOf(e.started, k) <= if k in e.store then e.store[k].attempts else 0;
      if eff.work.Handling? {
        assert f.started[..|f.started| - 1] == e.started;
      }
    }
  }

  lemma AdvanceKeepsCoherent(e: Engine, t: nat, a: Answer)
    requires Coherent(e) && MayMove(e, Advance(t, a))
    ensures Coherent(Moved(e, Advance(t, a)))
  {
    var eff := EffectOf(e, t, a);
    assert Placed(e, t);
    NextInStep(e.tasks[t], e.work[t], Find(e.store, e.tasks[t].key), a);
    OwnStaysPlaced(e, t, eff);
    AdvanceKeepsStore(e, t, eff);
    AdvanceKeepsCharged(e, t, eff);
    P.SettleKeepsSound(e.locks, t, eff.ok);
    forall u | 0 <= u < |e.tasks|
      ensures Placed(Advanced(e, t, eff), u)
    {
      if u != t {
        OthersStayPlaced(e, t, eff, u);
      }
    }
    hide P.Sound, Placed, StoreSound, Charged, InStep, EffectOf;
  }

  lemma AddKeepsCoherent(e: Engine, m: Move)
    requires Coherent(e) && MayMove(e, m) && m.Add?
    ensures Coherent(Moved(e, m))
  {
    hide P.Sound, Successor;
    var f := Moved(e, m);
    forall u | 0 <= u < |f.tasks|
      ensures Placed(f, u)
    {
      assert Placed(e, u);
    }
  }

  lemma SubmitKeepsCoherent(e: Engine, task: Task)
    requires Coherent(e)
    ensures Coherent(Moved(e, Submit(task)))
  {
    P.SubmitKeepsSound(e.locks, LockName(task.key));
    hide P.Sound, Successor, StoreSound, Charged, Affordable;
    var f := Moved(e, Submit(task));
    forall u | 0 <= u < |f.tasks|
      ensures Placed(f, u)
    {
      if u < |e.tasks| {
        assert Placed(e, u);
        SamePlace(e, f, u);
      } else {
        NewPlace(e, f, u);
      }
    }
  }

  lemma SamePlace(e: Engine, f: Engine, u: nat)
    requires u < |e.tasks| == |e.work| == |e.locks.tasks| && u < |f.tasks| == |f.work| == |f.locks.tasks|
    requires Placed(e, u) && f.store == e.store
    requires f.tasks[u] == e.tasks[u] && f.work[u] == e.work[u] && f.locks.tasks[u] == e.locks.tasks[u]
    ensures Placed(f, u)
  {
    hide InStep;
  }

  lemma NewPlace(e: Engine, f: Engine, u: nat)
    requires u < |f.tasks| == |f.work| == |f.locks.tasks| && StoreSound(e.store) && f.store == e.store
    requires f.locks.tasks[u].key == LockName(f.tasks[u].key)
    requires (f.work[u].Idle? && f.locks.tasks[u].phase.Waiting?)
      || (f.work[u].Entered? && f.locks.tasks[u].phase.Running?)
    ensures Placed(f, u)
  {
    hide Affordable;
  }

  lemma EnterKeepsCoherent(e: Engine, t: nat)
    requires Coherent(e) && MayMove(e, Enter(t))
    ensures Coherent(Moved(e, Enter(t)))
  {
    P.StartKeepsSound(e.locks, t);
    hide P.Sound, Successor, StoreSound, Charged, Affordable;
    var f := Moved(e, Enter(t));
    forall u | 0 <= u < |f.tasks|
      ensures Placed(f, u)
    {
      assert Placed(e, u);
      if u != t {
        SamePlace(e, f, u);
      } else {
        NewPlace(e, f, u);
      }
    }
  }

  lemma MoveKeepsCoherent(e: Engine, m: Move)
    requires Coherent(e)
    ensures Coherent(Moved(e, m))
  {
    hide Coherent;
    if MayMove(e, m) {
      if m.Advance? {
        AdvanceKeepsCoherent(e, m.t, m.answer);
      } else if m.Add? {
        AddKeepsCoherent(e, m);
      } else if m.Submit? {
        SubmitKeepsCoherent(e, m.task);
      } else {
        EnterKeepsCoherent(e, m.t);
      }
    }
  }

  lemma {:induction false} RunsAreCoherent(run: seq<Move>)
    ensures Coherent(After(run))
  {
    if run != [] {
      RunsAreCoherent(run[..|run| - 1]);
      MoveKeepsCoherent(After(run[..|run| - 1]), run[|run| - 1]);
    }
  }

  // ---- the promises ------------------------------------------------------------------------------

  /** However ticks and cancels overlap, one job is in at most one handler at a time. */
  lemma OneHandlerPerJob(run: seq<Move>, t: nat, u: nat)
    requires var e := After(run);
      && Active(e, t) && Active(e, u) && e.work[t].Handling? && e.work[u].Handling?
      && e.work[t].job.key == e.work[u].job.key
    ensures t == u
  {
    RunsAreCoherent(run);
    var e := After(run);
    assert Placed(e, t) && Placed(e, u);
    if t != u {
      OnePerJob(e, t, u);
      assert false;
    }
  }

  /** A job's handler is called at most as often as its policy allows attempts. */
  lemma HandlerCallsBounded(run: seq<Move>, k: Key)
    requires k in After(run).store
    ensures CountOf(After(run).started, k) <= After(run).store[k].attempts <= After(run).store[k].policy.maxAttempts
  {
    RunsAreCoherent(run);
  }

  /** The task holds the end of an execution of `k` although a completion of it is stored. */
  ghost predicate Overruled(e: Engine, t: nat, k: Key) {
    Active(e, t) && e.tasks[t].key == k && Overruling(e.work[t], Find(e.store, k))
  }

  lemma MoveIsStep(e: Engine, m: Move, k: Key)
    requires Coherent(e) && k in e.store
    requires m.Advance? ==> !Overruled(e, m.t, k)
    ensures k in Moved(e, m).store && OneStep(e.store[k], Moved(e, m).store[k])
  {
    if MayMove(e, m) && m.Advance? {
      var task, found := e.tasks[m.t], Find(e.store, e.tasks[m.t].key);
      assert Placed(e, m.t);
      NextInStep(task, e.work[m.t], found, m.answer);
      if task.key == k {
        NextIsStep(task, e.work[m.t], found, m.answer);
      }
    }
    hide P.Sound, Placed, Charged, StoreSound, Next, OneStep;
  }

  /** Every write a job ever gets, short of overruling a completion, takes it along its life as the same job. */
  lemma WritesFollowTheLife(run: seq<Move>, m: Move, k: Key)
    requires k in After(run).store && (m.Advance? ==> !Overruled(After(run), m.t, k))
    ensures k in After(run + [m]).store && OneStep(After(run).store[k], After(run + [m]).store[k])
  {
    RunsAreCoherent(run);
    MoveIsStep(After(run), m, k);
    assert (run + [m])[..|run|] == run;
  }

  // ---- every task gets done -------------------------------------------------------------------------

  function Distance(w: Work): nat {
    match w
    case Idle => 7
    case Entered => 6
    case Starting(_) => 5
    case Handling(_) => 4
    case Ending(_, _) => 3
    case Storing(_) => 2
    case Over => 0
  }

  function TotalDistance(work: seq<Work>): nat {
    if work == [] then 0 else TotalDistance(work[..|work| - 1]) + Distance(work[|work| - 1])
  }

  lemma {:induction false} DistanceDrops(work: seq<Work>, t: nat, w: Work)
    requires t < |work| && Distance(w) < Distance(work[t])
    ensures TotalDistance(work[t := w]) < TotalDistance(work)
  {
    var last := |work| - 1;
    if t == last {
      assert work[t := w][..last] == work[..last];
    } else {
      assert work[t := w][..last] == work[..last][t := w];
      DistanceDrops(work[..last], t, w);
    }
  }

  /** The answer that brings a task on when all goes well. */
  function GoodAnswer(w: Work): Answer {
    match w
    case Starting(_) => StartWritten(Acknowledged, true)
    case Handling(_) => HandlerEnded(Returned(0.0))
    case Ending(_, _) => EndWritten(Acknowledged, 0.0)
    case Storing(_) => ChangeWritten(Acknowledged)
    case _ => Read
  }

  /** Only an execution ever starts a job. */
  ghost predicate StartsByExecution(e: Engine) {
    |e.tasks| == |e.work| && forall t :: 0 <= t < |e.work| && e.work[t].Starting? ==> e.tasks[t].Execute?
  }

  lemma {:induction false} RunsStartByExecution(run: seq<Move>)
    ensures StartsByExecution(After(run))
  {
    if run != [] {
      RunsStartByExecution(run[..|run| - 1]);
    }
  }

  lemma GoodAnswerIsProgress(e: Engine, t: nat)
    requires StartsByExecution(e) && Active(e, t) && !e.work[t].Idle? && !e.work[t].Over?
    ensures var m := Advance(t, GoodAnswer(e.work[t]));
      MayMove(e, m) && |Moved(e, m).work| == |e.work| && TotalDistance(Moved(e, m).work) < TotalDistance(e.work)
  {
    var eff := EffectOf(e, t, GoodAnswer(e.work[t]));
    DistanceDrops(e.work, t, eff.work);
  }

  lemma EnterIsProgress(e: Engine, t: nat)
    requires MayMove(e, Enter(t)) && e.work[t].Idle?
    ensures |Moved(e, Enter(t)).work| == |e.work| && TotalDistance(Moved(e, Enter(t)).work) < TotalDistance(e.work)
  {
    DistanceDrops(e.work, t, Entered);
  }

  /** After every run every task can still be brought to its end. */
  lemma EveryTaskCanFinish(run: seq<Move>, t: nat) returns (more: seq<Move>)
    requires t < |After(run).work|
    ensures t < |After(run + more).work| && After(run + more).work[t].Over?
    decreases TotalDistance(After(run).work)
  {
    hide Coherent, StartsByExecution, Moved, TotalDistance;
    var e := After(run);
    RunsAreCoherent(run);
    RunsStartByExecution(run);
    if e.work[t].Over? {
      more := [];
      assert run + more == run;
    } else {
      var m := SomebodyCanGoOn(e, t);
      var longer := run + [m];
      assert longer[..|run|] == run;
      hide After;
      var rest := EveryTaskCanFinish(longer, t);
      more := [m] + rest;
      assert run + more == longer + rest;
    }
  }

  lemma SomebodyCanGoOn(e: Engine, t: nat) returns (m: Move)
    requires Coherent(e) && StartsByExecution(e) && t < |e.work| && !e.work[t].Over?
    ensures |Moved(e, m).work| == |e.work| && TotalDistance(Moved(e, m).work) < TotalDistance(e.work)
  {
    hide P.Sound, StoreSound, Charged, InStep, TotalDistance, Moved, Next;
    assert Placed(e, t);
    var next := P.NeverStuck(e.locks, t);
    assert Placed(e, next);
    if e.work[next].Idle? {
      m := Enter(next);
      EnterIsProgress(e, next);
    } else {
      m := Advance(next, GoodAnswer(e.work[next]));
      GoodAnswerIsProgress(e, next);
    }
  }

  // ---- when a finished job is written again ---------------------------------------------------------

  /** An overruling is new only by the refusal of a stored completion. */
  lemma OverruledComesFrom(e: Engine, m: Move, k: Key, t: nat)
    requires Coherent(e) && Overruled(Moved(e, m), t, k)
    ensures Overruled(e, t, k) || (m.Advance? && m.t == t && MayMove(e, m) && RefusesCompletion(e.work[t], m.answer))
  {
    if MayMove(e, m) && m.Advance? {
      var task, found := e.tasks[m.t], Find(e.store, e.tasks[m.t].key);
      assert Placed(e, m.t);
      NextInStep(task, e.work[m.t], found, m.answer);
      OverrulingComesFrom(task, e.work[m.t], found, m.answer);
      if m.t != t {
        assert Placed(e, t);
        OnePerJob(e, t, m.t);
      }
    }
    hide P.Sound, Placed, Charged, StoreSound, Next, InStep, RefusesCompletion;
  }

  /** The answer of the task that would set it up writes the job itself. */
  lemma RefusalWritesJob(e: Engine, m: Move, k: Key)
    requires Coherent(e) && MayMove(e, m) && m.Advance? && e.tasks[m.t].key == k
      && RefusesCompletion(e.work[m.t], m.answer)
    ensures k in e.store && (!e.store[k].status.Completed? ==> Moved(e, m).store[k] != e.store[k])
    ensures Terminal(e.store[k].status) ==> Overruled(e, m.t, k)
  {
    assert Placed(e, m.t);
    hide P.Sound, Charged, StoreSound;
  }

  lemma FinishedStep(e: Engine, m: Move, k: Key)
    requires Coherent(e) && k in e.store && Terminal(e.store[k].status) && forall t :: !Overruled(e, t, k)
    ensures k in Moved(e, m).store && Moved(e, m).store[k] == e.store[k]
    ensures forall t :: !Overruled(Moved(e, m), t, k)
  {
    MoveIsStep(e, m, k);
    hide Moved, Overruled, Coherent;
    forall t
      ensures !Overruled(Moved(e, m), t, k)
    {
      if Overruled(Moved(e, m), t, k) {
        OverruledComesFrom(e, m, k, t);
        SameKey(e, m, t, k);
        RefusalWritesJob(e, m, k);
        assert false;
      }
    }
  }

  lemma SameKey(e: Engine, m: Move, t: nat, k: Key)
    requires MayMove(e, m) && m.Advance? && m.t == t && Overruled(Moved(e, m), t, k)
    ensures e.tasks[t].key == k
  {
  }

  /** A finished job that nothing overrules keeps its status, attempts and times, whatever follows. */
  lemma {:induction false} FinishedStays(run: seq<Move>, more: seq<Move>, k: Key)
    requires k in After(run).store && Terminal(After(run).store[k].status)
    requires forall t :: !Overruled(After(run), t, k)
    ensures k in After(run + more).store && After(run + more).store[k] == After(run).store[k]
    ensures forall t :: !Overruled(After(run + more), t, k)
  {
    hide Moved, Coherent, Overruled;
    if more == [] {
      assert run + more == run;
    } else {
      var init := more[..|more| - 1];
      FinishedStays(run, init, k);
      assert (run + more)[..|run + more| - 1] == run + init;
      RunsAreCoherent(run + init);
      FinishedStep(After(run + init), more[|more| - 1], k);
    }
  }

  ghost predicate RewrittenBy(run: seq<Move>, more: seq<Move>, k: Key)
    requires k in After(run).store
  {
    k !in After(run + more).store || After(run + more).store[k] != After(run).store[k]
  }

  /**
   The status, attempts and times of a completed, cancelled or dead-lettered job can change
   exactly if it is a completion that was stored but reported as refused, and whose failure
   is still to be written.
   */
  lemma FinishedIsRewrittenExactly(run: seq<Move>, k: Key)
    requires k in After(run).store && Terminal(After(run).store[k].status)
    ensures (exists more :: RewrittenBy(run, more, k)) <==> (exists t :: Overruled(After(run), t, k))
  {
    RunsAreCoherent(run);
    if t :| Overruled(After(run), t, k) {
      OverrulingWrites(run, t, k);
    } else {
      forall more
        ensures !RewrittenBy(run, more, k)
      {
        FinishedStays(run, more, k);
      }
    }
  }

  lemma OverrulingWrites(run: seq<Move>, t: nat, k: Key)
    requires k in After(run).store && Overruled(After(run), t, k)
    ensures RewrittenBy(run, [Advance(t, EndWritten(Acknowledged, 0.0))], k)
  {
    RunsAreCoherent(run);
    var e, a := After(run), EndWritten(Acknowledged, 0.0);
    assert Placed(e, t);
    NextInStep(e.tasks[t], e.work[t], Find(e.store, k), a);
    OverrulingComesFrom(e.tasks[t], e.work[t], Find(e.store, k), a);
    assert (run + [Advance(t, a)])[..|run|] == run;
    hide P.Sound, Placed, Charged, StoreSound, Next, InStep;
  }

  /** Some move of the run has stored a completion of task `t` and reported it as refused. */
  ghost predicate RefusedAt(run: seq<Move>, i: nat, t: nat)
    requires i < |run|
  {
    var e, m := After(run[..i]), run[i];
    m.Advance? && m.t == t && MayMove(e, m) && RefusesCompletion(e.work[t], m.answer)
  }

  /** It takes such a refusal: without one no completion is ever overruled. */
  lemma {:induction false} OverruledOnlyByRefusal(run: seq<Move>, t: nat, k: Key)
    requires Overruled(After(run), t, k)
    ensures exists i :: 0 <= i < |run| && RefusedAt(run, i, t)
  {
    if run != [] {
      var last := |run| - 1;
      var init := run[..last];
      RunsAreCoherent(init);
      OverruledComesFrom(After(init), run[last], k, t);
      hide Moved, Coherent, Overruled, MayMove;
      if Overruled(After(init), t, k) {
        OverruledOnlyByRefusal(init, t, k);
        var i :| 0 <= i < |init| && RefusedAt(init, i, t);
        assert run[..i] == init[..i];
        assert RefusedAt(run, i, t);
      } else {
        assert RefusedAt(run, last, t);
      }
    }
  }

  // ---- when a finished job is stored again ----------------------------------------------------------

  /** A write of `k` takes effect, whether or not it changes the job. */
  ghost predicate Writes(e: Engine, m: Move, k: Key) {
    m.Advance? && MayMove(e, m) && e.tasks[m.t].key == k && EffectOf(e, m.t, m.answer).put.Some?
  }

  ghost predicate WrittenBy(run: seq<Move>, more: seq<Move>, k: Key) {
    exists i :: 0 <= i < |more| && Writes(After(run + more[..i]), more[i], k)
  }

  /** The task holds the end of an execution of `k`. */
  ghost predicate HoldsEnd(e: Engine, t: nat, k: Key) {
    Active(e, t) && e.tasks[t].key == k && e.work[t].Ending?
  }

  /** A task of a finished job writes nothing and holds no end, unless it holds one already. */
  lemma FinishedIsQuiet(task: Task, w: Work, found: Option<Job>, a: Answer)
    requires Awaits(task, w, a) && InStep(task.key, found, w)
    requires found.Some? && Terminal(found.value.status) && !w.Ending?
    ensures Next(task, w, found, a).put.None? && !Next(task, w, found, a).work.Ending?
  {
  }

  lemma QuietStep(e: Engine, m: Move, k: Key)
    requires Coherent(e) && k in e.store && Terminal(e.store[k].status) && forall t :: !HoldsEnd(e, t, k)
    ensures !Writes(e, m, k)
    ensures k in Moved(e, m).store && Moved(e, m).store[k] == e.store[k]
    ensures forall t :: !HoldsEnd(Moved(e, m), t, k)
  {
    assert m.Advance? && Overruled(e, m.t, k) ==> HoldsEnd(e, m.t, k);
    MoveIsStep(e, m, k);
    if MayMove(e, m) && m.Advance? && e.tasks[m.t].key == k {
      assert !HoldsEnd(e, m.t, k) && Placed(e, m.t);
      FinishedIsQuiet(e.tasks[m.t], e.work[m.t], Find(e.store, k), m.answer);
    }
    hide P.Sound, Placed, Charged, StoreSound, Next, Coherent;
    forall t
      ensures !HoldsEnd(Moved(e, m), t, k)
    {
      assert !HoldsEnd(e, t, k);
    }
  }

  lemma NothingWritten(run: seq<Move>, k: Key)
    ensures !WrittenBy(run, [], k)
  {
  }

  lemma WrittenStep(run: seq<Move>, more: seq<Move>, k: Key)
    requires more != [] && WrittenBy(run, more, k)
    ensures var init := more[..|more| - 1];
      WrittenBy(run, init, k) || Writes(After(run + init), more[|more| - 1], k)
  {
    hide After, Writes;
    var init := more[..|more| - 1];
    var i :| 0 <= i < |more| && Writes(After(run + more[..i]), more[i], k);
    if i < |init| {
      assert more[..i] == init[..i] && more[i] == init[i];
    }
  }

  lemma {:induction false} QuietForGood(run: seq<Move>, more: seq<Move>, k: Key)
    requires k in After(run).store && Terminal(After(run).store[k].status) && forall t :: !HoldsEnd(After(run), t, k)
    ensures !WrittenBy(run, more, k)
    ensures k in After(run + more).store && After(run + more).store[k] == After(run).store[k]
    ensures forall t :: !HoldsEnd(After(run + more), t, k)
  {
    hide Moved, Coherent, HoldsEnd, Writes, WrittenBy;
    if more == [] {
      NothingWritten(run, k);
      assert run + more == run;
    } else {
      var init := more[..|more| - 1];
      QuietForGood(run, init, k);
      assert (run + more)[..|run + more| - 1] == run + init;
      RunsAreCoherent(run + init);
      QuietStep(After(run + init), more[|more| - 1], k);
      if WrittenBy(run, more, k) {
        WrittenStep(run, more, k);
      }
    }
  }

  /** A finished job can be stored again, changed or not, exactly while a task still holds an end of it. */
  lemma StoredAgainExactly(run: seq<Move>, k: Key)
    requires k in After(run).store && Terminal(After(run).store[k].status)
    ensures (exists more :: WrittenBy(run, more, k)) <==> (exists t :: HoldsEnd(After(run), t, k))
  {
    if t :| HoldsEnd(After(run), t, k) {
      var more := [Advance(t, EndWritten(Acknowledged, 0.0))];
      assert run + more[..0] == run;
      assert Writes(After(run + more[..0]), more[0], k);
      assert WrittenBy(run, more, k);
    } else {
      forall more
        ensures !WrittenBy(run, more, k)
      {
        QuietForGood(run, more, k);
      }
    }
  }

  /** Such an end is the failure that overrules a completion, or the dead letter that is stored already. */
  lemma WhatIsStoredAgain(run: seq<Move>, t: nat, k: Key)
    requires k in After(run).store && Terminal(After(run).store[k].status) && HoldsEnd(After(run), t, k)
    ensures Overruled(After(run), t, k) ||
      (After(run).store[k].status.DeadLetter? && After(run).work[t].job == After(run).store[k])
  {
    RunsAreCoherent(run);
    assert Placed(After(run), t);
    hide P.Sound, Charged, StoreSound, After;
  }

  // ---- a run that overrules a completion ------------------------------------------------------------

  const EXAMPLE := Key("default", "1")

  function Example(): Job {
    Job(EXAMPLE, "mail", 0.0, Queued, RetryPolicy(1, 0.0, 1.0, 0.0), 0, None, None, None, None, None, None, 0)
  }

  /** A single attempt whose end is stored but reported as refused. */
  function RefusedEnd(outcome: Outcome): seq<Move> {
    [Add(Example()), Submit(Execute(EXAMPLE, 0.0)), Enter(0), Advance(0, Read),
     Advance(0, StartWritten(Acknowledged, true)), Advance(0, HandlerEnded(outcome)),
     Advance(0, EndWritten(StoredButRefused, 0.0))]
  }

  lemma OneMove(run: seq<Move>, k: nat)
    requires k < |run|
    ensures After(run[..k + 1]) == Moved(After(run[..k]), run[k])
  {
    assert run[..k + 1][..k] == run[..k];
  }

  lemma UpToTheLock(outcome: Outcome)
    ensures var e := After(RefusedEnd(outcome)[..3]);
      && e.tasks == [Execute(EXAMPLE, 0.0)] && e.work == [Entered] && e.store == map[EXAMPLE := Example()]
      && P.IsRunning(e.locks, 0)
  {
    var run := RefusedEnd(outcome);
    assert After(run[..0]) == IDLE_ENGINE;
    OneMove(run, 0);
    OneMove(run, 1);
    OneMove(run, 2);
  }

  lemma UpToTheHandler(outcome: Outcome)
    ensures var e, running := After(RefusedEnd(outcome)[..5]), MarkRunning(Example(), 0.0);
      && e.tasks == [Execute(EXAMPLE, 0.0)] && e.work == [Handling(running)] && e.store == map[EXAMPLE := running]
      && P.IsRunning(e.locks, 0)
  {
    var run := RefusedEnd(outcome);
    hide After;
    UpToTheLock(outcome);
    OneMove(run, 3);
    OneMove(run, 4);
  }

  lemma AfterTheRefusal(outcome: Outcome)
    ensures var e, end := After(RefusedEnd(outcome)), Concluded(MarkRunning(Example(), 0.0), outcome);
      && e.tasks == [Execute(EXAMPLE, 0.0)] && e.work == [Ending(Failed(end, 0.0), false)]
      && e.store == map[EXAMPLE := end] && P.IsRunning(e.locks, 0)
  {
    var run := RefusedEnd(outcome);
    UpToTheHandler(outcome);
    hide After, Concluded, Failed;
    OneMove(run, 5);
    OneMove(run, 6);
    assert run[..7] == run;
    ConcludedKeepsKey(MarkRunning(Example(), 0.0), outcome);
  }

  lemma ConcludedKeepsKey(j: Job, outcome: Outcome)
    ensures Concluded(j, outcome).key == j.key
  {
  }

  /** It happens: a completion that was stored but reported as refused is given up as a dead letter. */
  lemma CompletionCanBeOverruled()
    ensures var run := RefusedEnd(Returned(0.0));
      && Overruled(After(run), 0, EXAMPLE) && After(run).store[EXAMPLE].status.Completed?
      && var e := After(run + [Advance(0, EndWritten(Acknowledged, 0.0))]);
         EXAMPLE in e.store && e.store[EXAMPLE].status.DeadLetter?
  {
    var run, last := RefusedEnd(Returned(0.0)), Advance(0, EndWritten(Acknowledged, 0.0));
    AfterTheRefusal(Returned(0.0));
    assert (run + [last])[..7] == run;
  }

  /** It happens: a dead letter that was stored but reported as refused is about to be stored again. */
  lemma DeadLetterCanBeStoredAgain()
    ensures var run := RefusedEnd(Threw(0.0));
      && EXAMPLE in After(run).store && After(run).store[EXAMPLE].status.DeadLetter?
      && HoldsEnd(After(run), 0, EXAMPLE) && !Overruled(After(run), 0, EXAMPLE)
  {
    AfterTheRefusal(Threw(0.0));
  }
}
