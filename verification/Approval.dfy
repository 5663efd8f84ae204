/**
 The driver approval requests of src/routes/admin.js: a self-cleaning lock per phone
 around the process-wide transaction queue of src/config/database.js, and a body that
 reads the status, updates the row and writes the log between BEGIN and COMMIT. A run
 is any sequence of moves the event loop and the database can make.
 */
module Approval {
  import opened Wrappers
  import opened PromiseChain

  datatype Status = Pending | Approved | Rejected | Suspended

  datatype Action = Approve | Reject | Suspend | Reactivate

  datatype Conflict = AlreadyApproved | AlreadyRejected | AlreadySuspended | IsPending

  function Target(action: Action): Status {
    match action
    case Approve => Approved
    case Reject => Rejected
    case Suspend => Suspended
    case Reactivate => Approved
  }

  /** The check each handler makes on the status it reads inside the transaction. */
  function Objection(action: Action, current: Status): Option<Conflict> {
    match action
    case Approve => if current == Approved then Some(AlreadyApproved) else None
    case Reject => if current == Rejected then Some(AlreadyRejected) else None
    case Suspend => if current == Suspended then Some(AlreadySuspended) else None
    case Reactivate =>
      if current == Approved then Some(AlreadyApproved)
      else if current == Pending then Some(IsPending)
      else None
  }

  /** Rejecting and suspending need a reason of 5 to 500 characters, trimmed. */
  predicate ReasonAccepted(action: Action, reason: string) {
    action.Reject? || action.Suspend? ==> 5 <= |reason| <= 500
  }

  // ---- the database ------------------------------------------------------------------

  datatype LogEntry = LogEntry(request: nat, phone: string, action: Action)

  datatype Db = Db(status: map<string, Status>, log: seq<LogEntry>)

  /** The status a driver has if nothing but the log ever changed it. */
  function Replay(start: map<string, Status>, log: seq<LogEntry>, phone: string): Status
    requires phone in start
  {
    if log == [] then start[phone]
    else
      var last := log[|log| - 1];
      if last.phone == phone then Target(last.action) else Replay(start, log[..|log| - 1], phone)
  }

  /** Every entry was allowed in the status its predecessors left. */
  ghost predicate LegalLog(start: map<string, Status>, log: seq<LogEntry>) {
    forall k :: 0 <= k < |log| ==>
      && log[k].phone in start
      && Objection(log[k].action, Replay(start, log[..k], log[k].phone)).None?
  }

  ghost predicate LoggedOnce(log: seq<LogEntry>) {
    forall i, j :: 0 <= i < j < |log| ==> log[i].request != log[j].request
  }

  ghost predicate Faithful(start: map<string, Status>, db: Db) {
    && db.status.Keys == start.Keys
    && LegalLog(start, db.log)
    && LoggedOnce(db.log)
    && forall phone :: phone in start ==> db.status[phone] == Replay(start, db.log, phone)
  }

  function Recorded(db: Db, entry: LogEntry): Db {
    Db(db.status[entry.phone := Target(entry.action)], db.log + [entry])
  }

  lemma RecordedIsFaithful(start: map<string, Status>, db: Db, entry: LogEntry)
    requires Faithful(start, db) && entry.phone in start
    requires Objection(entry.action, db.status[entry.phone]).None?
    requires forall k :: 0 <= k < |db.log| ==> db.log[k].request != entry.request
    ensures Faithful(start, Recorded(db, entry))
  {
    var log := db.log + [entry];
    assert log[..|db.log|] == db.log;
    forall k | 0 <= k < |log|
      ensures log[k].phone in start && Objection(log[k].action, Replay(start, log[..k], log[k].phone)).None?
    {
      assert log[..k] == db.log[..k];
    }
  }

  lemma {:induction false} ReplayIsLastTarget(start: map<string, Status>, log: seq<LogEntry>, j: nat)
    requires j < |log| && log[j].phone in start
    requires forall i :: j < i < |log| ==> log[i].phone != log[j].phone
    ensures Replay(start, log, log[j].phone) == Target(log[j].action)
    decreases |log|
  {
    if j < |log| - 1 {
      assert log[..|log| - 1][j] == log[j];
      ReplayIsLastTarget(start, log[..|log| - 1], j);
    }
  }

  /** In a legal log two neighbouring entries of one driver never target the same status. */
  lemma NeighboursDiffer(start: map<string, Status>, log: seq<LogEntry>, j: nat, k: nat)
    requires LegalLog(start, log) && j < k < |log| && log[j].phone == log[k].phone
    requires forall i :: j < i < k ==> log[i].phone != log[k].phone
    ensures Target(log[j].action) != Target(log[k].action)
  {
    ReplayIsLastTarget(start, log[..k], j);
  }

  /** A request meets an objection exactly if it would change nothing, or would skip a pending review. */
  lemma ObjectionExactly(action: Action, current: Status)
    ensures Objection(action, current).Some? <==> Target(action) == current || (action.Reactivate? && current.Pending?)
  {
  }

  /** A conflict names the status that the driver has. */
  lemma ConflictNamesStatus(action: Action, current: Status)
    requires Objection(action, current).Some?
    ensures var conflict := Objection(action, current).value;
      && (conflict.AlreadyApproved? <==> current.Approved?)
      && (conflict.AlreadyRejected? <==> current.Rejected?)
      && (conflict.AlreadySuspended? <==> current.Suspended?)
      && (conflict.IsPending? <==> current.Pending?)
  {
  }

  /** What a decision makes of a driver. */
  ghost predicate Means(action: Action, status: Status) {
    && (action.Approve? || action.Reactivate? ==> status.Approved?)
    && (action.Reject? ==> status.Rejected?)
    && (action.Suspend? ==> status.Suspended?)
  }

  lemma TargetMeans(action: Action)
    ensures Means(action, Target(action))
  {
  }

  /** Only a driver whose last decision was a rejection or a suspension is ever reactivated. */
  lemma ReactivatedAfterRefusal(start: map<string, Status>, log: seq<LogEntry>, j: nat, k: nat)
    requires LegalLog(start, log) && j < k < |log| && log[j].phone == log[k].phone && log[k].action.Reactivate?
    requires forall i :: j < i < k ==> log[i].phone != log[k].phone
    ensures log[j].action.Reject? || log[j].action.Suspend?
  {
    ReplayIsLastTarget(start, log[..k], j);
  }

  // ---- requests ------------------------------------------------------------------------

  datatype Phase =
    | Queued                  // waiting for the driver lock
    | Entered                 // holds the lock, waits for the transaction queue
    | Beginning(attempt: nat) // about to issue BEGIN IMMEDIATE
    | Reading
    | ToUpdate
    | ToLog
    | ToCommit
    | ToRollback
    | Done(ok: bool)          // the transaction has settled
    | Left(ok: bool)          // the lock has been released

  /** `ticket` is the request's place in the transaction queue once it has entered. */
  datatype Request = Request(phone: string, action: Action, phase: Phase, ticket: nat, conflict: Option<Conflict>)

  datatype Tx = Tx(owner: nat, work: Db)

  /**
   `owners` says which request each transaction task belongs to and `bodies` which
   requests have run their body; `stuck` remembers a ROLLBACK that left its transaction open.
   */
  datatype Desk = Desk(lock: Chains, queue: Chains, owners: seq<nat>, requests: seq<Request>,
                       db: Db, open: Option<Tx>, bodies: seq<nat>, stuck: bool)

  datatype BeginOutcome = Opened | Busy | Refused

  datatype RollbackOutcome = RolledBack | NothingToUndo | StillOpen

  datatype Move =
    | Ask(phone: string, action: Action, reason: string)
    | Enter(request: nat)
    | Turn(request: nat)
    | Begin(request: nat, begun: BeginOutcome)
    | Read(request: nat, ok: bool)
    | Update(request: nat, ok: bool)
    | Log(request: nat, ok: bool)
    | Commit(request: nat, ok: bool)
    | Rollback(request: nat, undone: RollbackOutcome)
    | Leave(request: nat)
    | Sweep(request: nat)

  const MAX_RETRIES := 10

  const QUEUE := "tx"

  function Opening(start: map<string, Status>): Desk {
    Desk(EMPTY, EMPTY, [], [], Db(start, []), None, [], false)
  }

  predicate At(d: Desk, r: nat, phase: Phase) {
    r < |d.requests| && d.requests[r].phase == phase
  }

  function Entry(d: Desk, r: nat): LogEntry
    requires r < |d.requests|
  {
    LogEntry(r, d.requests[r].phone, d.requests[r].action)
  }

  /** A connection with an open transaction refuses another BEGIN and can be committed. */
  predicate MayMove(d: Desk, m: Move) {
    match m
    case Ask(phone, action, reason) => phone in d.db.status && ReasonAccepted(action, reason)
    case Enter(r) => r < |d.requests| && CanStart(d.lock, r)
    case Turn(r) => At(d, r, Entered) && CanStart(d.queue, d.requests[r].ticket)
    case Begin(r, begun) =>
      r < |d.requests| && d.requests[r].phase.Beginning? && (d.open.Some? ==> begun.Refused?)
    case Read(r, _) => At(d, r, Reading) && d.open.Some? && d.requests[r].phone in d.open.value.work.status
    case Update(r, _) => At(d, r, ToUpdate) && d.open.Some?
    case Log(r, _) => At(d, r, ToLog) && d.open.Some?
    case Commit(r, _) => At(d, r, ToCommit) && d.open.Some?
    case Rollback(r, _) => At(d, r, ToRollback)
    case Leave(r) => r < |d.requests| && d.requests[r].phase.Done? && IsRunning(d.lock, r)
    case Sweep(r) => r < |d.requests| && IsSettled(d.lock, r)
  }

  function WithRequest(d: Desk, r: nat, phase: Phase): Desk
    requires r < |d.requests|
  {
    d.(requests := d.requests[r := d.requests[r].(phase := phase)])
  }

  /** The transaction promise settles and its queue moves on. */
  function Finished(d: Desk, r: nat, ok: bool): Desk
    requires r < |d.requests|
  {
    WithRequest(d, r, Done(ok)).(
      queue := if IsRunning(d.queue, d.requests[r].ticket)
        then WithPhase(d.queue, d.requests[r].ticket, Settled(ok))
        else d.queue)
  }

  function Begun(d: Desk, r: nat, begun: BeginOutcome): Desk
    requires r < |d.requests| && d.requests[r].phase.Beginning?
  {
    var attempt := d.requests[r].phase.attempt;
    match begun
    case Opened => WithRequest(d, r, Reading).(open := Some(Tx(r, d.db)), bodies := d.bodies + [r])
    case Busy => if attempt < MAX_RETRIES then WithRequest(d, r, Beginning(attempt + 1)) else Finished(d, r, false)
    case Refused => Finished(d, r, false)
  }

  function HasRead(d: Desk, r: nat): Desk
    requires r < |d.requests| && d.open.Some? && d.requests[r].phone in d.open.value.work.status
  {
    var objection := Objection(d.requests[r].action, d.open.value.work.status[d.requests[r].phone]);
    var phase := if objection.Some? then ToCommit else ToUpdate;
    d.(requests := d.requests[r := d.requests[r].(phase := phase, conflict := objection)])
  }

  function Working(d: Desk, r: nat, work: Db, phase: Phase): Desk
    requires r < |d.requests| && d.open.Some?
  {
    WithRequest(d, r, phase).(open := Some(d.open.value.(work := work)))
  }

  function Moved(d: Desk, m: Move): Desk {
    if !MayMove(d, m) then d
    else
      match m
      case Ask(phone, action, _) =>
        d.(lock := Submitted(d.lock, phone), requests := d.requests + [Request(phone, action, Queued, 0, None)])
      case Enter(r) =>
        d.(lock := WithPhase(d.lock, r, Running),
           queue := Submitted(d.queue, QUEUE),
           owners := d.owners + [r],
           requests := d.requests[r := d.requests[r].(phase := Entered, ticket := |d.queue.tasks|)])
      case Turn(r) =>
        WithRequest(d, r, Beginning(0)).(queue := WithPhase(d.queue, d.requests[r].ticket, Running))
      case Begin(r, begun) => Begun(d, r, begun)
      case Read(r, ok) => if ok then HasRead(d, r) else WithRequest(d, r, ToRollback)
      case Update(r, ok) =>
        var work := d.open.value.work;
        if ok
          then Working(d, r, work.(status := work.status[d.requests[r].phone := Target(d.requests[r].action)]), ToLog)
        else WithRequest(d, r, ToRollback)
      case Log(r, ok) =>
        var work := d.open.value.work;
        if ok then Working(d, r, work.(log := work.log + [Entry(d, r)]), ToCommit)
        else WithRequest(d, r, ToRollback)
      case Commit(r, ok) =>
        if ok then Finished(d, r, true).(db := d.open.value.work, open := None) else WithRequest(d, r, ToRollback)
      case Rollback(r, undone) =>
        Finished(d, r, false).(
          open := if undone.StillOpen? then d.open else None,
          stuck := d.stuck || undone.StillOpen?)
      case Leave(r) =>
        WithRequest(d, r, Left(d.requests[r].phase.ok)).(lock := WithPhase(d.lock, r, Settled(d.requests[r].phase.ok)))
      case Sweep(r) => d.(lock := Cleaned(d.lock, r))
  }

  function After(start: map<string, Status>, run: seq<Move>): Desk {
    if run == [] then Opening(start) else Moved(After(start, run[..|run| - 1]), run[|run| - 1])
  }

  // ---- the two locks --------------------------------------------------------------------

  ghost predicate InTransaction(phase: Phase) {
    phase.Beginning? || InBody(phase)
  }

  ghost predicate InBody(phase: Phase) {
    phase.Reading? || phase.ToUpdate? || phase.ToLog? || phase.ToCommit? || phase.ToRollback?
  }

  /** A request's phase says where its two tasks are. */
  ghost predicate Tracked(d: Desk, r: nat)
    requires r < |d.requests| == |d.lock.tasks| && |d.owners| == |d.queue.tasks|
  {
    var q := d.requests[r];
    var place := d.lock.tasks[r];
    && place.key == q.phone
    && (q.phase.Queued? <==> place.phase.Waiting?)
    && (q.phase.Left? <==> place.phase.Settled?)
    && (!q.phase.Queued? ==>
      && q.ticket < |d.owners|
      && d.owners[q.ticket] == r
      && (q.phase.Entered? <==> d.queue.tasks[q.ticket].phase.Waiting?)
      && (InTransaction(q.phase) <==> d.queue.tasks[q.ticket].phase.Running?))
  }

  ghost predicate Ticketed(d: Desk, k: nat)
    requires k < |d.owners| == |d.queue.tasks|
  {
    && d.queue.tasks[k].key == QUEUE
    && d.owners[k] < |d.requests|
    && !d.requests[d.owners[k]].phase.Queued?
    && d.requests[d.owners[k]].ticket == k
  }

  ghost predicate Locked(d: Desk) {
    && Sound(d.lock) && Sound(d.queue)
    && |d.requests| == |d.lock.tasks| && |d.owners| == |d.queue.tasks|
    && (forall r :: 0 <= r < |d.requests| ==> Tracked(d, r))
    && (forall k :: 0 <= k < |d.owners| ==> Ticketed(d, k))
  }

  /** The transaction queue lets one request at a time between BEGIN and its end. */
  lemma OneInTransaction(d: Desk, r: nat, s: nat)
    requires Locked(d) && r < |d.requests| && s < |d.requests|
    requires InTransaction(d.requests[r].phase) && InTransaction(d.requests[s].phase)
    ensures r == s
  {
    assert Tracked(d, r) && Tracked(d, s);
    var k, l := d.requests[r].ticket, d.requests[s].ticket;
    assert Ticketed(d, k) && Ticketed(d, l);
    assert k == l;
  }

  /** One move changes at most one request, and its tasks along with it. */
  lemma MoveKeepsQueues(d: Desk, m: Move)
    requires Locked(d) && MayMove(d, m)
    ensures Sound(Moved(d, m).lock) && Sound(Moved(d, m).queue)
  {
    assert Sound(d.lock) && Sound(d.queue);
    hide Sound, Locked;
    match m
    case Ask(phone, _, _) => SubmitKeepsSound(d.lock, phone);
    case Enter(r) =>
      StartKeepsSound(d.lock, r);
      SubmitKeepsSound(d.queue, QUEUE);
    case Turn(r) => StartKeepsSound(d.queue, d.requests[r].ticket);
    case Begin(r, _) => SettlingKeepsSound(d, r, false);
    case Read(_, _) =>
    case Update(_, _) =>
    case Log(_, _) =>
    case Commit(r, _) => SettlingKeepsSound(d, r, true);
    case Rollback(r, _) => SettlingKeepsSound(d, r, false);
    case Leave(r) => SettleKeepsSound(d.lock, r, d.requests[r].phase.ok);
    case Sweep(r) => CleanKeepsSound(d.lock, r);
  }

  lemma SettlingKeepsSound(d: Desk, r: nat, ok: bool)
    requires Sound(d.queue) && r < |d.requests|
    ensures Sound(Finished(d, r, ok).queue)
  {
    if IsRunning(d.queue, d.requests[r].ticket) {
      SettleKeepsSound(d.queue, d.requests[r].ticket, ok);
    }
  }

  /** Only request `r` and its two tasks differ between `d` and `e`. */
  ghost predicate OnlyRequest(d: Desk, e: Desk, r: nat)
    requires Locked(d) && r < |d.requests| && !d.requests[r].phase.Queued?
  {
    var q := d.requests[r];
    && |e.requests| == |e.lock.tasks| == |d.requests| && |e.queue.tasks| == |d.queue.tasks| && e.owners == d.owners
    && e.requests == d.requests[r := e.requests[r]]
    && e.requests[r].phone == q.phone && e.requests[r].ticket == q.ticket
    && e.lock.tasks == d.lock.tasks[r := e.lock.tasks[r]]
    && e.lock.tasks[r].key == d.lock.tasks[r].key
    && q.ticket < |d.owners|
    && e.queue.tasks == d.queue.tasks[q.ticket := e.queue.tasks[q.ticket]]
    && e.queue.tasks[q.ticket].key == d.queue.tasks[q.ticket].key
  }

  lemma OthersStayTracked(d: Desk, e: Desk, r: nat)
    requires Locked(d) && r < |d.requests| && !d.requests[r].phase.Queued? && OnlyRequest(d, e, r)
    requires Tracked(e, r) && !e.requests[r].phase.Queued?
    requires Sound(e.lock) && Sound(e.queue)
    ensures Locked(e)
  {
    hide Sound;
    assert Tracked(d, r);
    forall s | 0 <= s < |e.requests|
      ensures Tracked(e, s)
    {
      assert Tracked(d, s);
    }
    forall k | 0 <= k < |e.owners|
      ensures Ticketed(e, k)
    {
      assert Ticketed(d, k);
    }
  }

  lemma AskKeepsLocked(d: Desk, m: Move)
    requires Locked(d) && MayMove(d, m) && m.Ask?
    ensures Locked(Moved(d, m))
  {
    MoveKeepsQueues(d, m);
    hide Sound;
    var e := Moved(d, m);
    forall s | 0 <= s < |e.requests|
      ensures Tracked(e, s)
    {
      assert s < |d.requests| ==> Tracked(d, s);
    }
    forall k | 0 <= k < |e.owners|
      ensures Ticketed(e, k)
    {
      assert Ticketed(d, k);
    }
  }

  lemma EnterKeepsLocked(d: Desk, m: Move)
    requires Locked(d) && MayMove(d, m) && m.Enter?
    ensures Locked(Moved(d, m))
  {
    MoveKeepsQueues(d, m);
    hide Sound;
    assert Tracked(d, m.request);
    var e := Moved(d, m);
    forall s | 0 <= s < |e.requests|
      ensures Tracked(e, s)
    {
      assert Tracked(d, s);
    }
    forall k | 0 <= k < |e.owners|
      ensures Ticketed(e, k)
    {
      assert k < |d.owners| ==> Ticketed(d, k);
    }
  }

  /** Within its transaction a request changes nothing but its own row. */
  ghost predicate StaysInTransaction(d: Desk, e: Desk, r: nat) {
    && r < |d.requests| == |e.requests|
    && e.lock == d.lock && e.queue == d.queue && e.owners == d.owners
    && e.requests == d.requests[r := e.requests[r]]
    && e.requests[r].phone == d.requests[r].phone && e.requests[r].ticket == d.requests[r].ticket
    && InTransaction(d.requests[r].phase) && InTransaction(e.requests[r].phase)
  }

  /** Its transaction settles. */
  ghost predicate EndsTransaction(d: Desk, e: Desk, r: nat, ok: bool) {
    && r < |d.requests|
    && InTransaction(d.requests[r].phase)
    && e.lock == d.lock && e.owners == d.owners
    && e.requests == d.requests[r := d.requests[r].(phase := Done(ok))]
    && IsRunning(d.queue, d.requests[r].ticket)
    && e.queue == WithPhase(d.queue, d.requests[r].ticket, Settled(ok))
  }

  lemma FinishedEnds(d: Desk, r: nat, ok: bool)
    requires Locked(d) && r < |d.requests| && InTransaction(d.requests[r].phase)
    ensures EndsTransaction(d, Finished(d, r, ok), r, ok)
  {
    hide Sound;
    assert Tracked(d, r);
  }

  lemma TransactionMoves(d: Desk, m: Move)
    requires Locked(d) && MayMove(d, m) && (m.Begin? || m.Read? || m.Update? || m.Log? || m.Commit? || m.Rollback?)
    ensures var e := Moved(d, m);
      StaysInTransaction(d, e, m.request) || EndsTransaction(d, e, m.request, m.Commit?)
  {
    hide Sound;
    hide Locked;
    if m.Begin? || m.Commit? || m.Rollback? {
      FinishedEnds(d, m.request, m.Commit?);
    }
  }

  lemma TransactionMovesAreLocal(d: Desk, e: Desk, r: nat, ok: bool)
    requires Locked(d) && (StaysInTransaction(d, e, r) || EndsTransaction(d, e, r, ok))
    requires Sound(e.queue)
    ensures Locked(e)
  {
    assert Sound(e.lock);
    hide Sound;
    assert Tracked(d, r);
    assert Tracked(e, r);
    OthersStayTracked(d, e, r);
  }

  lemma TurnKeepsLocked(d: Desk, m: Move)
    requires Locked(d) && MayMove(d, m) && m.Turn?
    ensures Locked(Moved(d, m))
  {
    MoveKeepsQueues(d, m);
    hide Sound;
    assert Tracked(d, m.request);
    OthersStayTracked(d, Moved(d, m), m.request);
  }

  lemma SweepKeepsLocked(d: Desk, m: Move)
    requires Locked(d) && MayMove(d, m) && m.Sweep?
    ensures Locked(Moved(d, m))
  {
    MoveKeepsQueues(d, m);
    hide Sound;
    assert Tracked(d, m.request);
    OthersStayTracked(d, Moved(d, m), m.request);
  }

  lemma LeaveKeepsLocked(d: Desk, m: Move)
    requires Locked(d) && MayMove(d, m) && m.Leave?
    ensures Locked(Moved(d, m))
  {
    MoveKeepsQueues(d, m);
    hide Sound;
    assert Tracked(d, m.request);
    OthersStayTracked(d, Moved(d, m), m.request);
  }

  lemma MoveKeepsLocked(d: Desk, m: Move)
    requires Locked(d) && MayMove(d, m)
    ensures Locked(Moved(d, m))
  {
    if m.Ask? {
      AskKeepsLocked(d, m);
    } else if m.Enter? {
      EnterKeepsLocked(d, m);
    } else if m.Turn? {
      TurnKeepsLocked(d, m);
    } else if m.Leave? {
      LeaveKeepsLocked(d, m);
    } else if m.Sweep? {
      SweepKeepsLocked(d, m);
    } else {
      MoveKeepsQueues(d, m);
      TransactionMoves(d, m);
      TransactionMovesAreLocal(d, Moved(d, m), m.request, m.Commit?);
    }
  }

  // ---- one open transaction -----------------------------------------------------------------

  /** An open transaction belongs to the request in its body, unless a ROLLBACK has failed on it. */
  ghost predicate Exclusive(d: Desk) {
    && (forall r :: 0 <= r < |d.requests| && InBody(d.requests[r].phase) ==> d.open.Some? && d.open.value.owner == r)
    && (d.open.Some? ==>
      && d.open.value.owner < |d.requests|
      && var phase := d.requests[d.open.value.owner].phase;
        if d.stuck then phase.Done? || phase.Left? else InBody(phase))
    && (d.stuck ==> d.open.Some?)
  }

  lemma EntersFromQueue(d: Desk, m: Move)
    requires Locked(d) && MayMove(d, m) && m.Enter?
    ensures d.requests[m.request].phase.Queued?
  {
    hide Sound;
    assert Tracked(d, m.request);
  }

  lemma MoveKeepsExclusive(d: Desk, m: Move)
    requires Locked(d) && Exclusive(d) && MayMove(d, m)
    ensures Exclusive(Moved(d, m))
    ensures d.stuck ==> Moved(d, m).stuck && Moved(d, m).db == d.db
  {
    if m.Enter? {
      EntersFromQueue(d, m);
    }
    hide Locked, Exclusive, Moved, MayMove;
    if m.Ask? || m.Enter? || m.Turn? || m.Leave? || m.Sweep? {
      OutsideKeepsExclusive(d, m);
    } else {
      BodyKeepsExclusive(d, m);
    }
  }

  lemma OutsideKeepsExclusive(d: Desk, m: Move)
    requires Exclusive(d) && MayMove(d, m) && (m.Ask? || m.Enter? || m.Turn? || m.Leave? || m.Sweep?)
    requires m.Enter? ==> d.requests[m.request].phase.Queued?
    ensures var e := Moved(d, m);
      Exclusive(e) && e.stuck == d.stuck && e.db == d.db
  {
  }

  lemma BodyKeepsExclusive(d: Desk, m: Move)
    requires Exclusive(d) && MayMove(d, m) && !(m.Ask? || m.Enter? || m.Turn? || m.Leave? || m.Sweep?)
    ensures Exclusive(Moved(d, m))
    ensures d.stuck ==> Moved(d, m).stuck && Moved(d, m).db == d.db
  {
  }

  /** A BEGIN is issued inside an open transaction exactly when an earlier ROLLBACK failed. */
  lemma NestedExactlyWhenStuck(d: Desk, r: nat)
    requires Locked(d) && Exclusive(d) && r < |d.requests| && d.requests[r].phase.Beginning?
    ensures d.open.Some? <==> d.stuck
  {
    if d.open.Some? && !d.stuck {
      OneInTransaction(d, r, d.open.value.owner);
    }
  }

  // ---- the books ------------------------------------------------------------------------------

  ghost predicate Answered(q: Request) {
    q.phase == Done(true) || q.phase == Left(true)
  }

  /** A request that was answered without a conflict has changed its driver. */
  ghost predicate Decided(q: Request) {
    Answered(q) && q.conflict.None?
  }

  ghost predicate InLog(log: seq<LogEntry>, r: nat) {
    exists k :: 0 <= k < |log| && log[k].request == r
  }

  /** The log holds the decided requests, each with its own phone and action. */
  ghost predicate LogMatches(d: Desk) {
    && (forall k :: 0 <= k < |d.db.log| ==>
      && d.db.log[k].request < |d.requests|
      && d.db.log[k] == Entry(d, d.db.log[k].request)
      && Decided(d.requests[d.db.log[k].request]))
    && (forall r :: 0 <= r < |d.requests| && Decided(d.requests[r]) ==> InLog(d.db.log, r))
  }

  /** How far the body of `q` has taken the transaction's copy of the database. */
  ghost predicate WorkMatches(db: Db, work: Db, q: Request, entry: LogEntry)
    requires q.phone in db.status && entry.phone == q.phone && entry.action == q.action
  {
    var allowed := q.conflict.None? && Objection(q.action, db.status[q.phone]).None?;
    match q.phase
    case Reading => work == db
    case ToUpdate => allowed && work == db
    case ToLog => allowed && work == db.(status := Recorded(db, entry).status)
    case ToCommit => if q.conflict.Some? then work == db else allowed && work == Recorded(db, entry)
    case _ => true
  }

  ghost predicate Balanced(start: map<string, Status>, d: Desk) {
    && Faithful(start, d.db)
    && (forall r :: 0 <= r < |d.requests| ==> d.requests[r].phone in start)
    && LogMatches(d)
    && WorkInStep(d)
  }

  ghost predicate WorkInStep(d: Desk) {
    d.open.Some? && d.open.value.owner < |d.requests| ==>
      var r := d.open.value.owner;
      d.requests[r].phone in d.db.status && WorkMatches(d.db, d.open.value.work, d.requests[r], Entry(d, r))
  }

  /** Until its COMMIT a request leaves the committed books alone. */
  lemma LogFrame(d: Desk, e: Desk)
    requires LogMatches(d) && e.db == d.db && |d.requests| <= |e.requests|
    requires forall r :: 0 <= r < |d.requests| ==>
      && Entry(e, r) == Entry(d, r)
      && (Decided(d.requests[r]) <==> Decided(e.requests[r]))
    requires forall r :: |d.requests| <= r < |e.requests| ==> !Decided(e.requests[r])
    ensures LogMatches(e)
  {
  }

  lemma CommitKeepsBalanced(start: map<string, Status>, d: Desk, m: Move)
    requires Exclusive(d) && Balanced(start, d) && MayMove(d, m) && m.Commit? && m.ok
    ensures Balanced(start, Moved(d, m))
  {
    var r := m.request;
    var e := Moved(d, m);
    CommitEffect(d, m);
    hide Moved, MayMove, Exclusive, WorkInStep, LogMatches, Faithful, Objection, Recorded;
    if d.requests[r].conflict.Some? {
      LogFrame(d, e);
    } else {
      UndecidedIsNotLogged(d, r);
      FaithfulStatus(start, d, r);
      RecordedIsFaithful(start, d.db, Entry(d, r));
      RecordedKeeps(d.db, Entry(d, r));
      CommittedLogMatches(d, e, r);
    }
    NothingOpen(e);
  }

  /** What a successful COMMIT makes of the books. */
  lemma CommitEffect(d: Desk, m: Move)
    requires Exclusive(d) && WorkInStep(d) && MayMove(d, m) && m.Commit? && m.ok
    ensures var r, e := m.request, Moved(d, m);
      && r < |d.requests| && !Answered(d.requests[r])
      && e.requests == d.requests[r := d.requests[r].(phase := Done(true))]
      && e.open.None?
      && if d.requests[r].conflict.Some? then e.db == d.db
         else
           && d.requests[r].phone in d.db.status
           && Objection(d.requests[r].action, d.db.status[d.requests[r].phone]).None?
           && e.db == Recorded(d.db, Entry(d, r))
  {
    hide Objection, Recorded;
  }

  lemma UndecidedIsNotLogged(d: Desk, r: nat)
    requires LogMatches(d) && r < |d.requests| && !Answered(d.requests[r])
    ensures forall k :: 0 <= k < |d.db.log| ==> d.db.log[k].request != r
  {
    forall k | 0 <= k < |d.db.log|
      ensures d.db.log[k].request != r
    {
      assert Decided(d.requests[d.db.log[k].request]);
    }
  }

  lemma FaithfulStatus(start: map<string, Status>, d: Desk, r: nat)
    requires Faithful(start, d.db) && r < |d.requests| && d.requests[r].phone in start
    ensures d.requests[r].phone in d.db.status
  {
  }

  lemma RecordedKeeps(db: Db, entry: LogEntry)
    ensures Recorded(db, entry).log == db.log + [entry]
  {
  }

  lemma NothingOpen(e: Desk)
    requires e.open.None?
    ensures WorkInStep(e)
  {
  }

  lemma CommittedLogMatches(d: Desk, e: Desk, r: nat)
    requires LogMatches(d) && r < |d.requests| && !Answered(d.requests[r])
    requires e.requests == d.requests[r := d.requests[r].(phase := Done(true))]
    requires d.requests[r].conflict.None? && e.db.log == d.db.log + [Entry(d, r)]
    ensures LogMatches(e)
  {
    forall s | 0 <= s < |e.requests| && Decided(e.requests[s])
      ensures InLog(e.db.log, s)
    {
      if s == r {
        assert e.db.log[|d.db.log|].request == r;
      } else {
        assert InLog(d.db.log, s);
        var k :| 0 <= k < |d.db.log| && d.db.log[k].request == s;
        assert e.db.log[k].request == s;
      }
    }
  }

  /** Short of a COMMIT no move decides a request or touches the committed books. */
  lemma OtherMovesDecideNothing(d: Desk, m: Move)
    requires MayMove(d, m) && !m.Ask? && !(m.Commit? && m.ok)
    requires m.Enter? ==> d.requests[m.request].phase.Queued?
    ensures m.request < |d.requests|
    ensures var e := Moved(d, m);
      && e.db == d.db
      && |e.requests| == |d.requests|
      && e.requests == d.requests[m.request := e.requests[m.request]]
      && Entry(e, m.request) == Entry(d, m.request)
      && (Decided(e.requests[m.request]) <==> Decided(d.requests[m.request]))
  {
  }

  lemma OtherMovesKeepLog(d: Desk, m: Move)
    requires Locked(d) && LogMatches(d) && MayMove(d, m) && !(m.Commit? && m.ok)
    ensures LogMatches(Moved(d, m))
  {
    if m.Enter? {
      EntersFromQueue(d, m);
    }
    hide Locked, LogMatches;
    if !m.Ask? {
      OtherMovesDecideNothing(d, m);
      hide Moved, MayMove;
      LogFrame(d, Moved(d, m));
    } else {
      LogFrame(d, Moved(d, m));
    }
  }

  /** Moves of requests that are not in their body leave the transaction's copy alone. */
  lemma OutsideMovesKeepWork(d: Desk, m: Move)
    requires Locked(d) && Exclusive(d) && WorkInStep(d) && MayMove(d, m)
    requires m.Ask? || m.Enter? || m.Turn? || m.Leave? || m.Sweep?
    ensures WorkInStep(Moved(d, m))
  {
    if m.Enter? {
      EntersFromQueue(d, m);
    }
    hide Locked;
    var e := Moved(d, m);
    assert e.open == d.open && e.db == d.db;
    if d.open.Some? {
      var r := d.open.value.owner;
      assert e.requests[r] == d.requests[r] || e.requests[r].phase.Left?;
      assert Entry(e, r) == Entry(d, r);
    }
  }

  lemma BeginKeepsWork(d: Desk, m: Move)
    requires Exclusive(d) && WorkInStep(d) && MayMove(d, m) && m.Begin?
    requires d.requests[m.request].phone in d.db.status
    ensures WorkInStep(Moved(d, m))
  {
    var e := Moved(d, m);
    assert Entry(e, m.request) == Entry(d, m.request);
    if d.open.Some? {
      assert Entry(e, d.open.value.owner) == Entry(d, d.open.value.owner);
    }
  }

  lemma StatementKeepsWork(d: Desk, m: Move)
    requires Exclusive(d) && WorkInStep(d) && MayMove(d, m) && (m.Read? || m.Update? || m.Log?)
    ensures WorkInStep(Moved(d, m))
  {
    assert Entry(Moved(d, m), m.request) == Entry(d, m.request);
  }

  lemma EndKeepsWork(d: Desk, m: Move)
    requires Exclusive(d) && WorkInStep(d) && MayMove(d, m) && (m.Rollback? || (m.Commit? && !m.ok))
    ensures WorkInStep(Moved(d, m))
  {
    assert Entry(Moved(d, m), m.request) == Entry(d, m.request);
  }

  lemma OtherMovesKeepDb(start: map<string, Status>, d: Desk, m: Move)
    requires Balanced(start, d) && MayMove(d, m) && !(m.Commit? && m.ok)
    ensures Moved(d, m).db == d.db
    ensures forall r :: 0 <= r < |Moved(d, m).requests| ==> Moved(d, m).requests[r].phone in start
  {
    hide LogMatches, WorkInStep, LegalLog, LoggedOnce;
  }

  lemma OtherMovesKeepBalanced(start: map<string, Status>, d: Desk, m: Move)
    requires Locked(d) && Exclusive(d) && Balanced(start, d) && MayMove(d, m) && !(m.Commit? && m.ok)
    ensures Balanced(start, Moved(d, m))
  {
    OtherMovesKeepLog(d, m);
    OtherMovesKeepDb(start, d, m);
    if m.Ask? || m.Enter? || m.Turn? || m.Leave? || m.Sweep? {
      OutsideMovesKeepWork(d, m);
    } else if m.Begin? {
      BeginKeepsWork(d, m);
    } else if m.Read? || m.Update? || m.Log? {
      StatementKeepsWork(d, m);
    } else {
      EndKeepsWork(d, m);
    }
    hide Locked, Exclusive, LogMatches, WorkInStep, Faithful, Moved, MayMove;
  }

  // ---- each body once -----------------------------------------------------------------------------

  ghost predicate HasBegun(phase: Phase) {
    InBody(phase) || phase.Done? || phase.Left?
  }

  /** A body runs after a successful BEGIN, and no request gets a second one. */
  ghost predicate BodiesOnce(d: Desk) {
    && (forall i :: 0 <= i < |d.bodies| ==>
      d.bodies[i] < |d.requests| && HasBegun(d.requests[d.bodies[i]].phase))
    && (forall i, j :: 0 <= i < j < |d.bodies| ==> d.bodies[i] != d.bodies[j])
  }

  lemma MoveKeepsBodiesOnce(d: Desk, m: Move)
    requires Locked(d) && BodiesOnce(d) && MayMove(d, m)
    ensures BodiesOnce(Moved(d, m))
  {
    if m.Enter? {
      EntersFromQueue(d, m);
    }
    hide Locked, Tracked;
    BodiesFrame(d, Moved(d, m));
  }

  lemma BodiesFrame(d: Desk, e: Desk)
    requires BodiesOnce(d) && |d.requests| <= |e.requests|
    requires forall r :: 0 <= r < |d.requests| && HasBegun(d.requests[r].phase) ==> HasBegun(e.requests[r].phase)
    requires e.bodies == d.bodies ||
      exists r :: 0 <= r < |d.requests| && !HasBegun(d.requests[r].phase) && HasBegun(e.requests[r].phase)
        && e.bodies == d.bodies + [r]
    ensures BodiesOnce(e)
  {
  }

  // ---- all runs --------------------------------------------------------------------------------------

  ghost predicate Orderly(start: map<string, Status>, d: Desk) {
    Locked(d) && Exclusive(d) && Balanced(start, d) && BodiesOnce(d)
  }

  lemma MoveKeepsOrderly(start: map<string, Status>, d: Desk, m: Move)
    requires Orderly(start, d)
    ensures Orderly(start, Moved(d, m))
  {
    if MayMove(d, m) {
      hide Locked, Exclusive, Balanced, BodiesOnce;
      MoveKeepsLocked(d, m);
      MoveKeepsExclusive(d, m);
      MoveKeepsBodiesOnce(d, m);
      if m.Commit? && m.ok {
        CommitKeepsBalanced(start, d, m);
      } else {
        OtherMovesKeepBalanced(start, d, m);
      }
    }
  }

  lemma {:induction false} RunsAreOrderly(start: map<string, Status>, run: seq<Move>)
    ensures Orderly(start, After(start, run))
  {
    if run != [] {
      RunsAreOrderly(start, run[..|run| - 1]);
      MoveKeepsOrderly(start, After(start, run[..|run| - 1]), run[|run| - 1]);
    }
  }

  /** In every run a driver's status is what replaying the approval log gives, and neighbouring entries differ. */
  lemma StatusIsReplayOfLog(start: map<string, Status>, run: seq<Move>, phone: string)
    requires phone in start
    ensures var db := After(start, run).db;
      && phone in db.status && db.status[phone] == Replay(start, db.log, phone)
      && (forall j, k :: (0 <= j < k < |db.log| && db.log[j].phone == db.log[k].phone == phone
                          && (forall i :: j < i < k ==> db.log[i].phone != phone))
                         ==> Target(db.log[j].action) != Target(db.log[k].action))
  {
    RunsAreOrderly(start, run);
    var log := After(start, run).db.log;
    forall j, k | 0 <= j < k < |log| && log[j].phone == log[k].phone == phone
      && (forall i :: j < i < k ==> log[i].phone != phone)
      ensures Target(log[j].action) != Target(log[k].action)
    {
      NeighboursDiffer(start, log, j, k);
    }
  }

  lemma {:induction false} ReplayWithoutEntries(start: map<string, Status>, log: seq<LogEntry>, phone: string)
    requires phone in start && forall k :: 0 <= k < |log| ==> log[k].phone != phone
    ensures Replay(start, log, phone) == start[phone]
  {
    if log != [] {
      ReplayWithoutEntries(start, log[..|log| - 1], phone);
    }
  }

  /** Entry `k` is the last one of the driver. */
  ghost predicate LastEntry(log: seq<LogEntry>, k: nat, phone: string) {
    k < |log| && log[k].phone == phone && forall i :: k < i < |log| ==> log[i].phone != phone
  }

  /** In every run a driver is what the last logged decision made of him, or what he was at the start. */
  lemma StatusFollowsLastDecision(start: map<string, Status>, run: seq<Move>, phone: string)
    requires phone in start
    ensures var db := After(start, run).db;
      && phone in db.status
      && (forall k: nat :: LastEntry(db.log, k, phone) ==> Means(db.log[k].action, db.status[phone]))
      && ((forall k :: 0 <= k < |db.log| ==> db.log[k].phone != phone) ==> db.status[phone] == start[phone])
  {
    StatusIsReplayOfLog(start, run, phone);
    var log := After(start, run).db.log;
    hide After, Means, Target;
    forall k: nat | LastEntry(log, k, phone)
      ensures Means(log[k].action, Replay(start, log, phone))
    {
      ReplayIsLastTarget(start, log, k);
      TargetMeans(log[k].action);
    }
    if forall k :: 0 <= k < |log| ==> log[k].phone != phone {
      ReplayWithoutEntries(start, log, phone);
    }
  }

  /** Exactly the requests answered without a conflict are in the log, each of them once. */
  lemma LoggedExactlyOnce(start: map<string, Status>, run: seq<Move>, r: nat)
    requires r < |After(start, run).requests|
    ensures var d := After(start, run);
      && (Decided(d.requests[r]) <==> InLog(d.db.log, r))
      && LoggedOnce(d.db.log)
  {
    RunsAreOrderly(start, run);
  }

  /** At most one request per phone is between taking and releasing the driver lock. */
  lemma OnePerPhone(start: map<string, Status>, run: seq<Move>, r: nat, s: nat)
    requires var d := After(start, run);
      && r < |d.requests| && s < |d.requests| && d.requests[r].phone == d.requests[s].phone
      && !d.requests[r].phase.Queued? && !d.requests[r].phase.Left?
      && !d.requests[s].phase.Queued? && !d.requests[s].phase.Left?
    ensures r == s
  {
    RunsAreOrderly(start, run);
    var d := After(start, run);
    assert Tracked(d, r) && Tracked(d, s);
  }

  // ---- a failed ROLLBACK -----------------------------------------------------------------------------

  ghost predicate RollbackFailedAt(start: map<string, Status>, run: seq<Move>, i: nat)
    requires i < |run|
  {
    run[i].Rollback? && run[i].undone.StillOpen? && MayMove(After(start, run[..i]), run[i])
  }

  lemma {:induction false} StuckExactlyAfterFailedRollback(start: map<string, Status>, run: seq<Move>)
    ensures After(start, run).stuck <==> exists i :: 0 <= i < |run| && RollbackFailedAt(start, run, i)
  {
    if run != [] {
      var last := |run| - 1;
      var init := run[..last];
      StuckExactlyAfterFailedRollback(start, init);
      assert forall i :: 0 <= i < last ==> run[..i] == init[..i];
      assert forall i :: 0 <= i < last ==> (RollbackFailedAt(start, run, i) <==> RollbackFailedAt(start, init, i));
      StuckStep(After(start, init), run[last]);
      assert RollbackFailedAt(start, run, last) <==>
        (run[last].Rollback? && run[last].undone.StillOpen? && MayMove(After(start, init), run[last]));
    }
  }

  lemma StuckStep(d: Desk, m: Move)
    ensures Moved(d, m).stuck <==> d.stuck || (m.Rollback? && m.undone.StillOpen? && MayMove(d, m))
  {
  }

  /** Then no BEGIN succeeds and nothing is committed any more, whatever follows. */
  lemma {:induction false} StuckForGood(start: map<string, Status>, run: seq<Move>, more: seq<Move>)
    requires After(start, run).stuck
    ensures var d := After(start, run + more);
      && d.stuck && d.db == After(start, run).db
      && forall r, begun :: MayMove(d, Begin(r, begun)) ==> begun.Refused?
  {
    hide Locked, Exclusive, Balanced, BodiesOnce, Moved, MayMove;
    RunsAreOrderly(start, run + more);
    if more == [] {
      assert run + more == run;
    } else {
      var init, m := more[..|more| - 1], more[|more| - 1];
      StuckForGood(start, run, init);
      RunsAreOrderly(start, run + init);
      assert (run + more)[..|run + more| - 1] == run + init;
      StuckMove(After(start, run + init), m);
    }
    StuckRefuses(After(start, run + more));
  }

  lemma StuckMove(d: Desk, m: Move)
    requires Locked(d) && Exclusive(d) && d.stuck
    ensures Moved(d, m).stuck && Moved(d, m).db == d.db
  {
    if MayMove(d, m) {
      MoveKeepsExclusive(d, m);
    }
  }

  lemma StuckRefuses(d: Desk)
    requires Exclusive(d) && d.stuck
    ensures forall r, begun :: MayMove(d, Begin(r, begun)) ==> begun.Refused?
  {
  }

  lemma Extended(start: map<string, Status>, run: seq<Move>, m: Move) returns (longer: seq<Move>)
    ensures longer == run + [m] && After(start, longer) == Moved(After(start, run), m)
  {
    longer := run + [m];
    assert longer[..|run|] == run;
  }

  /** Such a run exists: the first statement of a body fails, and so does its ROLLBACK. */
  lemma RollbackCanStick() returns (start: map<string, Status>, run: seq<Move>)
    ensures After(start, run).stuck
  {
    start := map["a" := Pending];
    run := [];
    run := Extended(start, run, Ask("a", Approve, ""));
    run := Extended(start, run, Enter(0));
    var d := After(start, run);
    assert d.requests == [Request("a", Approve, Entered, 0, None)];
    assert d.queue == Chains([Task(QUEUE, None, Waiting)], map[QUEUE := 0]);
    run := Extended(start, run, Turn(0));
    run := Extended(start, run, Begin(0, Opened));
    run := Extended(start, run, Read(0, false));
    assert At(After(start, run), 0, ToRollback);
    run := Extended(start, run, Rollback(0, StillOpen));
  }

  // ---- every request is answered ---------------------------------------------------------------------------

  function Weight(phase: Phase): nat {
    match phase
    case Queued => 20
    case Entered => 19
    case Beginning(attempt) => if attempt <= MAX_RETRIES then 18 - attempt else 7
    case Reading => 6
    case ToUpdate => 5
    case ToLog => 4
    case ToCommit => 3
    case ToRollback => 2
    case Done(_) => 1
    case Left(_) => 0
  }

  function Remaining(requests: seq<Request>): nat {
    if requests == [] then 0
    else Remaining(requests[..|requests| - 1]) + Weight(requests[|requests| - 1].phase)
  }

  lemma {:induction false} RemainingUpdate(requests: seq<Request>, r: nat, q: Request)
    requires r < |requests|
    ensures Remaining(requests[r := q]) == Remaining(requests) - Weight(requests[r].phase) + Weight(q.phase)
  {
    var last := |requests| - 1;
    if r == last {
      assert requests[r := q][..last] == requests[..last];
    } else {
      RemainingUpdate(requests[..last], r, q);
      assert requests[r := q][..last] == requests[..last][r := q];
    }
  }

  /** Each move of a request brings it nearer to its answer; BEGIN is retried boundedly often. */
  lemma MoveIsProgress(d: Desk, m: Move)
    requires Locked(d) && MayMove(d, m) && !m.Ask? && !m.Sweep?
    ensures Remaining(Moved(d, m).requests) < Remaining(d.requests)
  {
    if m.Enter? {
      EntersFromQueue(d, m);
    }
    MoveTouchesOne(d, m);
    hide Locked, Remaining, Moved, MayMove;
    RemainingUpdate(d.requests, m.request, Moved(d, m).requests[m.request]);
  }

  lemma MoveLightens(d: Desk, m: Move)
    requires MayMove(d, m) && !m.Ask? && !m.Sweep?
    requires m.Enter? ==> d.requests[m.request].phase.Queued?
    ensures m.request < |d.requests| && |Moved(d, m).requests| == |d.requests|
    ensures Weight(Moved(d, m).requests[m.request].phase) < Weight(d.requests[m.request].phase)
  {
    hide CanStart, IsRunning, WithPhase, Submitted, Objection, Target;
  }

  lemma MoveTouchesOne(d: Desk, m: Move)
    requires MayMove(d, m) && !m.Ask? && !m.Sweep?
    requires m.Enter? ==> d.requests[m.request].phase.Queued?
    ensures m.request < |d.requests|
    ensures var e := Moved(d, m);
      && |e.requests| == |d.requests|
      && Weight(e.requests[m.request].phase) < Weight(d.requests[m.request].phase)
      && e.requests == d.requests[m.request := e.requests[m.request]]
  {
    MoveLightens(d, m);
    hide Weight, CanStart, IsRunning, WithPhase, Submitted, Objection, Target;
  }

  /** Nobody waits for ever on a lock: while a request is unanswered some request can move. */
  lemma SomeoneCanMove(d: Desk, r: nat) returns (m: Move)
    requires Locked(d) && Exclusive(d) && r < |d.requests| && !d.requests[r].phase.Left?
    requires forall s :: 0 <= s < |d.requests| ==> d.requests[s].phone in d.db.status
    requires WorkInStep(d)
    ensures MayMove(d, m) && !m.Ask? && !m.Sweep? && !(m.Rollback? && m.undone.StillOpen?)
  {
    assert Tracked(d, r);
    var head := NeverStuck(d.lock, r);
    assert Tracked(d, head);
    if CanStart(d.lock, head) {
      return Enter(head);
    }
    if d.requests[head].phase.Done? {
      return Leave(head);
    }
    var k := NeverStuck(d.queue, d.requests[head].ticket);
    assert Ticketed(d, k);
    var s := d.owners[k];
    assert Tracked(d, s);
    m := if CanStart(d.queue, k) then Turn(s) else BodyMove(d, s);
  }

  lemma SameRequests(d: Desk, m: Move)
    requires MayMove(d, m) && !m.Ask?
    ensures |Moved(d, m).requests| == |d.requests|
  {
  }

  lemma StaysUnstuck(d: Desk, m: Move)
    requires !(m.Rollback? && m.undone.StillOpen?)
    ensures Moved(d, m).stuck == d.stuck
  {
  }

  /** What a request in its transaction does when the database does what it is asked. */
  function BodyMove(d: Desk, s: nat): Move
    requires s < |d.requests|
  {
    match d.requests[s].phase
    case Beginning(_) => Begin(s, if d.open.Some? then Refused else Opened)
    case Reading => Read(s, true)
    case ToUpdate => Update(s, true)
    case ToLog => Log(s, true)
    case ToCommit => Commit(s, true)
    case _ => Rollback(s, RolledBack)
  }

  /** From every reachable state the pending requests can all be answered, within `Remaining` moves. */
  lemma {:induction false} AllCanBeAnswered(start: map<string, Status>, run: seq<Move>) returns (more: seq<Move>)
    ensures |more| <= Remaining(After(start, run).requests)
    ensures |After(start, run + more).requests| == |After(start, run).requests|
    ensures After(start, run + more).stuck == After(start, run).stuck
    ensures forall r :: 0 <= r < |After(start, run + more).requests| ==>
      After(start, run + more).requests[r].phase.Left?
    decreases Remaining(After(start, run).requests)
  {
    hide Locked, Exclusive, BodiesOnce, Moved, MayMove, LogMatches, LegalLog, LoggedOnce, WorkInStep;
    var d := After(start, run);
    RunsAreOrderly(start, run);
    if r :| 0 <= r < |d.requests| && !d.requests[r].phase.Left? {
      var m := SomeoneCanMove(d, r);
      var longer := Extended(start, run, m);
      MoveIsProgress(d, m);
      SameRequests(d, m);
      StaysUnstuck(d, m);
      var rest := AllCanBeAnswered(start, longer);
      more := [m] + rest;
      assert run + more == longer + rest;
    } else {
      more := [];
      assert run + more == run;
    }
  }

  // ---- whatever the schedule -----------------------------------------------------------------------------------

  /** Moves of requests that have been made already; sweeping a lock is not one. */
  ghost predicate OfRequest(m: Move) {
    !m.Ask? && !m.Sweep?
  }

  ghost function RequestMoves(more: seq<Move>): nat {
    if more == [] then 0
    else RequestMoves(more[..|more| - 1]) + if OfRequest(more[|more| - 1]) then 1 else 0
  }

  function Asks(more: seq<Move>): nat {
    if more == [] then 0
    else Asks(more[..|more| - 1]) + if more[|more| - 1].Ask? then 1 else 0
  }

  /** Every move of the continuation takes effect. */
  ghost predicate Effective(start: map<string, Status>, run: seq<Move>, more: seq<Move>) {
    forall i :: 0 <= i < |more| ==> MayMove(After(start, run + more[..i]), more[i])
  }

  lemma MoveCosts(d: Desk, m: Move)
    requires Locked(d) && MayMove(d, m)
    ensures Remaining(Moved(d, m).requests) + (if OfRequest(m) then 1 else 0)
      <= Remaining(d.requests) + if m.Ask? then Weight(Queued) else 0
  {
    if OfRequest(m) {
      MoveIsProgress(d, m);
    } else if m.Ask? {
      var asked := Moved(d, m).requests;
      assert asked[..|asked| - 1] == d.requests;
    }
    hide Locked;
  }

  lemma EffectivePrefix(start: map<string, Status>, run: seq<Move>, more: seq<Move>)
    requires more != [] && Effective(start, run, more)
    ensures var init := more[..|more| - 1];
      && Effective(start, run, init) && MayMove(After(start, run + init), more[|more| - 1])
      && After(start, run + more) == Moved(After(start, run + init), more[|more| - 1])
  {
    LastMove(start, run, more);
    hide MayMove, Moved, After;
    var init, last := more[..|more| - 1], |more| - 1;
    assert MayMove(After(start, run + more[..last]), more[last]);
    forall i | 0 <= i < |init|
      ensures MayMove(After(start, run + init[..i]), init[i])
    {
      assert init[..i] == more[..i] && init[i] == more[i];
    }
  }

  lemma LastMove(start: map<string, Status>, run: seq<Move>, more: seq<Move>)
    requires more != []
    ensures After(start, run + more) == Moved(After(start, run + more[..|more| - 1]), more[|more| - 1])
  {
    hide MayMove, Moved;
    assert (run + more)[..|run + more| - 1] == run + more[..|more| - 1];
  }

  /**
   Whatever the schedule and whatever the database answers, the requests at hand use up
   what remains of them: each later one adds the weight of a whole request.
   */
  lemma {:induction false} MovesAreBounded(start: map<string, Status>, run: seq<Move>, more: seq<Move>)
    requires Effective(start, run, more)
    ensures Remaining(After(start, run + more).requests) + RequestMoves(more)
      <= Remaining(After(start, run).requests) + Weight(Queued) * Asks(more)
  {
    hide After, Effective, Locked, MayMove, Moved, Remaining, Exclusive, BodiesOnce, Balanced;
    if more == [] {
      assert run + more == run;
    } else {
      var init, m := more[..|more| - 1], more[|more| - 1];
      EffectivePrefix(start, run, more);
      MovesAreBounded(start, run, init);
      RunsAreOrderly(start, run + init);
      MoveCosts(After(start, run + init), m);
    }
  }

  lemma StillExactlyWhenAnswered(start: map<string, Status>, d: Desk)
    requires Orderly(start, d)
    ensures (forall m :: OfRequest(m) ==> !MayMove(d, m)) <==>
      (forall r :: 0 <= r < |d.requests| ==> d.requests[r].phase.Left?)
  {
    hide MayMove, Locked, Exclusive, LogMatches, WorkInStep, LegalLog, LoggedOnce, BodiesOnce;
    if r :| 0 <= r < |d.requests| && !d.requests[r].phase.Left? {
      var m := SomeoneCanMove(d, r);
    } else if m :| OfRequest(m) && MayMove(d, m) {
      if m.Enter? {
        EntersFromQueue(d, m);
      }
      MoveLightens(d, m);
    }
  }

  /**
   Every schedule answers: no continuation of effective moves without new requests makes more than
   `Remaining` request moves, and once no request can move every request has been answered and has left.
   */
  lemma EveryScheduleAnswers(start: map<string, Status>, run: seq<Move>, more: seq<Move>)
    requires Effective(start, run, more) && forall i :: 0 <= i < |more| ==> !more[i].Ask?
    ensures RequestMoves(more) <= Remaining(After(start, run).requests)
    ensures var d := After(start, run + more);
      (forall m :: OfRequest(m) ==> !MayMove(d, m)) <==>
      (forall r :: 0 <= r < |d.requests| ==> d.requests[r].phase.Left?)
  {
    hide After, Effective, Orderly, MayMove, Remaining;
    MovesAreBounded(start, run, more);
    NoAsks(more);
    RunsAreOrderly(start, run + more);
    StillExactlyWhenAnswered(start, After(start, run + more));
  }

  lemma {:induction false} NoAsks(more: seq<Move>)
    requires forall i :: 0 <= i < |more| ==> !more[i].Ask?
    ensures Asks(more) == 0
  {
    if more != [] {
      NoAsks(more[..|more| - 1]);
    }
  }

  // ---- every decision can be made ------------------------------------------------------------------------------

  function Play(d: Desk, more: seq<Move>): Desk {
    if more == [] then d else Moved(Play(d, more[..|more| - 1]), more[|more| - 1])
  }

  lemma {:induction false} PlayIsAfter(start: map<string, Status>, run: seq<Move>, more: seq<Move>)
    ensures After(start, run + more) == Play(After(start, run), more)
  {
    hide Moved;
    if more == [] {
      assert run + more == run;
    } else {
      LastMove(start, run, more);
      PlayIsAfter(start, run, more[..|more| - 1]);
    }
  }

  lemma PlayMore(d: Desk, more: seq<Move>, m: Move)
    ensures Play(d, more + [m]) == Moved(Play(d, more), m)
  {
    assert (more + [m])[..|more|] == more;
  }

  /** Nothing is going on. */
  ghost predicate Idle(d: Desk) {
    && Locked(d) && d.open.None? && !d.stuck
    && (forall r :: 0 <= r < |d.lock.tasks| ==> d.lock.tasks[r].phase.Settled?)
    && (forall k :: 0 <= k < |d.queue.tasks| ==> d.queue.tasks[k].phase.Settled?)
  }

  lemma AllLeftIsIdle(start: map<string, Status>, d: Desk)
    requires Orderly(start, d) && !d.stuck && forall r :: 0 <= r < |d.requests| ==> d.requests[r].phase.Left?
    ensures Idle(d)
  {
    forall r | 0 <= r < |d.lock.tasks|
      ensures d.lock.tasks[r].phase.Settled?
    {
      assert Tracked(d, r);
    }
    forall k | 0 <= k < |d.queue.tasks|
      ensures d.queue.tasks[k].phase.Settled?
    {
      assert Ticketed(d, k) && Tracked(d, d.owners[k]);
    }
    hide Sound, Balanced, BodiesOnce;
  }

  /** The newest request stands in this phase, for this driver. */
  ghost predicate Newest(d: Desk, r: nat, phone: string, action: Action, phase: Phase) {
    && |d.requests| == r + 1 == |d.lock.tasks| && IsRunning(d.lock, r)
    && d.requests[r].phone == phone && d.requests[r].action == action && d.requests[r].phase == phase
  }

  lemma Admitted(d: Desk, phone: string, action: Action, reason: string) returns (e: Desk)
    requires Idle(d) && phone in d.db.status && ReasonAccepted(action, reason)
    ensures e == Play(d, [Ask(phone, action, reason), Enter(|d.requests|)])
    ensures Newest(e, |d.requests|, phone, action, Entered) && e.requests[|d.requests|].conflict.None?
    ensures e.db == d.db && e.open.None? && CanStart(e.queue, e.requests[|d.requests|].ticket)
  {
    var r := |d.requests|;
    var asked := Moved(d, Ask(phone, action, reason));
    assert CanStart(asked.lock, r);
    e := Moved(asked, Enter(r));
    PlayMore(d, [], Ask(phone, action, reason));
    PlayMore(d, [Ask(phone, action, reason)], Enter(r));
    assert [] + [Ask(phone, action, reason)] == [Ask(phone, action, reason)];
    assert [Ask(phone, action, reason)] + [Enter(r)] == [Ask(phone, action, reason), Enter(r)];
    hide Tracked, Ticketed, Play;
  }

  lemma BodyBegins(d: Desk, r: nat, phone: string, action: Action) returns (e: Desk)
    requires Newest(d, r, phone, action, Entered) && d.open.None? && CanStart(d.queue, d.requests[r].ticket)
    requires d.requests[r].conflict.None?
    ensures e == Moved(Moved(d, Turn(r)), Begin(r, Opened))
    ensures Newest(e, r, phone, action, Reading) && e.open == Some(Tx(r, d.db)) && e.db == d.db
    ensures e.requests[r].conflict.None?
  {
    e := Moved(Moved(d, Turn(r)), Begin(r, Opened));
  }

  /** What becomes of a decision: a conflict leaves the books alone, otherwise status and log are written. */
  ghost predicate DecidedAs(before: Db, d: Desk, r: nat, phone: string, action: Action)
    requires phone in before.status
  {
    && r < |d.requests| && d.requests[r].phone == phone && d.requests[r].action == action
    && d.requests[r].phase == Left(true)
    && d.requests[r].conflict == Objection(action, before.status[phone])
    && if d.requests[r].conflict.Some? then d.db == before
       else
         && d.db.log == before.log + [LogEntry(r, phone, action)]
         && d.db.status.Keys == before.status.Keys && Means(action, d.db.status[phone])
         && forall other :: other in before.status && other != phone ==> d.db.status[other] == before.status[other]
  }

  /** The rest of a body that meets no trouble. */
  function RestOf(r: nat, objection: bool): seq<Move> {
    if objection then [Read(r, true), Commit(r, true), Leave(r)]
    else [Read(r, true), Update(r, true), Log(r, true), Commit(r, true), Leave(r)]
  }

  lemma ConflictIsAnswered(d: Desk, r: nat, phone: string, action: Action) returns (e: Desk)
    requires Newest(d, r, phone, action, Reading) && d.open == Some(Tx(r, d.db)) && phone in d.db.status
    requires Objection(action, d.db.status[phone]).Some?
    ensures e == Moved(Moved(Moved(d, Read(r, true)), Commit(r, true)), Leave(r))
    ensures DecidedAs(d.db, e, r, phone, action)
  {
    hide Objection;
    e := Moved(Moved(Moved(d, Read(r, true)), Commit(r, true)), Leave(r));
  }

  lemma DecisionIsLogged(d: Desk, r: nat, phone: string, action: Action) returns (e: Desk)
    requires Newest(d, r, phone, action, Reading) && d.open == Some(Tx(r, d.db)) && phone in d.db.status
    requires Objection(action, d.db.status[phone]).None?
    ensures e == Moved(Moved(Moved(d, Read(r, true)), Update(r, true)), Log(r, true))
    ensures Newest(e, r, phone, action, ToCommit) && e.requests[r].conflict.None? && e.db == d.db
    ensures e.open == Some(Tx(r, Recorded(d.db, LogEntry(r, phone, action))))
  {
    hide Objection, Target;
    var read := Moved(d, Read(r, true));
    assert Newest(read, r, phone, action, ToUpdate);
    e := Moved(Moved(read, Update(r, true)), Log(r, true));
  }

  lemma DecisionIsCommitted(d: Desk, r: nat, phone: string, action: Action, work: Db) returns (e: Desk)
    requires Newest(d, r, phone, action, ToCommit) && d.requests[r].conflict.None? && d.open == Some(Tx(r, work))
    ensures e == Moved(Moved(d, Commit(r, true)), Leave(r)) && e.db == work
    ensures r < |e.requests| && e.requests[r].phone == phone && e.requests[r].action == action
    ensures e.requests[r].phase == Left(true) && e.requests[r].conflict.None?
  {
    e := Moved(Moved(d, Commit(r, true)), Leave(r));
  }

  lemma DecisionIsWritten(d: Desk, r: nat, phone: string, action: Action) returns (e: Desk)
    requires Newest(d, r, phone, action, Reading) && d.open == Some(Tx(r, d.db)) && phone in d.db.status
    requires Objection(action, d.db.status[phone]).None?
    ensures var logged := Moved(Moved(Moved(d, Read(r, true)), Update(r, true)), Log(r, true));
      e == Moved(Moved(logged, Commit(r, true)), Leave(r))
    ensures DecidedAs(d.db, e, r, phone, action)
  {
    hide Moved, Objection, Newest;
    TargetMeans(action);
    var logged := DecisionIsLogged(d, r, phone, action);
    e := DecisionIsCommitted(logged, r, phone, action, Recorded(d.db, LogEntry(r, phone, action)));
    hide Target, Means;
  }

  /**
   From every reachable state whose connection is not stuck, any decision about any driver can
   be asked for and made, the refusals and suspensions with a reason of 5 to 500 characters:
   then it meets the objection to the driver's status, or is written and logged.
   */
  lemma EveryDecisionCanBeMade(start: map<string, Status>, run: seq<Move>, phone: string, action: Action,
                               reason: string)
    returns (until: seq<Move>, rest: seq<Move>)
    requires phone in start && !After(start, run).stuck
    requires (action.Reject? || action.Suspend?) ==> 5 <= |reason| <= 500
    ensures rest != [] && rest[0] == Ask(phone, action, reason)
    ensures var before, d := After(start, run + until).db, After(start, run + until + rest);
      phone in before.status && DecidedAs(before, d, |After(start, run).requests|, phone, action)
  {
    until := AllCanBeAnswered(start, run);
    var d := After(start, run + until);
    RunsAreOrderly(start, run + until);
    AllLeftIsIdle(start, d);
    assert phone in d.db.status;
    var r := |d.requests|;
    hide Orderly, Idle, After, Moved, MayMove, Play, DecidedAs, Newest, Objection, CanStart;
    var admitted := Admitted(d, phone, action, reason);
    var begun := BodyBegins(admitted, r, phone, action);
    var first := [Ask(phone, action, reason), Enter(r)];
    PlayMore(d, first, Turn(r));
    PlayMore(d, first + [Turn(r)], Begin(r, Opened));
    var objection := Objection(action, d.db.status[phone]).Some?;
    var body := first + [Turn(r)] + [Begin(r, Opened)];
    rest := body + RestOf(r, objection);
    if objection {
      var end := ConflictIsAnswered(begun, r, phone, action);
      PlayRest(d, body, r, true);
    } else {
      var end := DecisionIsWritten(begun, r, phone, action);
      PlayRest(d, body, r, false);
    }
    PlayIsAfter(start, run + until, rest);
  }

  lemma PlayRest(d: Desk, body: seq<Move>, r: nat, objection: bool)
    ensures var read := Moved(Play(d, body), Read(r, true));
      var worked := if objection then read else Moved(Moved(read, Update(r, true)), Log(r, true));
      Play(d, body + RestOf(r, objection)) == Moved(Moved(worked, Commit(r, true)), Leave(r))
  {
    hide Moved, Play;
    PlayMore(d, body, Read(r, true));
    var read := body + [Read(r, true)];
    PlayMore(d, read, Update(r, true));
    PlayMore(d, read + [Update(r, true)], Log(r, true));
    var worked := if objection then read else read + [Update(r, true)] + [Log(r, true)];
    PlayMore(d, worked, Commit(r, true));
    PlayMore(d, worked + [Commit(r, true)], Leave(r));
    assert body + RestOf(r, objection) == worked + [Commit(r, true)] + [Leave(r)];
  }

  /** A refusal or suspension whose reason is too short or too long is turned away, and nothing else is. */
  lemma AskedExactly(d: Desk, phone: string, action: Action, reason: string)
    ensures Moved(d, Ask(phone, action, reason)) != d <==>
      phone in d.db.status && (action.Approve? || action.Reactivate? || 5 <= |reason| <= 500)
  {
    assert |Moved(d, Ask(phone, action, reason)).requests| > |d.requests| <==> MayMove(d, Ask(phone, action, reason));
  }

  /** A BEGIN that finds the database busy is tried again ten times; the next failure is final. */
  lemma {:induction false} BusyTenTimes(d: Desk, r: nat, n: nat)
    requires MayMove(d, Turn(r)) && d.open.None? && n <= 11
    ensures var e := Play(Moved(d, Turn(r)), seq(n, i => Begin(r, Busy)));
      && r < |e.requests| && e.open.None? && e.db == d.db
      && e.requests[r].phase == if n <= 10 then Beginning(n) else Done(false)
  {
    hide Moved, MayMove;
    var busy := seq(n, i => Begin(r, Busy));
    TurnBegins(d, r);
    if n > 0 {
      BusyTenTimes(d, r, n - 1);
      assert busy[..n - 1] == seq(n - 1, i => Begin(r, Busy));
      BusyOnce(Play(Moved(d, Turn(r)), busy[..n - 1]), r);
    }
  }

  lemma TurnBegins(d: Desk, r: nat)
    requires MayMove(d, Turn(r))
    ensures var e := Moved(d, Turn(r));
      r < |e.requests| && e.requests[r].phase == Beginning(0) && e.open == d.open && e.db == d.db
  {
  }

  lemma BusyOnce(d: Desk, r: nat)
    requires r < |d.requests| && d.requests[r].phase.Beginning? && d.open.None?
    ensures var e, attempt := Moved(d, Begin(r, Busy)), d.requests[r].phase.attempt;
      && r < |e.requests| && e.open.None? && e.db == d.db
      && e.requests[r].phase == if attempt < 10 then Beginning(attempt + 1) else Done(false)
  {
  }

  /** A BEGIN that is refused for another reason is final at once, and only one that succeeds starts a body. */
  lemma OnlyBusyIsRetried(d: Desk, r: nat, begun: BeginOutcome)
    requires MayMove(d, Begin(r, begun))
    ensures var e := Moved(d, Begin(r, begun));
      && (begun.Refused? ==> e.requests[r].phase == Done(false))
      && (begun.Opened? <==> e.requests[r].phase.Reading?)
      && e.bodies == if begun.Opened? then d.bodies + [r] else d.bodies
  {
  }

  /** No other move starts a body. */
  lemma BodiesStartAtBegin(d: Desk, m: Move)
    requires !m.Begin?
    ensures Moved(d, m).bodies == d.bodies
  {
  }

  /** Sweeping a request's lock forgets its phone exactly if no later request has asked for it. */
  lemma SweepForgetsExactly(start: map<string, Status>, run: seq<Move>, r: nat)
    requires MayMove(After(start, run), Sweep(r)) && After(start, run).requests[r].phone in After(start, run).lock.tails
    ensures var d := After(start, run);
      var phone := d.requests[r].phone;
      phone in Moved(d, Sweep(r)).lock.tails <==> exists u :: r < u < |d.requests| && d.requests[u].phone == phone
  {
    RunsAreOrderly(start, run);
    var d := After(start, run);
    assert Tracked(d, r);
    CleanForgetsExactly(d.lock, r, d.requests[r].phone);
    forall u | r < u < |d.requests|
      ensures d.lock.tasks[u].key == d.requests[u].phone
    {
      assert Tracked(d, u);
    }
    hide After, Sound, Exclusive, Balanced, BodiesOnce;
  }
}
