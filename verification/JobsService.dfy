/**
 src/application/jobs/jobsService.js with its calls run to completion one at a time:
 creation with de-duplication and idempotency, cancellation, and the tick that recovers,
 collects, orders and runs the due jobs. What handlers do is a parameter.
 */
module JobsService {
  import opened Wrappers
  import opened Job

  datatype Defaults = Defaults(
    priority: Option<real>, policy: Option<RetryPolicy>, maxAttempts: Option<int>, timeout: Option<Time>)

  datatype Spec = Spec(
    kind: string, priority: Option<real>, policy: Option<RetryPolicy>, maxAttempts: Option<int>, timeout: Option<Time>,
    scheduledTime: Option<Time>, dedupKey: Option<string>, idempotencyKey: Option<string>)

  datatype Error = TypeRequired | NoHandler | InvalidPolicy | TimeRequired

  datatype Summary = Summary(processed: nat, completed: nat, retried: nat, deadLetter: nat, timedOut: nat)

  /** `provider` holds the jobs, `index` their statuses in insertion order `listed`. */
  datatype Books = Books(
    provider: map<Key, Job>, index: map<Key, Status>, listed: seq<Key>,
    dedup: map<Key, string>, idem: map<Key, string>, counter: nat)

  const NO_BOOKS := Books(map[], map[], [], map[], map[], 0)

  function Or<T>(first: Option<T>, second: Option<T>): Option<T> {
    if first.Some? then first else second
  }

  function Value<T>(o: Option<T>, default: T): T {
    if o.Some? then o.value else default
  }

  /** The new job: the spec over its type's defaults, one attempt unless told otherwise. */
  function NewJob(d: Defaults, spec: Spec, key: Key, order: nat, status: Status): Job {
    var once := RetryPolicy(Value(Or(spec.maxAttempts, d.maxAttempts), 1), 0.0, 2.0, 0.0);
    Job(key, spec.kind, Value(Or(spec.priority, d.priority), 0.0), status,
        Value(Or(spec.policy, d.policy), once), 0,
        spec.scheduledTime, None, None, Or(spec.timeout, d.timeout), spec.dedupKey, spec.idempotencyKey, order)
  }

  // ---- what the books keep ------------------------------------------------------------------

  type Provider = map<Key, Job>

  ghost predicate Indexed(jobs: Provider, index: map<Key, Status>) {
    && (forall k :: k in index ==> k in jobs)
    && (forall k :: k in jobs ==> k in index && jobs[k].key == k && index[k] == jobs[k].status)
  }

  ghost predicate Listed(jobs: Provider, listed: seq<Key>) {
    && (forall k :: k in jobs ==> k in listed)
    && (forall i :: 0 <= i < |listed| ==> listed[i] in jobs)
    && (forall i, j :: 0 <= i < j < |listed| ==> listed[i] != listed[j])
  }

  ghost predicate Numbered(jobs: Provider, counter: nat) {
    && (forall k :: k in jobs ==> jobs[k].order < counter)
    && (forall k, l :: k in jobs && l in jobs && k != l ==> jobs[k].order != jobs[l].order)
  }

  /** An empty de-duplication key is no key. */
  predicate Deduplicates(j: Job) {
    j.dedupKey.Some? && j.dedupKey.value != ""
  }

  function DedupEntry(j: Job): Key
    requires j.dedupKey.Some?
  {
    Key(j.key.namespace, j.dedupKey.value)
  }

  /** A live job with a de-duplication key is the one its bucket names. */
  ghost predicate Named(j: Job, dedup: map<Key, string>) {
    (!Terminal(j.status) && Deduplicates(j)) ==>
      DedupEntry(j) in dedup && dedup[DedupEntry(j)] == j.key.id
  }

  ghost predicate LiveAreNamed(jobs: Provider, dedup: map<Key, string>) {
    forall k :: k in jobs ==> jobs[k].key == k && Named(jobs[k], dedup)
  }

  /** A bucket points at a job that carries its key. */
  ghost predicate BucketsTrue(jobs: Provider, dedup: map<Key, string>) {
    forall m :: m in dedup ==> CarriesDedup(jobs, Key(m.namespace, dedup[m]), m.id)
  }

  ghost predicate CarriesDedup(jobs: Provider, k: Key, dedupKey: string) {
    k in jobs && jobs[k].dedupKey == Some(dedupKey)
  }

  /** A recorded idempotency key points at a completed job that carries it. */
  ghost predicate RecordedAreCompleted(jobs: Provider, idem: map<Key, string>) {
    forall m :: m in idem ==> CompletedUnder(jobs, Key(m.namespace, idem[m]), m.id)
  }

  ghost predicate CompletedUnder(jobs: Provider, k: Key, idempotencyKey: string) {
    k in jobs && jobs[k].status.Completed? && jobs[k].idempotencyKey == Some(idempotencyKey)
  }

  /** Every completed job that carries an idempotency key has it recorded. */
  ghost predicate CompletedAreRecorded(jobs: Provider, idem: map<Key, string>) {
    forall k :: k in jobs && jobs[k].status.Completed? && jobs[k].idempotencyKey.Some? ==>
      Key(k.namespace, jobs[k].idempotencyKey.value) in idem
  }

  ghost predicate WellTimed(j: Job) {
    && ValidPolicy(j.policy)
    && (j.status.Scheduled? ==> j.scheduledTime.Some?)
    && (j.status.Retrying? ==> j.nextAttemptAt.Some?)
  }

  ghost predicate AllWellTimed(jobs: Provider) {
    forall k :: k in jobs ==> WellTimed(jobs[k])
  }

  ghost predicate Kept(b: Books) {
    && Indexed(b.provider, b.index)
    && Listed(b.provider, b.listed)
    && Numbered(b.provider, b.counter)
    && LiveAreNamed(b.provider, b.dedup)
    && BucketsTrue(b.provider, b.dedup)
    && RecordedAreCompleted(b.provider, b.idem)
    && CompletedAreRecorded(b.provider, b.idem)
    && AllWellTimed(b.provider)
  }

  /** At most one live job per namespace and de-duplication key. */
  lemma OneLiveJobPerKey(b: Books, k: Key, l: Key)
    requires Kept(b) && k in b.provider && l in b.provider
    requires !Terminal(b.provider[k].status) && !Terminal(b.provider[l].status)
    requires Deduplicates(b.provider[k]) && b.provider[l].dedupKey == b.provider[k].dedupKey
    requires k.namespace == l.namespace
    ensures k == l
  {
    assert Named(b.provider[k], b.dedup) && Named(b.provider[l], b.dedup);
    assert DedupEntry(b.provider[k]) == DedupEntry(b.provider[l]);
  }

  function Persisted(b: Books, j: Job): Books {
    b.(provider := b.provider[j.key := j],
       index := b.index[j.key := j.status],
       listed := if j.key in b.index then b.listed else b.listed + [j.key])
  }

  /** A live job may change its state as long as it stays the same job and its completion is recorded. */
  lemma PersistKeeps(b: Books, j: Job)
    requires Kept(b) && j.key in b.provider && SameJob(b.provider[j.key], j)
    requires !Terminal(b.provider[j.key].status) && WellTimed(j)
    requires j.status.Completed? && j.idempotencyKey.Some? ==> Key(j.key.namespace, j.idempotencyKey.value) in b.idem
    ensures Kept(Persisted(b, j))
  {
    UpdateKeepsNames(b.provider, b.dedup, j);
    UpdateKeepsRecords(b.provider, b.idem, j);
    UpdateKeepsNumbers(b.provider, b.counter, j);
    UpdateKeepsBuckets(b.provider, b.dedup, j);
    PersistKeepsIndex(b, j);
    UpdateKeepsCompletions(b.provider, b.idem, j);
    hide Indexed, Listed, Numbered, LiveAreNamed, BucketsTrue, RecordedAreCompleted, CompletedAreRecorded;
    hide SameJob, Terminal;
  }

  lemma PersistKeepsIndex(b: Books, j: Job)
    requires Indexed(b.provider, b.index) && Listed(b.provider, b.listed) && AllWellTimed(b.provider) && WellTimed(j)
    ensures var c := Persisted(b, j);
      Indexed(c.provider, c.index) && Listed(c.provider, c.listed) && AllWellTimed(c.provider)
  {
    assert j.key in b.index <==> j.key in b.provider;
    ListedUpdate(b.provider, b.listed, j);
    IndexedUpdate(b.provider, b.index, j);
    WellTimedUpdate(b.provider, j);
    hide Indexed, Listed, AllWellTimed, WellTimed;
  }

  lemma IndexedUpdate(jobs: Provider, index: map<Key, Status>, j: Job)
    requires Indexed(jobs, index)
    ensures Indexed(jobs[j.key := j], index[j.key := j.status])
  {
  }

  lemma WellTimedUpdate(jobs: Provider, j: Job)
    requires AllWellTimed(jobs) && WellTimed(j)
    ensures AllWellTimed(jobs[j.key := j])
  {
  }

  lemma ListedUpdate(jobs: Provider, listed: seq<Key>, j: Job)
    requires Listed(jobs, listed)
    ensures Listed(jobs[j.key := j], if j.key in jobs then listed else listed + [j.key])
  {
    var longer := if j.key in jobs then listed else listed + [j.key];
    forall k | k in jobs[j.key := j]
      ensures k in longer
    {
      assert k in jobs ==> k in listed;
    }
  }

  lemma UpdateKeepsNames(jobs: Provider, dedup: map<Key, string>, j: Job)
    requires LiveAreNamed(jobs, dedup) && j.key in jobs
    requires !Terminal(jobs[j.key].status) && SameJob(jobs[j.key], j)
    ensures LiveAreNamed(jobs[j.key := j], dedup)
  {
    assert Named(jobs[j.key], dedup);
  }

  lemma UpdateKeepsBuckets(jobs: Provider, dedup: map<Key, string>, j: Job)
    requires BucketsTrue(jobs, dedup)
    requires j.key in jobs ==> j.dedupKey == jobs[j.key].dedupKey
    ensures BucketsTrue(jobs[j.key := j], dedup)
  {
    forall m | m in dedup
      ensures CarriesDedup(jobs[j.key := j], Key(m.namespace, dedup[m]), m.id)
    {
      assert CarriesDedup(jobs, Key(m.namespace, dedup[m]), m.id);
    }
  }

  lemma UpdateKeepsRecords(jobs: Provider, idem: map<Key, string>, j: Job)
    requires RecordedAreCompleted(jobs, idem)
    requires j.key in jobs ==> !Terminal(jobs[j.key].status)
    ensures RecordedAreCompleted(jobs[j.key := j], idem)
  {
    forall m | m in idem
      ensures CompletedUnder(jobs[j.key := j], Key(m.namespace, idem[m]), m.id)
    {
      assert CompletedUnder(jobs, Key(m.namespace, idem[m]), m.id);
    }
  }

  lemma UpdateKeepsCompletions(jobs: Provider, idem: map<Key, string>, j: Job)
    requires CompletedAreRecorded(jobs, idem)
    requires j.status.Completed? && j.idempotencyKey.Some? ==> Key(j.key.namespace, j.idempotencyKey.value) in idem
    ensures CompletedAreRecorded(jobs[j.key := j], idem)
  {
  }

  lemma UpdateKeepsNumbers(jobs: Provider, counter: nat, j: Job)
    requires Numbered(jobs, counter) && j.key in jobs && SameJob(jobs[j.key], j)
    ensures Numbered(jobs[j.key := j], counter)
  {
  }

  /** A live job of the namespace that already has the de-duplication key. */
  ghost predicate Rival(jobs: Provider, namespace: string, dedupKey: Option<string>, k: Key) {
    && k in jobs && k.namespace == namespace
    && dedupKey.Some? && dedupKey.value != "" && jobs[k].dedupKey == dedupKey
    && !Terminal(jobs[k].status)
  }

  /** A new job is filed under its name, and its bucket points at it from then on. */
  function Added(b: Books, j: Job): Books {
    Persisted(b.(dedup := if Deduplicates(j) then b.dedup[DedupEntry(j) := j.key.id] else b.dedup), j)
  }

  lemma AddKeeps(b: Books, j: Job)
    requires Kept(b) && j.key !in b.provider && j.order == b.counter && WellTimed(j) && !j.status.Completed?
    requires forall k :: !Rival(b.provider, j.key.namespace, j.dedupKey, k)
    ensures Kept(Added(b, j).(counter := b.counter + 1))
  {
    AddKeepsNames(b.provider, b.dedup, j);
    UpdateKeepsRecords(b.provider, b.idem, j);
    var c := b.(dedup := if Deduplicates(j) then b.dedup[DedupEntry(j) := j.key.id] else b.dedup);
    PersistKeepsIndex(c, j);
    AddKeepsNumbers(b.provider, b.counter, j);
    AddKeepsBuckets(b.provider, b.dedup, j);
    UpdateKeepsCompletions(b.provider, b.idem, j);
    hide Indexed, Listed, Numbered, AllWellTimed, LiveAreNamed, BucketsTrue, RecordedAreCompleted, CompletedAreRecorded;
    hide WellTimed, Rival;
  }

  lemma AddKeepsNumbers(jobs: Provider, counter: nat, j: Job)
    requires Numbered(jobs, counter) && j.key !in jobs && j.order == counter
    ensures Numbered(jobs[j.key := j], counter + 1)
  {
  }

  lemma AddKeepsBuckets(jobs: Provider, dedup: map<Key, string>, j: Job)
    requires BucketsTrue(jobs, dedup) && j.key !in jobs
    ensures BucketsTrue(jobs[j.key := j], if Deduplicates(j) then dedup[DedupEntry(j) := j.key.id] else dedup)
  {
    UpdateKeepsBuckets(jobs, dedup, j);
    var more := jobs[j.key := j];
    if Deduplicates(j) {
      forall m | m in dedup[DedupEntry(j) := j.key.id]
        ensures CarriesDedup(more, Key(m.namespace, dedup[DedupEntry(j) := j.key.id][m]), m.id)
      {
        if m == DedupEntry(j) {
          assert Key(m.namespace, j.key.id) == j.key;
        } else {
          assert CarriesDedup(more, Key(m.namespace, dedup[m]), m.id);
        }
      }
    }
  }

  lemma AddKeepsNames(jobs: Provider, dedup: map<Key, string>, j: Job)
    requires LiveAreNamed(jobs, dedup) && j.key !in jobs
    requires forall k :: !Rival(jobs, j.key.namespace, j.dedupKey, k)
    ensures LiveAreNamed(jobs[j.key := j], if Deduplicates(j) then dedup[DedupEntry(j) := j.key.id] else dedup)
  {
    var names := if Deduplicates(j) then dedup[DedupEntry(j) := j.key.id] else dedup;
    forall k | k in jobs
      ensures Named(jobs[k], names)
    {
      assert Named(jobs[k], dedup) && !Rival(jobs, j.key.namespace, j.dedupKey, k);
    }
  }

  /** The records once a job has come to its end: a completion is recorded under its idempotency key. */
  function Recorded(idem: map<Key, string>, j: Job): map<Key, string> {
    if j.status.Completed? && j.idempotencyKey.Some? then idem[Key(j.key.namespace, j.idempotencyKey.value) := j.key.id]
    else idem
  }

  /** Ending a job and recording its idempotency key, in one step of the books. */
  lemma CompleteKeeps(b: Books, j: Job)
    requires Kept(b) && j.key in b.provider && SameJob(b.provider[j.key], j) && WellTimed(j)
    requires !Terminal(b.provider[j.key].status)
    ensures Kept(Persisted(b.(idem := Recorded(b.idem, j)), j))
  {
    if j.status.Completed? && j.idempotencyKey.Some? {
      RecordKeeps(b.provider, b.idem, j);
      UpdateKeepsNames(b.provider, b.dedup, j);
      UpdateKeepsNumbers(b.provider, b.counter, j);
      UpdateKeepsBuckets(b.provider, b.dedup, j);
      PersistKeepsIndex(b, j);
    } else {
      PersistKeeps(b, j);
    }
    hide Indexed, Listed, Numbered, LiveAreNamed, BucketsTrue, AllWellTimed, RecordedAreCompleted, CompletedAreRecorded;
    hide SameJob, Terminal, WellTimed;
  }

  lemma RecordKeeps(jobs: Provider, idem: map<Key, string>, j: Job)
    requires RecordedAreCompleted(jobs, idem) && CompletedAreRecorded(jobs, idem)
    requires j.key in jobs && !Terminal(jobs[j.key].status) && j.status.Completed? && j.idempotencyKey.Some?
    ensures RecordedAreCompleted(jobs[j.key := j], Recorded(idem, j))
    ensures CompletedAreRecorded(jobs[j.key := j], Recorded(idem, j))
  {
    var after := Recorded(idem, j);
    forall m | m in after
      ensures CompletedUnder(jobs[j.key := j], Key(m.namespace, after[m]), m.id)
    {
      if m == Key(j.key.namespace, j.idempotencyKey.value) {
        assert Key(m.namespace, after[m]) == j.key;
      } else {
        assert CompletedUnder(jobs, Key(m.namespace, idem[m]), m.id);
      }
    }
  }

  /** Under a kept book an idempotency key is recorded exactly when some completed job carries it. */
  lemma RecordedExactly(b: Books, namespace: string, idempotencyKey: string)
    requires Kept(b)
    ensures IdempotencyRecorded(b, namespace, Some(idempotencyKey)) <==>
      exists k: Key :: k.namespace == namespace && CompletedUnder(b.provider, k, idempotencyKey)
  {
    var m := Key(namespace, idempotencyKey);
    if m in b.idem {
      assert CompletedUnder(b.provider, Key(namespace, b.idem[m]), idempotencyKey);
    }
    hide Indexed, Listed, Numbered, LiveAreNamed, BucketsTrue, AllWellTimed;
  }

  type World = (Key, nat) -> Outcome

  function Run(j: Job, now: Time, handled: set<string>, w: World): Job {
    Executed(j, now, j.kind in handled, w(j.key, j.attempts + 1))
  }

  lemma CounterKeeps(b: Books)
    requires Kept(b)
    ensures Kept(b.(counter := b.counter + 1))
  {
    hide Indexed, Listed, LiveAreNamed, BucketsTrue, RecordedAreCompleted, CompletedAreRecorded, AllWellTimed;
  }

  lemma KeptIsIndexed(b: Books, k: Key)
    requires Kept(b) && k in b.provider
    ensures k in b.index && b.provider[k].key == k && WellTimed(b.provider[k])
  {
    hide Listed, Numbered, LiveAreNamed, BucketsTrue, RecordedAreCompleted, CompletedAreRecorded;
  }

  lemma FailedStays(j: Job, now: Time)
    requires WellTimed(j)
    ensures SameJob(j, Failed(j, now)) && WellTimed(Failed(j, now))
  {
  }

  /** An execution changes the state of a job, never its identity. */
  lemma RunStays(j: Job, now: Time, handled: set<string>, w: World)
    requires WellTimed(j)
    ensures SameJob(j, MarkRunning(j, now)) && WellTimed(MarkRunning(j, now))
    ensures var done := Run(j, now, handled, w);
      && SameJob(MarkRunning(j, now), done) && WellTimed(done)
      && done == if j.kind in handled then Concluded(MarkRunning(j, now), w(j.key, j.attempts + 1))
        else Failed(MarkRunning(j, now), now)
  {
  }

  // ---- creation --------------------------------------------------------------------------------

  ghost predicate IdempotencyRecorded(b: Books, namespace: string, idempotencyKey: Option<string>) {
    idempotencyKey.Some? && Key(namespace, idempotencyKey.value) in b.idem
  }

  /**
   What creating a job answers and does to the books: refusals change nothing, a recorded
   idempotency key returns its completed job and changes nothing, a live rival is returned
   and only a number is used up, and otherwise the new job is filed.
   */
  ghost predicate CreatedRight(handlers: map<string, Defaults>, b: Books, c: Books, spec: Spec, key: Key,
                               status: Status, r: Result<Job, Error>)
  {
    if spec.kind == "" then r == Err(TypeRequired) && c == b
    else if spec.kind !in handlers then r == Err(NoHandler) && c == b
    else if IdempotencyRecorded(b, key.namespace, spec.idempotencyKey) then
      && r.Ok? && c == b && r.value.key.namespace == key.namespace
      && CompletedUnder(b.provider, r.value.key, spec.idempotencyKey.value) && b.provider[r.value.key] == r.value
    else
      var j := NewJob(handlers[spec.kind], spec, key, b.counter, status);
      if !ValidPolicy(j.policy) then r == Err(InvalidPolicy) && c == b.(counter := b.counter + 1)
      else if exists k :: Rival(b.provider, key.namespace, spec.dedupKey, k) then
        && r.Ok? && c == b.(counter := b.counter + 1)
        && Rival(b.provider, key.namespace, spec.dedupKey, r.value.key) && b.provider[r.value.key] == r.value
      else r == Ok(j) && c == Added(b, j).(counter := b.counter + 1)
  }

  /** What the checks find: an error, the completed job of the key, a bad policy, a live rival, or nothing. */
  datatype Verdict =
    | Turned(error: Error)
    | Recalled(job: Job)
    | Invalid
    | Rivalled(job: Job)
    | Fresh(job: Job)
  {
    /** A number has been used up. */
    predicate Numbered() {
      Invalid? || Rivalled? || Fresh?
    }
  }

  ghost predicate VerdictRight(handlers: map<string, Defaults>, b: Books, spec: Spec, key: Key, status: Status,
      v: Verdict) {
    if v.Turned? then
      (spec.kind == "" && v.error.TypeRequired?) || (spec.kind != "" && spec.kind !in handlers && v.error.NoHandler?)
    else
      && spec.kind != "" && spec.kind in handlers
      && (v.Recalled? <==> IdempotencyRecorded(b, key.namespace, spec.idempotencyKey))
      && (v.Recalled? ==>
        && v.job.key.namespace == key.namespace
        && CompletedUnder(b.provider, v.job.key, spec.idempotencyKey.value) && b.provider[v.job.key] == v.job)
      && (!v.Recalled? ==>
        var j := NewJob(handlers[spec.kind], spec, key, b.counter, status);
        && (v.Invalid? <==> !ValidPolicy(j.policy))
        && (v.Rivalled? ==>
          Rival(b.provider, key.namespace, spec.dedupKey, v.job.key) && b.provider[v.job.key] == v.job)
        && (v.Fresh? ==> v.job == j && forall k :: !Rival(b.provider, key.namespace, spec.dedupKey, k)))
  }

  /** The books once the verdict has been carried out. */
  function Settled(b: Books, v: Verdict): Books {
    match v
    case Turned(_) => b
    case Recalled(_) => b
    case Invalid => b.(counter := b.counter + 1)
    case Rivalled(_) => b.(counter := b.counter + 1)
    case Fresh(j) => Added(b, j).(counter := b.counter + 1)
  }

  function Answer(v: Verdict): Result<Job, Error> {
    match v
    case Turned(error) => Err(error)
    case Invalid => Err(InvalidPolicy)
    case Recalled(j) => Ok(j)
    case Rivalled(j) => Ok(j)
    case Fresh(j) => Ok(j)
  }

  lemma VerdictIsRight(handlers: map<string, Defaults>, b: Books, spec: Spec, key: Key,
      status: Status, v: Verdict)
    requires Kept(b) && key !in b.provider && (status.Queued? || (status.Scheduled? && spec.scheduledTime.Some?))
    requires VerdictRight(handlers, b, spec, key, status, v)
    ensures CreatedRight(handlers, b, Settled(b, v), spec, key, status, Answer(v)) && Kept(Settled(b, v))
  {
    hide CreatedRight;
    VerdictKeeps(handlers, b, spec, key, status, v);
    if v.Fresh? {
      FreshIsRight(handlers, b, spec, key, status, v);
    } else {
      RefusalIsRight(handlers, b, spec, key, status, v);
    }
    hide *;
  }

  lemma VerdictKeeps(handlers: map<string, Defaults>, b: Books, spec: Spec, key: Key,
      status: Status, v: Verdict)
    requires Kept(b) && key !in b.provider && (status.Queued? || (status.Scheduled? && spec.scheduledTime.Some?))
    requires VerdictRight(handlers, b, spec, key, status, v)
    ensures Kept(Settled(b, v))
  {
    CounterKeeps(b);
    hide Kept;
    if v.Fresh? {
      AddKeeps(b, v.job);
    }
  }

  lemma RefusalIsRight(handlers: map<string, Defaults>, b: Books, spec: Spec, key: Key,
      status: Status, v: Verdict)
    requires VerdictRight(handlers, b, spec, key, status, v) && !v.Fresh?
    ensures CreatedRight(handlers, b, Settled(b, v), spec, key, status, Answer(v))
  {
    hide Rival, IdempotencyRecorded, CompletedUnder, Added;
  }

  lemma FreshIsRight(handlers: map<string, Defaults>, b: Books, spec: Spec, key: Key,
      status: Status, v: Verdict)
    requires VerdictRight(handlers, b, spec, key, status, v) && v.Fresh?
    ensures CreatedRight(handlers, b, Settled(b, v), spec, key, status, Answer(v))
  {
    hide Added, Rival, IdempotencyRecorded, CompletedUnder;
  }

  // ---- what a caller can rely on --------------------------------------------------------------------

  /** Work that has been done under an idempotency key is not filed again: its completed job is the answer. */
  lemma DoneWorkIsRecalled(handlers: map<string, Defaults>, b: Books, c: Books, spec: Spec, key: Key, status: Status,
                           r: Result<Job, Error>, k: Key)
    requires Kept(b) && CreatedRight(handlers, b, c, spec, key, status, r)
    requires spec.kind != "" && spec.kind in handlers && spec.idempotencyKey.Some?
    requires k.namespace == key.namespace && CompletedUnder(b.provider, k, spec.idempotencyKey.value)
    ensures c == b && r.Ok? && r.value.key.namespace == key.namespace
    ensures CompletedUnder(b.provider, r.value.key, spec.idempotencyKey.value) && b.provider[r.value.key] == r.value
  {
    RecordedExactly(b, key.namespace, spec.idempotencyKey.value);
    hide Kept;
  }

  /** A new job is filed exactly if its spec is sound and neither its work is done nor a live job stands for it. */
  lemma FiledExactly(handlers: map<string, Defaults>, b: Books, c: Books, spec: Spec, key: Key, status: Status,
                     r: Result<Job, Error>)
    requires Kept(b) && key !in b.provider && CreatedRight(handlers, b, c, spec, key, status, r)
    ensures key in c.provider <==>
      && spec.kind != "" && spec.kind in handlers
      && (spec.idempotencyKey.Some? ==> forall k: Key ::
        !(k.namespace == key.namespace && CompletedUnder(b.provider, k, spec.idempotencyKey.value)))
      && ValidPolicy(NewJob(handlers[spec.kind], spec, key, b.counter, status).policy)
      && (forall k :: !Rival(b.provider, key.namespace, spec.dedupKey, k))
    ensures key in c.provider ==> r == Ok(c.provider[key])
    ensures key !in c.provider ==> c.provider == b.provider
  {
    if spec.idempotencyKey.Some? {
      RecordedExactly(b, key.namespace, spec.idempotencyKey.value);
    }
    if spec.kind in handlers {
      AddedIsFiled(b, NewJob(handlers[spec.kind], spec, key, b.counter, status));
      assert NewJob(handlers[spec.kind], spec, key, b.counter, status).key == key;
    }
    hide Kept, Rival, CompletedUnder, Added, NewJob, ValidPolicy;
  }

  lemma AddedIsFiled(b: Books, j: Job)
    ensures Added(b, j).provider == b.provider[j.key := j]
  {
  }

  /** While a filed job lives, another request with its de-duplication key is answered with that very job. */
  lemma LiveWorkIsNotFiledTwice(handlers: map<string, Defaults>, b: Books, c: Books, spec: Spec, key: Key,
                                status: Status, r: Result<Job, Error>, k: Key)
    requires Kept(b) && CreatedRight(handlers, b, c, spec, key, status, r)
    requires spec.kind != "" && spec.kind in handlers
    requires spec.idempotencyKey.None? && ValidPolicy(NewJob(handlers[spec.kind], spec, key, b.counter, status).policy)
    requires spec.dedupKey.Some? && spec.dedupKey.value != ""
    requires k in b.provider && k.namespace == key.namespace && b.provider[k].dedupKey == spec.dedupKey
    requires !Terminal(b.provider[k].status)
    ensures r == Ok(b.provider[k]) && c.provider == b.provider
  {
    assert Rival(b.provider, key.namespace, spec.dedupKey, k);
    OneLiveJobPerKey(b, k, r.value.key);
    KeysAreOwn(b);
    hide Kept;
  }

  /** No pending job is forgotten: each is due from some time on, and its policy is valid. */
  lemma PendingJobsComeDue(b: Books, k: Key) returns (from: Time)
    requires Kept(b) && k in b.provider && Pending(b.provider[k].status)
    ensures ValidPolicy(b.provider[k].policy) && forall now :: now >= from ==> Ready(b.provider[k], now)
  {
    KeptIsIndexed(b, k);
    hide Kept;
    from := DueFromThenOn(b.provider[k]);
  }

  /** A filed job carries the keys it was asked for under. */
  lemma FiledUnderItsKeys(handlers: map<string, Defaults>, b: Books, c: Books, spec: Spec, key: Key, status: Status,
                          r: Result<Job, Error>)
    requires Kept(b) && key !in b.provider && CreatedRight(handlers, b, c, spec, key, status, r) && key in c.provider
    ensures var j := c.provider[key];
      && j.key == key && j.kind == spec.kind && j.status == status && j.attempts == 0 && j.order == b.counter
      && j.dedupKey == spec.dedupKey && j.idempotencyKey == spec.idempotencyKey
    ensures c.counter > b.counter
    ensures forall k :: k in b.provider ==> k in c.provider && c.provider[k] == b.provider[k]
  {
    FiledExactly(handlers, b, c, spec, key, status, r);
    hide Kept, Rival, CompletedUnder;
  }

  /** The timeout a spec asks for: its own, else its type's, else none. */
  function AskedTimeout(d: Defaults, spec: Spec): Option<Time> {
    match spec.timeout
    case Some(t) => Some(t)
    case None => d.timeout
  }

  function AskedPriority(d: Defaults, spec: Spec): real {
    match (spec.priority, d.priority)
    case (Some(p), _) => p
    case (None, Some(p)) => p
    case (None, None) => 0.0
  }

  /** The retry policy a spec asks for; without one failures are retried at once. */
  function AskedPolicy(d: Defaults, spec: Spec): RetryPolicy {
    match (spec.policy, d.policy)
    case (Some(p), _) => p
    case (None, Some(p)) => p
    case (None, None) => RetryPolicy(AskedAttempts(d, spec), 0.0, 1.0, 0.0)
  }

  /** A new job has the time it was asked to have: it completes exactly within that timeout. */
  lemma AskedTimeoutHolds(d: Defaults, spec: Spec, key: Key, order: nat, status: Status, start: Time, at: Time)
    ensures Executed(NewJob(d, spec, key, order, status), start, true, Returned(at)).status.Completed? <==>
      AskedTimeout(d, spec).None? || at - start <= AskedTimeout(d, spec).value
  {
  }

  /** It runs before another new job exactly if it was asked to, or is as urgent and older. */
  lemma AskedPriorityDecides(d: Defaults, spec: Spec, key: Key, order: nat, status: Status,
                             d': Defaults, spec': Spec, key': Key, order': nat, status': Status)
    ensures Precedes(NewJob(d, spec, key, order, status), NewJob(d', spec', key', order', status')) <==>
      AskedPriority(d, spec) > AskedPriority(d', spec')
      || (AskedPriority(d, spec) == AskedPriority(d', spec') && order < order')
  {
  }

  /** It is due from the time it was asked for on, and at once without one. */
  lemma AskedTimeDecides(d: Defaults, spec: Spec, key: Key, order: nat, status: Status, now: Time)
    requires status.Queued? || (status.Scheduled? && spec.scheduledTime.Some?)
    ensures Ready(NewJob(d, spec, key, order, status), now) <==>
      spec.scheduledTime.None? || now >= spec.scheduledTime.value
  {
  }

  /** A first failure is retried exactly as the policy it was asked to have says. */
  lemma AskedPolicyDecides(d: Defaults, spec: Spec, key: Key, order: nat, status: Status, start: Time, at: Time,
                           now: Time)
    ensures Ready(Executed(NewJob(d, spec, key, order, status), start, true, Threw(at)), now) <==>
      1 < AskedPolicy(d, spec).maxAttempts && now >= at + NextDelay(AskedPolicy(d, spec), 1)
  {
  }

  // ---- the tick -----------------------------------------------------------------------------------

  /** What one tick does to a job: recover it, and execute it if it is due then. */
  function Ticked(j: Job, now: Time, handled: set<string>, w: World): Job {
    var r := Recovered(j, now);
    if Ready(r, now) then Run(r, now, handled, w) else r
  }

  /** How many of these executions end in the given status. */
  function CountEnding(due: seq<Job>, now: Time, handled: set<string>, w: World, status: Status): nat {
    if due == [] then 0
    else
      var last := |due| - 1;
      CountEnding(due[..last], now, handled, w, status)
      + if Run(due[last], now, handled, w).status == status then 1 else 0
  }

  /** The counts of the first `n` executions. */
  ghost predicate Counted(due: seq<Job>, n: nat, now: Time, handled: set<string>, w: World,
                          completed: nat, retried: nat, deadLetter: nat)
  {
    && n <= |due|
    && completed == CountEnding(due[..n], now, handled, w, Completed)
    && retried == CountEnding(due[..n], now, handled, w, Retrying)
    && deadLetter == CountEnding(due[..n], now, handled, w, DeadLetter)
  }

  lemma CountStep(due: seq<Job>, n: nat, now: Time, handled: set<string>, w: World, status: Status,
                  completed: nat, retried: nat, deadLetter: nat)
    requires n < |due| && Counted(due, n, now, handled, w, completed, retried, deadLetter)
    requires status == Run(due[n], now, handled, w).status
    ensures Counted(due, n + 1, now, handled, w, completed + (if status.Completed? then 1 else 0),
                    retried + (if status.Retrying? then 1 else 0), deadLetter + (if status.DeadLetter? then 1 else 0))
  {
    hide Run;
    assert due[..n + 1][..n] == due[..n];
  }

  /** Every execution completes, is to be retried, or is dead-lettered. */
  lemma {:induction false} EndingsAddUp(due: seq<Job>, now: Time, handled: set<string>, w: World)
    ensures CountEnding(due, now, handled, w, Completed) + CountEnding(due, now, handled, w, Retrying)
      + CountEnding(due, now, handled, w, DeadLetter) == |due|
  {
    if due != [] {
      EndingsAddUp(due[..|due| - 1], now, handled, w);
    }
  }

  ghost predicate InOrder(due: seq<Job>) {
    forall a, b :: 0 <= a < b < |due| ==> Precedes(due[a], due[b])
  }

  /** Due jobs have numbers of their own, so the order among them is total. */
  ghost predicate DistinctOrders(due: seq<Job>) {
    forall a, b :: 0 <= a < b < |due| ==> due[a].order != due[b].order
  }

  method InsertDue(sorted: seq<Job>, j: Job) returns (r: seq<Job>)
    requires InOrder(sorted)
    requires forall a :: 0 <= a < |sorted| ==> sorted[a].order != j.order
    ensures InOrder(r) && multiset(r) == multiset(sorted) + multiset{j}
  {
    var at := |sorted|;
    while at > 0 && Precedes(j, sorted[at - 1])
      invariant 0 <= at <= |sorted|
      invariant forall a :: at <= a < |sorted| ==> Precedes(j, sorted[a])
    {
      at := at - 1;
    }
    assert forall a :: 0 <= a < at ==> Precedes(sorted[a], j) by {
      assert at > 0 ==> Precedes(sorted[at - 1], j);
    }
    InsertedInOrder(sorted, at, j);
    r := sorted[..at] + [j] + sorted[at..];
  }

  lemma InsertedInOrder(sorted: seq<Job>, at: nat, j: Job)
    requires InOrder(sorted) && at <= |sorted|
    requires forall a :: 0 <= a < at ==> Precedes(sorted[a], j)
    requires forall a :: at <= a < |sorted| ==> Precedes(j, sorted[a])
    ensures InOrder(sorted[..at] + [j] + sorted[at..])
    ensures multiset(sorted[..at] + [j] + sorted[at..]) == multiset(sorted) + multiset{j}
  {
    assert sorted == sorted[..at] + sorted[at..];
    hide Precedes;
    var r := sorted[..at] + [j] + sorted[at..];
    forall a, b | 0 <= a < b < |r|
      ensures Precedes(r[a], r[b])
    {
      var a', b' := if a < at then a else a - 1, if b < at then b else b - 1;
      assert a != at ==> r[a] == sorted[a'];
      assert b != at ==> r[b] == sorted[b'];
    }
  }

  /** Sorted by priority, then by age; the same jobs. */
  method SortDue(due: seq<Job>) returns (sorted: seq<Job>)
    requires DistinctOrders(due)
    ensures InOrder(sorted) && multiset(sorted) == multiset(due)
  {
    sorted := [];
    for i := 0 to |due|
      invariant InOrder(sorted) && multiset(sorted) == multiset(due[..i])
    {
      forall a | 0 <= a < |sorted|
        ensures sorted[a].order != due[i].order
      {
        assert sorted[a] in multiset(sorted);
        assert sorted[a] in due[..i];
      }
      sorted := InsertDue(sorted, due[i]);
      assert due[..i + 1] == due[..i] + [due[i]];
    }
    assert due[..|due|] == due;
  }

  // ---- ticks in a row --------------------------------------------------------------------------------

  datatype Tick = Tick(now: Time, w: World)

  function AfterTicks(j: Job, ticks: seq<Tick>, handled: set<string>): Job {
    if ticks == [] then j
    else
      var last := ticks[|ticks| - 1];
      Ticked(AfterTicks(j, ticks[..|ticks| - 1], handled), last.now, handled, last.w)
  }

  /** Each tick comes late enough for the job, if it is still pending by then. */
  ghost predicate Late(j: Job, ticks: seq<Tick>, handled: set<string>) {
    forall i :: 0 <= i < |ticks| && Pending(AfterTicks(j, ticks[..i], handled).status)
      ==> Ready(AfterTicks(j, ticks[..i], handled), ticks[i].now)
  }

  /** No tick touches a job that is over; in particular a completed one stays completed. */
  lemma {:induction false} OverForGood(j: Job, ticks: seq<Tick>, handled: set<string>)
    requires Terminal(j.status)
    ensures AfterTicks(j, ticks, handled) == j
  {
    if ticks != [] {
      OverForGood(j, ticks[..|ticks| - 1], handled);
    }
  }

  lemma LateTickUsesAttempt(j: Job, now: Time, handled: set<string>, w: World)
    requires Ready(j, now)
    ensures var r := Ticked(j, now, handled, w);
      && r.policy == j.policy
      && (Terminal(r.status)
        || (r.status.Retrying? && r.attempts == j.attempts + 1 && r.attempts < r.policy.maxAttempts))
  {
  }

  /** After `n` late ticks a job is over, or has used up `n` attempts and may try again. */
  lemma {:induction false} LateTicksUseAttempts(j: Job, ticks: seq<Tick>, handled: set<string>)
    requires Pending(j.status) && Late(j, ticks, handled)
    ensures var r := AfterTicks(j, ticks, handled);
      && r.policy == j.policy
      && (Terminal(r.status) || (Pending(r.status) && r.attempts == j.attempts + |ticks|))
      && (|ticks| > 0 && !Terminal(r.status) ==> r.attempts < r.policy.maxAttempts)
  {
    hide Ready, Ticked;
    if ticks != [] {
      var init, last := ticks[..|ticks| - 1], ticks[|ticks| - 1];
      assert forall i :: 0 <= i < |init| ==> ticks[..i] == init[..i];
      LateTicksUseAttempts(j, init, handled);
      var r := AfterTicks(j, init, handled);
      if Terminal(r.status) {
        OverForGood(r, [last], handled);
        assert [last][..0] == [];
        assert AfterTicks(r, [last], handled) == Ticked(r, last.now, handled, last.w);
      } else {
        LateTickUsesAttempt(r, last.now, handled, last.w);
      }
    }
  }

  /** With at most `bound` attempts allowed, `bound` late ticks complete or dead-letter every pending job. */
  lemma EveryJobEnds(j: Job, ticks: seq<Tick>, handled: set<string>, bound: nat)
    requires Pending(j.status) && Late(j, ticks, handled)
    requires 1 <= bound <= |ticks| && j.policy.maxAttempts <= bound
    ensures var r := AfterTicks(j, ticks, handled);
      r.status.Completed? || r.status.DeadLetter?
  {
    LateTicksUseAttempts(j, ticks, handled);
    NeverCancelledByTicks(j, ticks, handled);
  }

  /** A job is dead-lettered only once all its attempts are used, and never makes more. */
  lemma {:induction false} GivenUpOnlyAtTheEnd(j: Job, ticks: seq<Tick>, handled: set<string>)
    requires Pending(j.status) && j.attempts < j.policy.maxAttempts
    ensures var r := AfterTicks(j, ticks, handled);
      && r.policy == j.policy && !r.status.Running?
      && r.attempts <= r.policy.maxAttempts
      && (Pending(r.status) ==> r.attempts < r.policy.maxAttempts)
      && (r.status.DeadLetter? ==> r.attempts == r.policy.maxAttempts)
  {
    if ticks != [] {
      GivenUpOnlyAtTheEnd(j, ticks[..|ticks| - 1], handled);
    }
  }

  /** The number of attempts a spec asks for: its own, else its type's, else one. */
  function AskedAttempts(d: Defaults, spec: Spec): int {
    match (spec.maxAttempts, d.maxAttempts)
    case (Some(n), _) => n
    case (None, Some(n)) => n
    case (None, None) => 1
  }

  /**
   Without a retry policy, a new job is over after as many late ticks as attempts were asked
   for, the spec's number winning over its type's; it is given up after exactly that many.
   */
  lemma AsManyAttemptsAsAsked(d: Defaults, spec: Spec, key: Key, order: nat, status: Status,
                              ticks: seq<Tick>, handled: set<string>)
    requires spec.policy.None? && d.policy.None? && AskedAttempts(d, spec) >= 1 && Pending(status)
    requires Late(NewJob(d, spec, key, order, status), ticks, handled)
    ensures var n, r := AskedAttempts(d, spec), AfterTicks(NewJob(d, spec, key, order, status), ticks, handled);
      && r.attempts <= n
      && (|ticks| >= n ==> r.status.Completed? || r.status.DeadLetter?)
      && (r.status.DeadLetter? ==> r.attempts == n)
  {
    var j := NewJob(d, spec, key, order, status);
    GivenUpOnlyAtTheEnd(j, ticks, handled);
    if |ticks| >= AskedAttempts(d, spec) {
      EveryJobEnds(j, ticks, handled, AskedAttempts(d, spec));
    }
  }

  lemma {:induction false} NeverCancelledByTicks(j: Job, ticks: seq<Tick>, handled: set<string>)
    requires !j.status.Cancelled?
    ensures !AfterTicks(j, ticks, handled).status.Cancelled?
  {
    if ticks != [] {
      NeverCancelledByTicks(j, ticks[..|ticks| - 1], handled);
    }
  }

  lemma AfterOneMore(j: Job, ticks: seq<Tick>, n: nat, handled: set<string>)
    requires n < |ticks|
    ensures AfterTicks(j, ticks[..n + 1], handled)
      == Ticked(AfterTicks(j, ticks[..n], handled), ticks[n].now, handled, ticks[n].w)
  {
    assert ticks[..n + 1][..n] == ticks[..n];
  }

  /** Every pending job allows at most `bound` attempts and finds each tick late enough. */
  ghost predicate AllEndWithin(jobs: Provider, ticks: seq<Tick>, handled: set<string>, bound: nat) {
    forall k :: k in jobs && Pending(jobs[k].status) ==>
      jobs[k].policy.maxAttempts <= bound && Late(jobs[k], ticks, handled)
  }

  /** Every job is where the first `n` ticks take it. */
  ghost predicate TickedTo(was: Provider, jobs: Provider, ticks: seq<Tick>, n: nat, handled: set<string>) {
    && n <= |ticks| && jobs.Keys == was.Keys
    && forall k :: k in jobs ==> jobs[k] == AfterTicks(was[k], ticks[..n], handled)
  }

  lemma TickedOnce(was: Provider, before: Provider, jobs: Provider, ticks: seq<Tick>, n: nat,
      handled: set<string>)
    requires n < |ticks| && TickedTo(was, before, ticks, n, handled) && jobs.Keys == before.Keys
    requires forall k :: k in jobs ==> jobs[k] == Ticked(before[k], ticks[n].now, handled, ticks[n].w)
    ensures TickedTo(was, jobs, ticks, n + 1, handled)
  {
    forall k | k in jobs
      ensures jobs[k] == AfterTicks(was[k], ticks[..n + 1], handled)
    {
      AfterOneMore(was[k], ticks, n, handled);
    }
  }

  lemma AllEnd(jobs: Provider, ticks: seq<Tick>, handled: set<string>, bound: nat)
    requires 1 <= bound <= |ticks| && AllEndWithin(jobs, ticks, handled, bound)
    ensures forall k :: k in jobs && Pending(jobs[k].status) ==>
      var r := AfterTicks(jobs[k], ticks, handled);
      r.status.Completed? || r.status.DeadLetter?
  {
    forall k | k in jobs && Pending(jobs[k].status)
      ensures var r := AfterTicks(jobs[k], ticks, handled);
        r.status.Completed? || r.status.DeadLetter?
    {
      EveryJobEnds(jobs[k], ticks, handled, bound);
    }
  }

  // ---- one pass over the index ------------------------------------------------------------------------

  ghost predicate RecoveredUpTo(was: Provider, jobs: Provider, listed: seq<Key>, n: nat, now: Time) {
    && n <= |listed|
    && jobs.Keys == was.Keys
    && (forall m :: 0 <= m < |listed| ==> listed[m] in was)
    && (forall m :: 0 <= m < n ==> jobs[listed[m]] == Recovered(was[listed[m]], now))
    && (forall m :: n <= m < |listed| ==> jobs[listed[m]] == was[listed[m]])
  }

  /** The pass has come to `n`, having found `count` timed-out jobs. */
  ghost predicate Passed(was: Provider, jobs: Provider, listed: seq<Key>, n: nat, now: Time, count: nat) {
    RecoveredUpTo(was, jobs, listed, n, now) && count == CountTimedOut(was, listed[..n], now)
  }

  predicate Stuck(j: Job, now: Time) {
    j.status.Running? && TimedOut(j, now)
  }

  /** How many of the listed jobs have been running for longer than their timeout. */
  function CountTimedOut(jobs: Provider, listed: seq<Key>, now: Time): nat {
    if listed == [] then 0
    else
      var last := listed[|listed| - 1];
      CountTimedOut(jobs, listed[..|listed| - 1], now) + if last in jobs && Stuck(jobs[last], now) then 1 else 0
  }

  /** The jobs that a recovery pass takes out of the running state. */
  ghost function GivenUp(jobs: Provider, among: set<Key>, now: Time): set<Key> {
    set k | k in jobs && k in among && jobs[k].status.Running? && !Recovered(jobs[k], now).status.Running?
  }

  lemma {:induction false} TimedOutCounts(jobs: Provider, listed: seq<Key>, now: Time)
    requires forall i, j :: 0 <= i < j < |listed| ==> listed[i] != listed[j]
    ensures CountTimedOut(jobs, listed, now) == |GivenUp(jobs, (set k | k in listed), now)|
  {
    var all := set k | k in listed;
    if listed == [] {
      assert GivenUp(jobs, all, now) == {};
    } else {
      var init, last := listed[..|listed| - 1], listed[|listed| - 1];
      TimedOutCounts(jobs, init, now);
      assert listed == init + [last];
      var before := set k | k in init;
      assert all == before + {last} && last !in before;
      OneMoreGivenUp(jobs, before, last, now);
      hide GivenUp, Stuck;
    }
  }

  lemma OneMoreGivenUp(jobs: Provider, among: set<Key>, k: Key, now: Time)
    requires k !in among
    ensures |GivenUp(jobs, among + {k}, now)|
      == |GivenUp(jobs, among, now)| + if k in jobs && Stuck(jobs[k], now) then 1 else 0
  {
    var before := GivenUp(jobs, among, now);
    if k in jobs && Stuck(jobs[k], now) {
      assert GivenUp(jobs, among + {k}, now) == before + {k};
    } else {
      assert GivenUp(jobs, among + {k}, now) == before;
    }
  }

  /** A summary counts as timed out exactly the jobs its recovery pass took out of the running state. */
  lemma TimedOutAreGivenUp(b: Books, now: Time)
    requires Kept(b)
    ensures CountTimedOut(b.provider, b.listed, now) == |GivenUp(b.provider, b.provider.Keys, now)|
  {
    TimedOutCounts(b.provider, b.listed, now);
    assert (set k | k in b.listed) == b.provider.Keys;
  }

  lemma NothingRecovered(was: Provider, listed: seq<Key>, now: Time)
    requires Listed(was, listed)
    ensures Passed(was, was, listed, 0, now, 0)
  {
  }

  lemma RecoverStep(was: Provider, jobs: Provider, listed: seq<Key>, n: nat, now: Time, count: nat)
    requires Listed(was, listed) && Passed(was, jobs, listed, n, now, count) && n < |listed|
    ensures listed[n] in jobs
    ensures var more := jobs[listed[n] := Recovered(jobs[listed[n]], now)];
      Passed(was, more, listed, n + 1, now, count + if Stuck(jobs[listed[n]], now) then 1 else 0)
  {
    hide Recovered, Stuck;
    assert listed[..n + 1][..n] == listed[..n];
  }

  lemma AllRecovered(was: Provider, jobs: Provider, listed: seq<Key>, now: Time, count: nat)
    requires Listed(was, listed) && Passed(was, jobs, listed, |listed|, now, count)
    ensures jobs.Keys == was.Keys && forall k :: k in jobs ==> jobs[k] == Recovered(was[k], now)
    ensures count == CountTimedOut(was, listed, now)
  {
    hide Recovered;
    assert listed[..|listed|] == listed;
  }

  function RecoveredAll(jobs: Provider, now: Time): Provider {
    map k | k in jobs :: Recovered(jobs[k], now)
  }

  /** `due` lists exactly the jobs that are ready. */
  ghost predicate DueJobs(jobs: Provider, due: seq<Job>, now: Time) {
    && (forall a :: 0 <= a < |due| ==> due[a].key in jobs && jobs[due[a].key] == due[a] && Ready(due[a], now))
    && (forall k :: k in jobs && Ready(jobs[k], now) ==> jobs[k] in due)
  }

  /** The first `n` due jobs have run, everything else is as it was. */
  ghost predicate RanUpTo(was: Provider, jobs: Provider, due: seq<Job>, n: nat, now: Time, handled: set<string>,
      w: World) {
    && n <= |due|
    && jobs.Keys == was.Keys
    && (forall a :: 0 <= a < n ==> due[a].key in jobs && jobs[due[a].key] == Run(due[a], now, handled, w))
    && (forall k :: k in was && (forall a :: 0 <= a < n ==> due[a].key != k) ==> jobs[k] == was[k])
  }

  lemma RanStep(was: Provider, jobs: Provider, due: seq<Job>, n: nat, now: Time,
      handled: set<string>, w: World)
    requires DueJobs(was, due, now) && DistinctKeys(due) && RanUpTo(was, jobs, due, n, now, handled, w) && n < |due|
    ensures due[n].key in jobs && jobs[due[n].key] == due[n]
    ensures RanUpTo(was, jobs[due[n].key := Run(due[n], now, handled, w)], due, n + 1, now, handled, w)
  {
    hide Run, Ready;
  }

  /** New or changed records point at jobs that carry their key and have been completed since. */
  ghost predicate RecordsFollow(was: Provider, jobs: Provider, before: map<Key, string>, after: map<Key, string>) {
    && before.Keys <= after.Keys
    && forall m :: m in after ==>
      Unchanged(before, after, m) || NewlyCompleted(was, jobs, Key(m.namespace, after[m]), m.id)
  }

  ghost predicate Unchanged(before: map<Key, string>, after: map<Key, string>, m: Key) {
    m in before && m in after && after[m] == before[m]
  }

  ghost predicate NewlyCompleted(was: Provider, jobs: Provider, k: Key, idempotencyKey: string) {
    k in was && !was[k].status.Completed? && CompletedUnder(jobs, k, idempotencyKey)
  }

  lemma RecordsStep(was: Provider, jobs: Provider, before: map<Key, string>, after: map<Key, string>, due: seq<Job>,
                    n: nat, now: Time, handled: set<string>, w: World)
    requires DueJobs(was, due, now) && DistinctKeys(due) && RanUpTo(was, jobs, due, n, now, handled, w) && n < |due|
    requires RecordsFollow(was, jobs, before, after)
    ensures var done := Run(due[n], now, handled, w);
      RecordsFollow(was, jobs[due[n].key := done], before, Recorded(after, done))
  {
    RanStep(was, jobs, due, n, now, handled, w);
    ReadyIsPending(due[n], now);
    var done := Run(due[n], now, handled, w);
    assert done.key == due[n].key;
    hide Run, Ready, RanUpTo, DistinctKeys;
    var more, now' := jobs[done.key := done], Recorded(after, done);
    forall m | m in now'
      ensures Unchanged(before, now', m) || NewlyCompleted(was, more, Key(m.namespace, now'[m]), m.id)
    {
      if done.status.Completed? && done.idempotencyKey == Some(m.id) && m.namespace == done.key.namespace {
        assert Key(m.namespace, now'[m]) == done.key;
      } else {
        assert m in after && now'[m] == after[m];
        assert Unchanged(before, after, m) || NewlyCompleted(was, jobs, Key(m.namespace, after[m]), m.id);
      }
    }
  }

  lemma RecordsFollowRecovered(was: Provider, now: Time, jobs: Provider, before: map<Key, string>,
                               after: map<Key, string>)
    requires RecordsFollow(RecoveredAll(was, now), jobs, before, after)
    ensures RecordsFollow(was, jobs, before, after)
  {
    forall m | m in after
      ensures Unchanged(before, after, m) || NewlyCompleted(was, jobs, Key(m.namespace, after[m]), m.id)
    {
      assert Unchanged(before, after, m)
        || NewlyCompleted(RecoveredAll(was, now), jobs, Key(m.namespace, after[m]), m.id);
    }
  }

  ghost predicate DistinctKeys(due: seq<Job>) {
    forall a, b :: 0 <= a < b < |due| ==> due[a].key != due[b].key
  }

  lemma OrderedAreDistinct(jobs: Provider, due: seq<Job>, now: Time)
    requires DueJobs(jobs, due, now) && InOrder(due)
    ensures DistinctKeys(due)
  {
    hide Ready;
    forall a, b | 0 <= a < b < |due|
      ensures due[a].key != due[b].key
    {
      assert Precedes(due[a], due[b]);
    }
  }

  lemma AllRan(was: Provider, jobs: Provider, due: seq<Job>, now: Time, handled: set<string>,
      w: World)
    requires DueJobs(was, due, now) && RanUpTo(was, jobs, due, |due|, now, handled, w)
    requires forall k :: k in was ==> was[k].key == k
    ensures jobs.Keys == was.Keys
    ensures forall k :: k in was ==> jobs[k] == if Ready(was[k], now) then Run(was[k], now, handled, w) else was[k]
  {
    hide Run, Ready;
    forall k | k in was
      ensures jobs[k] == if Ready(was[k], now) then Run(was[k], now, handled, w) else was[k]
    {
      if Ready(was[k], now) {
        var a :| 0 <= a < |due| && due[a] == was[k];
      }
    }
  }

  /** The summary counts the runs, and each run as completed, retried or dead-lettered. */
  ghost predicate Accounted(s: Summary, ran: seq<Job>, now: Time, handled: set<string>, w: World) {
    && s.processed == |ran| == s.completed + s.retried + s.deadLetter
    && s.completed == CountEnding(ran, now, handled, w, Completed)
    && s.retried == CountEnding(ran, now, handled, w, Retrying)
    && s.deadLetter == CountEnding(ran, now, handled, w, DeadLetter)
  }

  lemma ReadyIsPending(j: Job, now: Time)
    requires Ready(j, now)
    ensures Pending(j.status)
  {
  }

  lemma KeysAreOwn(b: Books)
    requires Kept(b)
    ensures forall k :: k in b.provider ==> b.provider[k].key == k
  {
  }

  lemma SortedIsDue(jobs: Provider, due: seq<Job>, sorted: seq<Job>, now: Time)
    requires DueJobs(jobs, due, now) && multiset(sorted) == multiset(due)
    ensures DueJobs(jobs, sorted, now)
  {
    hide Ready;
    assert forall j :: j in multiset(due) <==> j in due;
    forall a | 0 <= a < |sorted|
      ensures sorted[a].key in jobs && jobs[sorted[a].key] == sorted[a] && Ready(sorted[a], now)
    {
      assert sorted[a] in multiset(sorted);
    }
    forall k | k in jobs && Ready(jobs[k], now)
      ensures jobs[k] in sorted
    {
      assert jobs[k] in multiset(sorted);
    }
  }

  /** `due` are the ready ones of the first `n` listed jobs, at these places. */
  ghost predicate Collected(jobs: Provider, listed: seq<Key>, due: seq<Job>, at: seq<nat>, n: nat, now: Time) {
    && n <= |listed| && |at| == |due|
    && (forall a :: 0 <= a < |due| ==>
      at[a] < n && listed[at[a]] in jobs && due[a] == jobs[listed[at[a]]] && Ready(due[a], now))
    && (forall a, c :: 0 <= a < c < |at| ==> at[a] < at[c])
    && (forall m :: 0 <= m < n && listed[m] in jobs && Ready(jobs[listed[m]], now) ==> jobs[listed[m]] in due)
  }

  lemma CollectsFromStart(b: Books, now: Time)
    requires Kept(b)
    ensures Collected(b.provider, b.listed, [], [], 0, now)
    ensures forall i :: 0 <= i < |b.listed| ==> b.listed[i] in b.provider
  {
  }

  lemma CollectsReady(jobs: Provider, listed: seq<Key>, due: seq<Job>, at: seq<nat>, n: nat,
      now: Time)
    requires Collected(jobs, listed, due, at, n, now) && n < |listed|
    requires listed[n] in jobs && Ready(jobs[listed[n]], now)
    ensures Collected(jobs, listed, due + [jobs[listed[n]]], at + [n], n + 1, now)
  {
    hide Ready;
    var longer := due + [jobs[listed[n]]];
    forall m | 0 <= m < n + 1 && listed[m] in jobs && Ready(jobs[listed[m]], now)
      ensures jobs[listed[m]] in longer
    {
      if m < n {
        assert jobs[listed[m]] in due;
      }
    }
  }

  lemma CollectsNothing(jobs: Provider, listed: seq<Key>, due: seq<Job>, at: seq<nat>, n: nat,
      now: Time)
    requires Collected(jobs, listed, due, at, n, now) && n < |listed|
    requires listed[n] in jobs && !Ready(jobs[listed[n]], now)
    ensures Collected(jobs, listed, due, at, n + 1, now)
  {
    hide Ready;
  }

  lemma CollectedIsDue(b: Books, due: seq<Job>, at: seq<nat>, now: Time)
    requires Kept(b) && Collected(b.provider, b.listed, due, at, |b.listed|, now)
    ensures DueJobs(b.provider, due, now) && DistinctOrders(due)
  {
    hide Ready, LiveAreNamed, BucketsTrue, RecordedAreCompleted, CompletedAreRecorded, AllWellTimed;
    forall a, c | 0 <= a < c < |due|
      ensures due[a].order != due[c].order
    {
      assert b.listed[at[a]] != b.listed[at[c]];
    }
  }

  class Service {
    var handlers: map<string, Defaults>
    var provider: Provider
    var index: map<Key, Status>
    var listed: seq<Key>
    var dedup: map<Key, string>
    var idem: map<Key, string>
    var counter: nat

    ghost function View(): Books
      reads this
    {
      Books(provider, index, listed, dedup, idem, counter)
    }

    constructor ()
      ensures View() == NO_BOOKS && Kept(View()) && handlers == map[]
    {
      handlers, provider, index, listed, dedup, idem, counter := map[], map[], map[], [], map[], map[], 0;
    }

    method Register(kind: string, defaults: Defaults) returns (registered: bool)
      modifies this`handlers
      ensures registered == (kind != "")
      ensures handlers == if registered then old(handlers)[kind := defaults] else old(handlers)
    {
      registered := kind != "";
      if registered {
        handlers := handlers[kind := defaults];
      }
    }

    method Persist(j: Job)
      modifies this`provider, this`index, this`listed
      ensures View() == Persisted(old(View()), j)
    {
      provider := provider[j.key := j];
      if j.key !in index {
        listed := listed + [j.key];
      }
      index := index[j.key := j.status];
    }

    /** The completed job recorded under this idempotency key, if there is one. */
    method FindCompleted(namespace: string, idempotencyKey: Option<string>) returns (found: Option<Job>)
      requires Indexed(provider, index) && RecordedAreCompleted(provider, idem)
      ensures found.Some? <==> IdempotencyRecorded(View(), namespace, idempotencyKey)
      ensures found.Some? ==>
        CompletedUnder(provider, found.value.key, idempotencyKey.value) && provider[found.value.key] == found.value
      ensures found.Some? ==> found.value.key.namespace == namespace
    {
      found := None;
      if idempotencyKey.Some? && Key(namespace, idempotencyKey.value) in idem {
        var entry := Key(namespace, idempotencyKey.value);
        var prior := Key(namespace, idem[entry]);
        assert CompletedUnder(provider, prior, idempotencyKey.value);
        if prior in provider && provider[prior].status.Completed? {
          found := Some(provider[prior]);
        }
      }
    }

    /** The live job the bucket of this de-duplication key points at, if there is one. */
    method FindRival(namespace: string, dedupKey: Option<string>) returns (found: Option<Job>)
      requires Indexed(provider, index) && LiveAreNamed(provider, dedup) && BucketsTrue(provider, dedup)
      ensures found.None? ==> forall k :: !Rival(provider, namespace, dedupKey, k)
      ensures found.Some? ==>
        Rival(provider, namespace, dedupKey, found.value.key) && provider[found.value.key] == found.value
    {
      assert forall k :: Rival(provider, namespace, dedupKey, k) ==> Named(provider[k], dedup);
      found := None;
      if dedupKey.Some? && dedupKey.value != "" && Key(namespace, dedupKey.value) in dedup {
        var existing := Key(namespace, dedup[Key(namespace, dedupKey.value)]);
        assert CarriesDedup(provider, existing, dedupKey.value);
        if existing in provider && !Terminal(provider[existing].status) {
          found := Some(provider[existing]);
        }
      }
    }

    /** The checks before a job exists; a fresh job still has to be persisted. */
    method Create(spec: Spec, key: Key, status: Status) returns (v: Verdict)
      requires Kept(View())
      modifies this`counter, this`dedup
      ensures VerdictRight(handlers, old(View()), spec, key, status, v)
      ensures counter == old(counter) + if v.Numbered() then 1 else 0
      ensures dedup
        == if v.Fresh? && Deduplicates(v.job) then old(dedup)[DedupEntry(v.job) := v.job.key.id] else old(dedup)
    {
      hide Indexed, Listed, Numbered, LiveAreNamed, BucketsTrue, AllWellTimed, RecordedAreCompleted;
      hide CompletedAreRecorded, CompletedUnder, Rival, Terminal, IdempotencyRecorded;
      if spec.kind == "" {
        return Turned(TypeRequired);
      }
      if spec.kind !in handlers {
        return Turned(NoHandler);
      }
      var prior := FindCompleted(key.namespace, spec.idempotencyKey);
      if prior.Some? {
        return Recalled(prior.value);
      }
      var existing := FindRival(key.namespace, spec.dedupKey);
      var job := NewJob(handlers[spec.kind], spec, key, counter, status);
      v := if !ValidPolicy(job.policy) then Invalid
        else if existing.Some? then Rivalled(existing.value)
        else Fresh(job);
      counter := counter + 1;
      if v.Fresh? && Deduplicates(job) {
        dedup := dedup[DedupEntry(job) := job.key.id];
      }
    }

    /** A fresh job persisted right after the checks is what creation promises. */
    method Add(spec: Spec, key: Key, status: Status) returns (r: Result<Job, Error>)
      requires Kept(View()) && key !in provider && (status.Queued? || (status.Scheduled? && spec.scheduledTime.Some?))
      modifies this`provider, this`index, this`listed, this`dedup, this`counter
      ensures CreatedRight(handlers, old(View()), View(), spec, key, status, r) && Kept(View())
    {
      hide Kept, VerdictRight, CreatedRight;
      ghost var before := View();
      var v := Create(spec, key, status);
      VerdictIsRight(handlers, before, spec, key, status, v);
      if v.Fresh? {
        Persist(v.job);
      }
      assert View() == Settled(before, v);
      r := Answer(v);
    }

    /** A job that may run as soon as it is due. */
    method Enqueue(spec: Spec, key: Key) returns (r: Result<Job, Error>)
      requires Kept(View()) && key !in provider
      modifies this`provider, this`index, this`listed, this`dedup, this`counter
      ensures CreatedRight(handlers, old(View()), View(), spec, key, Queued, r) && Kept(View())
    {
      r := Add(spec, key, Queued);
    }

    /** A job for later, at a given time or after a delay. */
    method Schedule(spec: Spec, delayMs: Option<Time>, key: Key, now: Time) returns (r: Result<Job, Error>)
      requires Kept(View()) && key !in provider
      modifies this`provider, this`index, this`listed, this`dedup, this`counter
      ensures Kept(View())
      ensures var time :=
        if spec.scheduledTime.None? && delayMs.Some? then Some(now + delayMs.value) else spec.scheduledTime;
        if time.None? then r == Err(TimeRequired) && View() == old(View())
        else CreatedRight(handlers, old(View()), View(), spec.(scheduledTime := time), key, Scheduled, r)
    {
      var time := if spec.scheduledTime.Some? then spec.scheduledTime
        else if delayMs.Some? then Some(now + delayMs.value)
        else None;
      if time.None? {
        return Err(TimeRequired);
      }
      r := Add(spec.(scheduledTime := time), key, Scheduled);
    }

    /** Only a job that is neither over nor running can be cancelled. */
    method Cancel(key: Key) returns (cancelled: bool)
      requires Kept(View())
      modifies this`provider, this`index, this`listed
      ensures Kept(View())
      ensures cancelled <==> key in old(provider) && Pending(old(provider)[key].status)
      ensures View()
        == if cancelled then Persisted(old(View()), old(provider)[key].(status := Cancelled)) else old(View())
    {
      cancelled := false;
      if key in provider {
        var job := provider[key];
        if !Terminal(job.status) && !job.status.Running? {
          PersistKeeps(View(), job.(status := Cancelled));
          Persist(job.(status := Cancelled));
          cancelled := true;
        }
      }
    }

    /** Persists the end of an execution; a completion is recorded under its idempotency key. */
    method Conclude(done: Job)
      requires Kept(View()) && done.key in provider && provider[done.key].status.Running?
      requires SameJob(provider[done.key], done) && WellTimed(done)
      modifies this`provider, this`index, this`listed, this`idem
      ensures Kept(View()) && listed == old(listed) && provider == old(provider)[done.key := done]
      ensures idem == Recorded(old(idem), done)
    {
      hide Kept, SameJob, WellTimed;
      assert done.key in index by {
        hide *;
        KeptIsIndexed(View(), done.key);
      }
      CompleteKeeps(View(), done);
      if done.status.Completed? && done.idempotencyKey.Some? {
        idem := idem[Key(done.key.namespace, done.idempotencyKey.value) := done.key.id];
      }
      Persist(done);
    }

    /** Runs one due job under its lock, unless it is no longer pending. */
    method RunJob(k: Key, now: Time, w: World) returns (ran: bool)
      requires Kept(View()) && k in provider
      modifies this`provider, this`index, this`listed, this`idem
      ensures Kept(View()) && listed == old(listed)
      ensures ran <==> Pending(old(provider)[k].status)
      ensures idem == if ran then Recorded(old(idem), Run(old(provider)[k], now, handlers.Keys, w)) else old(idem)
      ensures provider
        == if ran then old(provider)[k := Run(old(provider)[k], now, handlers.Keys, w)] else old(provider)
    {
      hide Kept, SameJob, WellTimed, Run, Executed;
      KeptIsIndexed(View(), k);
      var stored := provider[k];
      ran := Pending(stored.status);
      if !ran {
        return;
      }
      RunStays(stored, now, handlers.Keys, w);
      var job := MarkRunning(stored, now);
      PersistKeeps(View(), job);
      Persist(job);
      var done := if job.kind in handlers then Concluded(job, w(k, job.attempts)) else Failed(job, now);
      Conclude(done);
      assert provider == old(provider)[k := done];
    }

    method RecoverJob(k: Key, now: Time) returns (recovered: bool)
      requires Kept(View()) && k in provider
      modifies this`provider, this`index, this`listed
      ensures Kept(View()) && listed == old(listed)
      ensures provider == old(provider)[k := Recovered(old(provider)[k], now)]
      ensures recovered <==> Stuck(old(provider)[k], now)
    {
      hide Kept, SameJob, WellTimed, TimedOut;
      KeptIsIndexed(View(), k);
      var job := provider[k];
      recovered := job.status.Running? && TimedOut(job, now);
      if recovered {
        FailedStays(job, now);
        PersistKeeps(View(), Failed(job, now));
        Persist(Failed(job, now));
      }
    }

    /** Jobs left running past their timeout have failed; every other job is left as it is. */
    method Recover(now: Time) returns (timedOut: nat)
      requires Kept(View())
      modifies this`provider, this`index, this`listed
      ensures Kept(View()) && listed == old(listed)
      ensures provider.Keys == old(provider.Keys)
      ensures forall k :: k in provider ==> provider[k] == Recovered(old(provider)[k], now)
      ensures timedOut == CountTimedOut(old(provider), listed, now)
    {
      ghost var was, ids := provider, listed;
      assert Listed(was, ids);
      hide *;
      timedOut := 0;
      NothingRecovered(was, ids, now);
      for i := 0 to |listed|
        invariant Kept(View()) && listed == ids && Passed(was, provider, ids, i, now, timedOut)
      {
        RecoverStep(was, provider, ids, i, now, timedOut);
        var recovered := RecoverJob(listed[i], now);
        timedOut := timedOut + if recovered then 1 else 0;
      }
      AllRecovered(was, provider, ids, now, timedOut);
    }

    /** The jobs that are due, each once. */
    method CollectDue(now: Time) returns (due: seq<Job>)
      requires Kept(View())
      ensures DueJobs(provider, due, now) && DistinctOrders(due)
    {
      hide Kept, Ready, DueJobs, DistinctOrders, Collected;
      ghost var books := View();
      CollectsFromStart(books, now);
      due := [];
      ghost var at: seq<nat> := [];
      for i := 0 to |listed|
        invariant Collected(provider, listed, due, at, i, now)
      {
        if Ready(provider[listed[i]], now) {
          CollectsReady(provider, listed, due, at, i, now);
          due := due + [provider[listed[i]]];
          at := at + [i];
        } else {
          CollectsNothing(provider, listed, due, at, i, now);
        }
      }
      CollectedIsDue(books, due, at, now);
    }

    method RunAt(due: seq<Job>, i: nat, now: Time, w: World, ghost was: Provider, ghost before: map<Key, string>)
      returns (status: Status)
      requires Kept(View()) && DueJobs(was, due, now) && DistinctKeys(due) && i < |due|
      requires RanUpTo(was, provider, due, i, now, handlers.Keys, w) && RecordsFollow(was, provider, before, idem)
      modifies this`provider, this`index, this`listed, this`idem
      ensures Kept(View()) && listed == old(listed)
      ensures RanUpTo(was, provider, due, i + 1, now, handlers.Keys, w) && RecordsFollow(was, provider, before, idem)
      ensures status == Run(due[i], now, handlers.Keys, w).status
    {
      RecordsStep(was, provider, before, idem, due, i, now, handlers.Keys, w);
      RanStep(was, provider, due, i, now, handlers.Keys, w);
      assert Ready(due[i], now);
      ReadyIsPending(due[i], now);
      hide Kept, DueJobs, RanUpTo, Run, Ready, DistinctKeys, View, RecordsFollow, Recorded;
      var ran := RunJob(due[i].key, now, w);
      status := provider[due[i].key].status;
    }

    /** Runs the due jobs in order and counts how they end. */
    method RunAll(due: seq<Job>, now: Time, w: World) returns (completed: nat, retried: nat, deadLetter: nat)
      requires Kept(View()) && DueJobs(provider, due, now) && InOrder(due)
      modifies this`provider, this`index, this`listed, this`idem
      ensures Kept(View()) && listed == old(listed)
      ensures RanUpTo(old(provider), provider, due, |due|, now, handlers.Keys, w)
      ensures Counted(due, |due|, now, handlers.Keys, w, completed, retried, deadLetter)
      ensures RecordsFollow(old(provider), provider, old(idem), idem)
    {
      ghost var was, ids, before := provider, listed, idem;
      OrderedAreDistinct(was, due, now);
      assert RanUpTo(was, provider, due, 0, now, handlers.Keys, w);
      assert Counted(due, 0, now, handlers.Keys, w, 0, 0, 0);
      completed, retried, deadLetter := 0, 0, 0;
      for i := 0 to |due|
        invariant Kept(View()) && listed == ids && RecordsFollow(was, provider, before, idem)
        invariant RanUpTo(was, provider, due, i, now, handlers.Keys, w)
        invariant Counted(due, i, now, handlers.Keys, w, completed, retried, deadLetter)
      {
        hide *;
        var status := RunAt(due, i, now, w, was, before);
        CountStep(due, i, now, handlers.Keys, w, status, completed, retried, deadLetter);
        completed := completed + if status.Completed? then 1 else 0;
        retried := retried + if status.Retrying? then 1 else 0;
        deadLetter := deadLetter + if status.DeadLetter? then 1 else 0;
      }
    }

    /** Collects, orders and runs the due jobs. */
    method RunDue(now: Time, w: World) returns (summary: Summary, ran: seq<Job>)
      requires Kept(View())
      modifies this`provider, this`index, this`listed, this`idem
      ensures Kept(View()) && RecordsFollow(old(provider), provider, old(idem), idem)
      ensures provider.Keys == old(provider.Keys)
      ensures forall k :: k in provider ==>
        provider[k]
          == if Ready(old(provider)[k], now) then Run(old(provider)[k], now, handlers.Keys, w) else old(provider)[k]
      ensures DueJobs(old(provider), ran, now) && InOrder(ran)
      ensures Accounted(summary, ran, now, handlers.Keys, w)
    {
      hide Kept, Run, Ready, DueJobs, InOrder, DistinctOrders, RanUpTo, RecordsFollow;
      ghost var was := provider;
      KeysAreOwn(View());
      var due := CollectDue(now);
      ran := SortDue(due);
      SortedIsDue(was, due, ran, now);
      var completed, retried, deadLetter := RunAll(ran, now, w);
      AllRan(was, provider, ran, now, handlers.Keys, w);
      EndingsAddUp(ran, now, handlers.Keys, w);
      assert ran[..|ran|] == ran;
      summary := Summary(|ran|, completed, retried, deadLetter, 0);
    }

    /**
     One tick: every job is recovered and, if due, run exactly once, in strictly decreasing
     precedence; the completed ones are recorded under their idempotency keys; nothing else
     changes, and the summary accounts for each run.
     */
    method Tick(now: Time, w: World) returns (summary: Summary, ran: seq<Job>)
      requires Kept(View())
      modifies this`provider, this`index, this`listed, this`idem
      ensures Kept(View()) && RecordsFollow(old(provider), provider, old(idem), idem)
      ensures provider.Keys == old(provider.Keys)
      ensures forall k :: k in provider ==> provider[k] == Ticked(old(provider)[k], now, handlers.Keys, w)
      ensures DueJobs(RecoveredAll(old(provider), now), ran, now)
      ensures forall a, b :: 0 <= a < b < |ran| ==>
        ran[a].priority > ran[b].priority || (ran[a].priority == ran[b].priority && ran[a].order < ran[b].order)
      ensures Accounted(summary, ran, now, handlers.Keys, w)
      ensures summary.timedOut == CountTimedOut(old(provider), old(listed), now)
    {
      hide Kept, View, Recovered, Run, Ready, DueJobs, RecordsFollow;
      ghost var was, before := provider, idem;
      var timedOut := Recover(now);
      ghost var between := provider;
      assert between == RecoveredAll(old(provider), now);
      summary, ran := RunDue(now, w);
      RecordsFollowRecovered(was, now, provider, before, idem);
      summary := summary.(timedOut := timedOut);
    }

    /**
     Ticks in a row: each job goes its own way, and with at most `bound` attempts allowed,
     `bound` ticks that come late enough complete or dead-letter every job pending at the start.
     */
    method TickRepeatedly(ticks: seq<Tick>, ghost bound: nat)
      requires Kept(View())
      modifies this`provider, this`index, this`listed, this`idem
      ensures Kept(View()) && provider.Keys == old(provider.Keys)
      ensures forall k :: k in provider ==> provider[k] == AfterTicks(old(provider)[k], ticks, handlers.Keys)
      ensures (1 <= bound <= |ticks| && AllEndWithin(old(provider), ticks, handlers.Keys, bound)) ==>
        (forall k :: k in provider && Pending(old(provider)[k].status) ==>
          provider[k].status.Completed? || provider[k].status.DeadLetter?)
    {
      ghost var was := provider;
      hide Kept, View, Ticked, DueJobs, Accounted, Recovered, Run, Ready;
      assert TickedTo(was, provider, ticks, 0, handlers.Keys);
      for i := 0 to |ticks|
        invariant Kept(View()) && TickedTo(was, provider, ticks, i, handlers.Keys)
      {
        hide *;
        ghost var before := provider;
        var summary, ran := Tick(ticks[i].now, ticks[i].w);
        TickedOnce(was, before, provider, ticks, i, handlers.Keys);
      }
      assert ticks[..|ticks|] == ticks;
      if 1 <= bound <= |ticks| && AllEndWithin(was, ticks, handlers.Keys, bound) {
        AllEnd(was, ticks, handlers.Keys, bound);
      }
    }
  }
}
