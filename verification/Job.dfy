/**
 The job object and its retry policy (src/domain/jobs/job.js, retryPolicy.js) and what
 one execution does to a job in src/application/jobs/jobsService.js.
 */
module Job {
  import opened Wrappers

  datatype Status = Queued | Scheduled | Running | Completed | Retrying | Cancelled | DeadLetter

  /** Milliseconds; the source's numbers need not be whole. */
  type Time = real

  datatype RetryPolicy = RetryPolicy(maxAttempts: int, backoffMs: Time, factor: real, maxBackoffMs: Time)

  datatype Key = Key(namespace: string, id: string)

  datatype Job = Job(
    key: Key, kind: string, priority: real, status: Status, policy: RetryPolicy, attempts: nat,
    scheduledTime: Option<Time>, startedTime: Option<Time>, nextAttemptAt: Option<Time>, timeout: Option<Time>,
    dedupKey: Option<string>, idempotencyKey: Option<string>, order: nat)

  /** How a handler ended and what the clock said then. */
  datatype Outcome = Returned(at: Time) | Threw(at: Time)

  predicate ValidPolicy(p: RetryPolicy) {
    p.maxAttempts >= 1 && p.backoffMs >= 0.0 && p.factor >= 1.0
  }

  function Power(base: real, exponent: nat): real {
    if exponent == 0 then 1.0 else base * Power(base, exponent - 1)
  }

  function Uncapped(p: RetryPolicy, attempts: nat): Time {
    p.backoffMs * Power(p.factor, if attempts == 0 then 0 else attempts - 1)
  }

  /** Exponential back-off, capped when the cap is positive. */
  function NextDelay(p: RetryPolicy, attempts: nat): Time {
    if p.backoffMs == 0.0 then 0.0
    else
      var raw := Uncapped(p, attempts);
      if p.maxBackoffMs > 0.0 && p.maxBackoffMs < raw then p.maxBackoffMs else raw
  }

  predicate Terminal(s: Status) {
    s.Completed? || s.Cancelled? || s.DeadLetter?
  }

  /** Waiting for its turn: a tick may run it. */
  predicate Pending(s: Status) {
    s.Queued? || s.Scheduled? || s.Retrying?
  }

  function MarkRunning(j: Job, now: Time): Job {
    j.(status := Running, startedTime := Some(now), attempts := j.attempts + 1)
  }

  /** Another attempt while the policy allows one, the dead-letter queue otherwise. */
  function Failed(j: Job, now: Time): Job {
    if j.attempts < j.policy.maxAttempts then
      j.(status := Retrying, nextAttemptAt := Some(now + NextDelay(j.policy, j.attempts)))
    else
      j.(status := DeadLetter)
  }

  predicate TimedOut(j: Job, at: Time) {
    j.timeout.Some? && at - (if j.startedTime.Some? then j.startedTime.value else 0.0) > j.timeout.value
  }

  /** What a running job becomes when its handler ends; a late return counts as a failure. */
  function Concluded(j: Job, outcome: Outcome): Job {
    match outcome
    case Returned(at) => if TimedOut(j, at) then Failed(j, at) else j.(status := Completed)
    case Threw(at) => Failed(j, at)
  }

  /** One whole execution; without a handler for its kind a job fails at once. */
  function Executed(j: Job, now: Time, handled: bool, outcome: Outcome): Job {
    var running := MarkRunning(j, now);
    if handled then Concluded(running, outcome) else Failed(running, now)
  }

  /** The recovery pass: a job left running past its timeout has failed. */
  function Recovered(j: Job, now: Time): Job {
    if j.status.Running? && TimedOut(j, now) then Failed(j, now) else j
  }

  predicate Ready(j: Job, now: Time) {
    match j.status
    case Queued => j.scheduledTime.None? || j.scheduledTime.value <= now
    case Scheduled => j.scheduledTime.Some? && j.scheduledTime.value <= now
    case Retrying => j.nextAttemptAt.Some? && j.nextAttemptAt.value <= now
    case _ => false
  }

  /** Higher priority first, then the older job. */
  predicate Precedes(a: Job, b: Job) {
    a.priority > b.priority || (a.priority == b.priority && a.order < b.order)
  }

  /** What identifies a job and never changes. */
  ghost predicate SameJob(a: Job, b: Job) {
    && a.key == b.key && a.kind == b.kind && a.priority == b.priority && a.policy == b.policy && a.order == b.order
    && a.dedupKey == b.dedupKey && a.idempotencyKey == b.idempotencyKey && a.timeout == b.timeout
  }

  // ---- back-off and due times ----------------------------------------------------------------

  /** Each further retry waits `factor` times as long, starting from the base delay, up to the cap. */
  lemma BackoffIsGeometric(p: RetryPolicy, attempts: nat)
    requires ValidPolicy(p) && attempts >= 1
    ensures p.maxBackoffMs <= 0.0 ==>
      NextDelay(p, 1) == p.backoffMs && NextDelay(p, attempts + 1) == p.factor * NextDelay(p, attempts)
    ensures p.maxBackoffMs > 0.0 ==>
      var uncapped := NextDelay(p.(maxBackoffMs := 0.0), attempts);
      NextDelay(p, attempts) == if uncapped < p.maxBackoffMs then uncapped else p.maxBackoffMs
    ensures 0.0 <= NextDelay(p, attempts) <= NextDelay(p, attempts + 1)
    ensures NextDelay(p, 0) == NextDelay(p, 1)
  {
    UncappedGrows(p, attempts);
    assert Uncapped(p.(maxBackoffMs := 0.0), attempts) == Uncapped(p, attempts);
    hide Uncapped;
    if p.backoffMs == 0.0 {
      TimesZero(p.factor);
    }
  }

  lemma TimesZero(x: real)
    ensures x * 0.0 == 0.0
  {
  }

  lemma UncappedGrows(p: RetryPolicy, attempts: nat)
    requires ValidPolicy(p) && attempts >= 1
    ensures Uncapped(p, 1) == p.backoffMs
    ensures Uncapped(p, attempts + 1) == p.factor * Uncapped(p, attempts)
    ensures 0.0 <= Uncapped(p, attempts) <= Uncapped(p, attempts + 1)
  {
    PowerPositive(p.factor, attempts - 1);
    assert Power(p.factor, 0) == 1.0;
    assert Power(p.factor, attempts) == p.factor * Power(p.factor, attempts - 1);
    Scaled(p.backoffMs, p.factor, Power(p.factor, attempts - 1));
    hide Power;
    assert p.backoffMs * 1.0 == p.backoffMs;
  }

  lemma Scaled(b: real, f: real, x: real)
    requires b >= 0.0 && f >= 1.0 && x >= 1.0
    ensures b * (f * x) == f * (b * x)
    ensures 0.0 <= b * x <= f * (b * x)
  {
    var y := b * x;
    assert y >= 0.0;
    assert f * y == y + (f - 1.0) * y;
    assert (f - 1.0) * y >= 0.0;
  }

  lemma {:induction false} PowerPositive(base: real, exponent: nat)
    requires base >= 1.0
    ensures Power(base, exponent) >= 1.0
  {
    if exponent > 0 {
      PowerPositive(base, exponent - 1);
    }
  }

  /** A failed job with attempts left is due again exactly from its back-off on, and never otherwise. */
  lemma RetriedExactlyAfterBackoff(j: Job, failedAt: Time, now: Time)
    ensures Ready(Failed(j, failedAt), now) <==>
      j.attempts < j.policy.maxAttempts && now >= failedAt + NextDelay(j.policy, j.attempts)
  {
  }

  /** A job completes exactly when it has a handler that returns within its timeout. */
  lemma CompletedExactlyInTime(j: Job, now: Time, handled: bool, outcome: Outcome)
    ensures Executed(j, now, handled, outcome).status.Completed? <==>
      handled && outcome.Returned? && (j.timeout.None? || outcome.at - now <= j.timeout.value)
  {
  }

  /** An execution that began at `start` and is still unfinished is given up exactly when its timeout has passed. */
  lemma RecoveredExactly(j: Job, start: Time, now: Time)
    ensures var running := MarkRunning(j, start);
      && running.status.Running? && running.attempts == j.attempts + 1
      && (Recovered(running, now).status.Running? <==> (j.timeout.None? || now <= start + j.timeout.value))
      && (Recovered(running, now).status.Running? ==> Recovered(running, now) == running)
      && (!Recovered(running, now).status.Running? ==> Recovered(running, now) == Failed(running, now))
    ensures !j.status.Running? ==> Recovered(j, now) == j
  {
  }

  /** Only pending jobs are due, a scheduled or retrying one only with a time that has come. */
  lemma DueOnlyInTime(j: Job, now: Time)
    requires Ready(j, now)
    ensures Pending(j.status)
    ensures j.status.Scheduled? ==> j.scheduledTime.Some? && j.scheduledTime.value <= now
    ensures j.status.Retrying? ==> j.nextAttemptAt.Some? && j.nextAttemptAt.value <= now
  {
  }

  /** A pending job whose times are set becomes due at some time and stays due. */
  lemma DueFromThenOn(j: Job) returns (from: Time)
    requires Pending(j.status) && (j.status.Scheduled? ==> j.scheduledTime.Some?)
      && (j.status.Retrying? ==> j.nextAttemptAt.Some?)
    ensures forall now :: now >= from ==> Ready(j, now)
    ensures forall now, later :: Ready(j, now) && now <= later ==> Ready(j, later)
    ensures !(j.status.Queued? && j.scheduledTime.None?) ==> forall now :: now < from ==> !Ready(j, now)
  {
    var time := if j.status.Retrying? then j.nextAttemptAt else j.scheduledTime;
    from := if time.Some? then time.value else 0.0;
  }
}
