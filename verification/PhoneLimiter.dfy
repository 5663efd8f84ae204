/**
 The per-phone lock of src/middleware/rateLimiter.js: attempts are counted in periods of
 `lockMs`, too many lock the phone, a periodic cleanup drops idle records, and locks are
 saved in whole seconds and loaded again after a restart.
 */
module PhoneLimiter {
  import opened Wrappers

  const CLEANUP_MS := 300000

  datatype Record = Record(count: nat, firstAt: int, lockedUntil: int)

  datatype Event = Try(phone: string, at: int) | Sweep(at: int)

  /** Limits of one `phoneRateLimit()` instance. */
  datatype Limits = Limits(maxAttempts: int, lockMs: nat)

  predicate Locked(r: Option<Record>, now: int) {
    r.Some? && r.value.lockedUntil > now
  }

  /** The count so far in the period that `now` belongs to, and that period's start. */
  function Period(r: Option<Record>, now: int, lim: Limits): Record {
    if r.None? then Record(0, now, 0)
    else if now - r.value.firstAt > lim.lockMs then r.value.(count := 0, firstAt := now)
    else r.value
  }

  /** Whether an attempt gets through. */
  predicate Passes(r: Option<Record>, now: int, lim: Limits) {
    !Locked(r, now) && Period(r, now, lim).count + 1 <= lim.maxAttempts
  }

  /** A locked phone's record is left alone; otherwise the attempt counts, and may lock. */
  function Tried(r: Option<Record>, now: int, lim: Limits): Option<Record> {
    if Locked(r, now) then r
    else
      var p := Period(r, now, lim);
      var counted := p.(count := p.count + 1);
      Some(if counted.count > lim.maxAttempts then counted.(lockedUntil := now + lim.lockMs) else counted)
  }

  function Swept(r: Option<Record>, now: int): Option<Record> {
    if r.Some? && r.value.lockedUntil < now && now - r.value.firstAt > CLEANUP_MS then None else r
  }

  /** A phone's record after a run that began with `start`; without `sweeping` the cleanup is skipped. */
  function After(start: Option<Record>, events: seq<Event>, phone: string, lim: Limits,
      sweeping: bool): Option<Record> {
    if events == [] then start
    else
      var before := After(start, events[..|events| - 1], phone, lim, sweeping);
      match events[|events| - 1]
      case Try(p, at) => if p == phone then Tried(before, at, lim) else before
      case Sweep(at) => if sweeping then Swept(before, at) else before
  }

  /** A clock that starts at `begin` and never runs backwards. */
  ghost predicate Monotone(begin: nat, events: seq<Event>, now: int) {
    && begin <= now
    && (forall i :: 0 <= i < |events| ==> begin <= events[i].at <= now)
    && forall i, j :: 0 <= i < j < |events| ==> events[i].at <= events[j].at
  }

  // ---- cleanup is invisible ---------------------------------------------------------------

  /** `swept` may lack a record that no longer matters, or remember another lock that is over. */
  ghost predicate Alike(swept: Option<Record>, full: Option<Record>, now: int, lim: Limits) {
    match (swept, full)
    case (None, None) => true
    case (None, Some(f)) => f.lockedUntil <= now && now - f.firstAt > lim.lockMs
    case (Some(_), None) => false
    case (Some(s), Some(f)) =>
      && s.count == f.count && s.firstAt == f.firstAt
      && (s.lockedUntil == f.lockedUntil || (s.lockedUntil <= now && f.lockedUntil <= now))
  }

  lemma TryKeepsAlike(swept: Option<Record>, full: Option<Record>, now: nat, lim: Limits)
    requires Alike(swept, full, now, lim)
    ensures Passes(swept, now, lim) <==> Passes(full, now, lim)
    ensures Alike(Tried(swept, now, lim), Tried(full, now, lim), now, lim)
  {
  }

  lemma {:induction false} StaysAlike(start: Option<Record>, begin: nat, events: seq<Event>, phone: string,
      lim: Limits, now: int)
    requires Monotone(begin, events, now) && lim.lockMs <= CLEANUP_MS
    ensures Alike(After(start, events, phone, lim, true), After(start, events, phone, lim, false), now, lim)
  {
    if events != [] {
      var init, last := events[..|events| - 1], events[|events| - 1];
      StaysAlike(start, begin, init, phone, lim, last.at);
      var swept, full := After(start, init, phone, lim, true), After(start, init, phone, lim, false);
      if last.Try? && last.phone == phone {
        TryKeepsAlike(swept, full, last.at, lim);
      }
    }
  }

  /** With locks of at most five minutes the cleanup never changes a decision. */
  lemma CleanupInvisible(start: Option<Record>, begin: nat, events: seq<Event>, phone: string,
      lim: Limits, now: int)
    requires Monotone(begin, events, now) && (lim.lockMs <= CLEANUP_MS || lim.maxAttempts <= 0)
    ensures Passes(After(start, events, phone, lim, true), now, lim) <==>
      Passes(After(start, events, phone, lim, false), now, lim)
  {
    if lim.lockMs <= CLEANUP_MS {
      StaysAlike(start, begin, events, phone, lim, now);
      TryKeepsAlike(After(start, events, phone, lim, true), After(start, events, phone, lim, false), now, lim);
    }
  }

  function Burst(phone: string, n: nat): seq<Event> {
    if n == 0 then [] else Burst(phone, n - 1) + [Try(phone, 0)]
  }

  lemma {:induction false} BurstAtZero(phone: string, n: nat, now: nat)
    ensures Monotone(0, Burst(phone, n) + [Sweep(now)], now)
    ensures forall i :: 0 <= i < |Burst(phone, n)| ==> Burst(phone, n)[i].at == 0
  {
    if n > 0 {
      BurstAtZero(phone, n - 1, now);
    }
  }

  lemma {:induction false} BurstCounts(phone: string, n: nat, lim: Limits, sweeping: bool)
    requires 0 < n <= lim.maxAttempts
    ensures After(None, Burst(phone, n), phone, lim, sweeping) == Some(Record(n, 0, 0))
  {
    var burst := Burst(phone, n);
    assert burst[..|burst| - 1] == Burst(phone, n - 1);
    if n > 1 {
      BurstCounts(phone, n - 1, lim, sweeping);
    }
  }

  lemma AfterSweep(start: Option<Record>, events: seq<Event>, phone: string, lim: Limits,
      sweeping: bool, now: int)
    ensures var before := After(start, events, phone, lim, sweeping);
      After(start, events + [Sweep(now)], phone, lim, sweeping) == if sweeping then Swept(before, now) else before
  {
    assert (events + [Sweep(now)])[..|events|] == events;
  }

  /** After this run a request at `now` is decided differently because of the cleanup. */
  ghost predicate CleanupMatters(start: Option<Record>, begin: nat, events: seq<Event>, phone: string, lim: Limits,
      now: int) {
    && Monotone(begin, events, now)
    && Passes(After(start, events, phone, lim, true), now, lim)
      != Passes(After(start, events, phone, lim, false), now, lim)
  }

  /** A longer lock forgets: the record of a used-up period is swept away before the period ends. */
  lemma LongerLockForgets(lim: Limits) returns (events: seq<Event>, now: int)
    requires lim.lockMs > CLEANUP_MS && lim.maxAttempts > 0
    ensures CleanupMatters(None, 0, events, "phone", lim, now)
  {
    var burst := Burst("phone", lim.maxAttempts);
    BurstCounts("phone", lim.maxAttempts, lim, true);
    BurstCounts("phone", lim.maxAttempts, lim, false);
    now := CLEANUP_MS + 1;
    events := burst + [Sweep(now)];
    BurstAtZero("phone", lim.maxAttempts, now);
    hide Monotone, Burst;
    AfterSweep(None, burst, "phone", lim, true, now);
    AfterSweep(None, burst, "phone", lim, false, now);
    hide After;
  }

  /** The exact condition under which no cleanup schedule can change a decision. */
  lemma CleanupInvisibleExactly(lim: Limits)
    ensures (lim.lockMs <= 300000 || lim.maxAttempts <= 0) <==>
      (forall start, begin, events, phone, now :: !CleanupMatters(start, begin, events, phone, lim, now))
  {
    if lim.lockMs <= CLEANUP_MS || lim.maxAttempts <= 0 {
      forall start, begin, events, phone, now
        ensures !CleanupMatters(start, begin, events, phone, lim, now)
      {
        if Monotone(begin, events, now) {
          CleanupInvisible(start, begin, events, phone, lim, now);
        }
      }
    } else {
      var events, now := LongerLockForgets(lim);
    }
  }

  // ---- a lock holds --------------------------------------------------------------------------

  /** Until a lock ends nothing gets through and neither attempts nor cleanups touch it. */
  lemma {:induction false} LockHolds(start: Option<Record>, events: seq<Event>, phone: string, lim: Limits)
    requires start.Some? && forall i :: 0 <= i < |events| ==> events[i].at < start.value.lockedUntil
    ensures After(start, events, phone, lim, true) == start
    ensures forall now :: now < start.value.lockedUntil ==> !Passes(After(start, events, phone, lim, true), now, lim)
  {
    if events != [] {
      LockHolds(start, events[..|events| - 1], phone, lim);
    }
  }

  /** The attempt that goes over the limit locks the phone for `lockMs`: until then nothing gets through. */
  lemma RefusalLocks(r: Option<Record>, now: nat, events: seq<Event>, phone: string,
      lim: Limits, later: int)
    requires !Locked(r, now) && !Passes(r, now, lim) && later < now + lim.lockMs
    requires forall i :: 0 <= i < |events| ==> events[i].at < now + lim.lockMs
    ensures !Passes(After(Tried(r, now, lim), events, phone, lim, true), later, lim)
  {
    LockHolds(Tried(r, now, lim), events, phone, lim);
  }

  /** The phone has not been heard of since. */
  ghost predicate QuietSince(start: Option<Record>, events: seq<Event>, phone: string, lim: Limits, quiet: nat) {
    && (start.Some? ==> start.value.firstAt <= quiet && start.value.lockedUntil <= quiet + lim.lockMs)
    && forall i :: 0 <= i < |events| && events[i].Try? && events[i].phone == phone ==> events[i].at <= quiet
  }

  lemma {:induction false} LocksAreBounded(start: Option<Record>, events: seq<Event>, phone: string, lim: Limits,
      sweeping: bool, quiet: nat)
    requires QuietSince(start, events, phone, lim, quiet)
    ensures var r := After(start, events, phone, lim, sweeping);
      r.Some? ==> r.value.firstAt <= quiet && r.value.lockedUntil <= quiet + lim.lockMs
  {
    if events != [] {
      LocksAreBounded(start, events[..|events| - 1], phone, lim, sweeping, quiet);
    }
  }

  /**
   Nobody is shut out for good: after more than `lockMs` without an attempt the phone is let in,
   whatever happened before.
   */
  lemma PassesAgain(start: Option<Record>, events: seq<Event>, phone: string, lim: Limits,
      sweeping: bool, quiet: nat, now: int)
    requires lim.maxAttempts >= 1 && now > quiet + lim.lockMs
    requires QuietSince(start, events, phone, lim, quiet)
    ensures Passes(After(start, events, phone, lim, sweeping), now, lim)
  {
    LocksAreBounded(start, events, phone, lim, sweeping, quiet);
  }

  function Tries(phone: string, times: seq<int>): seq<Event> {
    seq(|times|, i requires 0 <= i < |times| => Try(phone, times[i]))
  }

  /** No lock, and no period that is still going on. */
  ghost predicate Fresh(r: Option<Record>, now: int, lim: Limits) {
    r.Some? ==> r.value.lockedUntil <= now && now - r.value.firstAt > lim.lockMs
  }

  /** The attempts all belong to the period that the first of them opens. */
  ghost predicate OnePeriod(times: seq<int>, lim: Limits) {
    forall i :: 0 <= i < |times| ==> times[0] <= times[i] <= times[0] + lim.lockMs
  }

  lemma {:induction false} PeriodCounts(start: Option<Record>, phone: string, times: seq<int>, lim: Limits, k: nat)
    requires times != [] && Fresh(start, times[0], lim) && OnePeriod(times, lim)
    requires 0 < k <= |times| && k <= lim.maxAttempts && times[0] >= 0
    ensures var r := After(start, Tries(phone, times[..k]), phone, lim, true);
      r.Some? && r.value.count == k && r.value.firstAt == times[0] && r.value.lockedUntil <= times[0]
  {
    var run := Tries(phone, times[..k]);
    assert run[..k - 1] == Tries(phone, times[..k - 1]);
    if k > 1 {
      PeriodCounts(start, phone, times, lim, k - 1);
    } else {
      assert After(start, run[..0], phone, lim, true) == start;
    }
  }

  /** In a fresh period exactly the first `maxAttempts` attempts get through. */
  lemma PassesExactlyUpTo(start: Option<Record>, phone: string, times: seq<int>, lim: Limits, k: nat)
    requires times != [] && Fresh(start, times[0], lim) && OnePeriod(times, lim) && times[0] >= 0
    requires k < |times| && 0 <= k <= lim.maxAttempts
    ensures Passes(After(start, Tries(phone, times[..k]), phone, lim, true), times[k], lim) <==> k < lim.maxAttempts
  {
    if k > 0 {
      PeriodCounts(start, phone, times, lim, k);
    } else {
      assert After(start, Tries(phone, times[..0]), phone, lim, true) == start;
    }
  }

  /** The lock of an attempt over the limit ends after `lockMs`, not before and not later. */
  lemma LockEndsExactly(r: Option<Record>, now: nat, lim: Limits, later: int)
    requires !Locked(r, now) && !Passes(r, now, lim) && Period(r, now, lim).firstAt < now <= later
    requires lim.maxAttempts >= 1
    ensures Passes(Tried(r, now, lim), later, lim) <==> later >= now + lim.lockMs
  {
  }

  // ---- the bound -----------------------------------------------------------------------------

  /** An attempt that got through, and the start of the period it was counted in. */
  datatype Pass = Pass(at: int, period: int)

  function PassList(start: Option<Record>, events: seq<Event>, phone: string, lim: Limits, sweeping: bool): seq<Pass> {
    if events == [] then []
    else
      var init, last := events[..|events| - 1], events[|events| - 1];
      var before, r := PassList(start, init, phone, lim, sweeping), After(start, init, phone, lim, sweeping);
      if last.Try? && last.phone == phone && Passes(r, last.at, lim)
      then before + [Pass(last.at, Period(r, last.at, lim).firstAt)]
      else before
  }

  /** Every attempt that gets through is listed, with its time, and no other. */
  lemma PassesAreListed(start: Option<Record>, events: seq<Event>, phone: string, lim: Limits, sweeping: bool, at: int)
    ensures var before, after := PassList(start, events, phone, lim, sweeping),
        PassList(start, events + [Try(phone, at)], phone, lim, sweeping);
      if Passes(After(start, events, phone, lim, sweeping), at, lim)
      then |after| == |before| + 1 && after[..|before|] == before && after[|before|].at == at
      else after == before
  {
    assert (events + [Try(phone, at)])[..|events|] == events;
  }

  function CountPeriod(passes: seq<Pass>, period: int): nat {
    if passes == [] then 0
    else CountPeriod(passes[..|passes| - 1], period) + if passes[|passes| - 1].period == period then 1 else 0
  }

  function CountWithin(passes: seq<Pass>, start: int, end: int): nat {
    if passes == [] then 0
    else CountWithin(passes[..|passes| - 1], start, end) + if start <= passes[|passes| - 1].at <= end then 1 else 0
  }

  /** Passes fall within their period, and different periods are more than `lockMs` apart. */
  ghost predicate Apart(passes: seq<Pass>, lockMs: nat) {
    && (forall i :: 0 <= i < |passes| ==> passes[i].period <= passes[i].at <= passes[i].period + lockMs)
    && forall i, j :: 0 <= i < j < |passes| ==>
      passes[i].period == passes[j].period || passes[i].period + lockMs < passes[j].period
  }

  /** Each period has let at most `maxAttempts` through, the current one at most its count. */
  ghost predicate Rationed(passes: seq<Pass>, r: Option<Record>, lim: Limits) {
    && (forall period :: CountPeriod(passes, period) <= if lim.maxAttempts < 0 then 0 else lim.maxAttempts)
    && (r.None? ==> passes == [])
    && (r.Some? ==>
      && CountPeriod(passes, r.value.firstAt) <= r.value.count
      && forall i :: 0 <= i < |passes| ==>
        passes[i].period == r.value.firstAt || passes[i].period + lim.lockMs < r.value.firstAt)
  }

  lemma CountPeriodSnoc(passes: seq<Pass>, p: Pass, period: int)
    ensures CountPeriod(passes + [p], period) == CountPeriod(passes, period) + if p.period == period then 1 else 0
  {
    assert (passes + [p])[..|passes|] == passes;
  }

  lemma {:induction false} NoneInPeriod(passes: seq<Pass>, period: int)
    requires forall i :: 0 <= i < |passes| ==> passes[i].period != period
    ensures CountPeriod(passes, period) == 0
  {
    if passes != [] {
      NoneInPeriod(passes[..|passes| - 1], period);
    }
  }

  /** What the passes and the record of a phone look like at `now`. */
  ghost predicate Regular(passes: seq<Pass>, r: Option<Record>, now: int, lim: Limits) {
    && Apart(passes, lim.lockMs) && Rationed(passes, r, lim)
    && (r.Some? ==> r.value.firstAt <= now)
    && forall i :: 0 <= i < |passes| ==> passes[i].at <= now
  }

  lemma PassKeepsApart(passes: seq<Pass>, r: Option<Record>, now: nat, lim: Limits)
    requires Regular(passes, r, now, lim) && Passes(r, now, lim)
    ensures Apart(passes + [Pass(now, Period(r, now, lim).firstAt)], lim.lockMs)
  {
    hide CountPeriod;
  }

  lemma PassKeepsRegular(passes: seq<Pass>, r: Option<Record>, now: nat, lim: Limits)
    requires Regular(passes, r, now, lim) && Passes(r, now, lim)
    ensures Regular(passes + [Pass(now, Period(r, now, lim).firstAt)], Tried(r, now, lim), now, lim)
  {
    PassKeepsApart(passes, r, now, lim);
    PassKeepsRationed(passes, r, now, lim);
    hide Apart, Rationed, Passes;
  }

  lemma PassKeepsRationed(passes: seq<Pass>, r: Option<Record>, now: nat, lim: Limits)
    requires Regular(passes, r, now, lim) && Passes(r, now, lim)
    ensures Rationed(passes + [Pass(now, Period(r, now, lim).firstAt)], Tried(r, now, lim), lim)
  {
    var p := Pass(now, Period(r, now, lim).firstAt);
    forall period
      ensures CountPeriod(passes + [p], period) == CountPeriod(passes, period) + if p.period == period then 1 else 0
    {
      CountPeriodSnoc(passes, p, period);
    }
    if r.None? || now - r.value.firstAt > lim.lockMs {
      NoneInPeriod(passes, now);
    }
    hide CountPeriod;
  }

  lemma RefusalKeepsRegular(passes: seq<Pass>, r: Option<Record>, now: nat, lim: Limits)
    requires Regular(passes, r, now, lim) && !Passes(r, now, lim)
    ensures Regular(passes, Tried(r, now, lim), now, lim)
  {
    if r.Some? && now - r.value.firstAt > lim.lockMs {
      NoneInPeriod(passes, now);
    }
    hide CountPeriod;
  }

  lemma LaterIsRegular(passes: seq<Pass>, r: Option<Record>, at: int, now: int, lim: Limits)
    requires Regular(passes, r, at, lim) && at <= now
    ensures Regular(passes, r, now, lim)
  {
  }

  lemma {:induction false} RunsAreRegular(start: Option<Record>, begin: nat, events: seq<Event>, phone: string,
      lim: Limits, now: int)
    requires Monotone(begin, events, now) && (start.Some? ==> start.value.firstAt <= begin)
    ensures Regular(PassList(start, events, phone, lim, false), After(start, events, phone, lim, false), now, lim)
  {
    if events != [] {
      hide Regular, Tried, Passes, Period;
      var init, last := events[..|events| - 1], events[|events| - 1];
      RunsAreRegular(start, begin, init, phone, lim, last.at);
      var passes, r := PassList(start, init, phone, lim, false), After(start, init, phone, lim, false);
      if last.Try? && last.phone == phone {
        if Passes(r, last.at, lim) {
          PassKeepsRegular(passes, r, last.at, lim);
        } else {
          RefusalKeepsRegular(passes, r, last.at, lim);
        }
      }
      var after := After(start, events, phone, lim, false);
      LaterIsRegular(PassList(start, events, phone, lim, false), after, last.at, now, lim);
    }
  }

  /** The passes of a stretch no longer than `lockMs` belong to at most two periods. */
  lemma TwoPeriods(passes: seq<Pass>, lockMs: nat, start: int) returns (f: int, g: int)
    requires Apart(passes, lockMs)
    ensures forall i :: 0 <= i < |passes| && start <= passes[i].at <= start + lockMs ==> passes[i].period in {f, g}
  {
    f, g := 0, 0;
    var end := start + lockMs;
    if i, j :|
      0 <= i < j < |passes| && start <= passes[i].at <= end && start <= passes[j].at <= end
      && passes[i].period != passes[j].period {
      f, g := passes[i].period, passes[j].period;
    } else if i :| 0 <= i < |passes| && start <= passes[i].at <= end {
      f, g := passes[i].period, passes[i].period;
    }
  }

  lemma {:induction false} WithinPeriods(passes: seq<Pass>, start: int, end: int, f: int, g: int)
    requires forall i :: 0 <= i < |passes| && start <= passes[i].at <= end ==> passes[i].period in {f, g}
    ensures CountWithin(passes, start, end) <= CountPeriod(passes, f) + CountPeriod(passes, g)
  {
    if passes != [] {
      WithinPeriods(passes[..|passes| - 1], start, end, f, g);
    }
  }

  lemma {:induction false} SamePasses(start: Option<Record>, begin: nat, events: seq<Event>, phone: string,
      lim: Limits, now: int)
    requires Monotone(begin, events, now) && lim.lockMs <= CLEANUP_MS
    ensures |PassList(start, events, phone, lim, true)| == |PassList(start, events, phone, lim, false)|
    ensures forall i :: 0 <= i < |PassList(start, events, phone, lim, true)| ==>
      PassList(start, events, phone, lim, true)[i].at == PassList(start, events, phone, lim, false)[i].at
  {
    if events != [] {
      var init, last := events[..|events| - 1], events[|events| - 1];
      SamePasses(start, begin, init, phone, lim, last.at);
      CleanupInvisible(start, begin, init, phone, lim, last.at);
    }
  }

  lemma {:induction false} SameCount(a: seq<Pass>, b: seq<Pass>, start: int, end: int)
    requires |a| == |b| && forall i :: 0 <= i < |a| ==> a[i].at == b[i].at
    ensures CountWithin(a, start, end) == CountWithin(b, start, end)
  {
    if a != [] {
      SameCount(a[..|a| - 1], b[..|b| - 1], start, end);
    }
  }

  /** No closed stretch of `lockMs`, cleanups included, lets more than twice the allowed attempts through. */
  lemma TwiceBound(start: Option<Record>, begin: nat, events: seq<Event>, phone: string,
      lim: Limits, now: int, from: int)
    requires Monotone(begin, events, now) && (start.Some? ==> start.value.firstAt <= begin)
    requires lim.lockMs <= 300000 && lim.maxAttempts >= 0
    ensures CountWithin(PassList(start, events, phone, lim, true), from, from + lim.lockMs) <= 2 * lim.maxAttempts
  {
    RunsAreRegular(start, begin, events, phone, lim, now);
    var passes := PassList(start, events, phone, lim, false);
    var f, g := TwoPeriods(passes, lim.lockMs, from);
    WithinPeriods(passes, from, from + lim.lockMs, f, g);
    SamePasses(start, begin, events, phone, lim, now);
    SameCount(PassList(start, events, phone, lim, true), passes, from, from + lim.lockMs);
    hide CountWithin, CountPeriod, Apart;
  }

  // ---- the middleware and its store -----------------------------------------------------------

  function Seconds(ms: int): int {
    ms / 1000
  }

  function CeilSeconds(ms: int): int {
    (ms + 999) / 1000
  }

  /** The row loaded for a lock that was saved as whole seconds, if it is still due. */
  function Loaded(saved: Option<int>, now: int): Option<Record> {
    if saved.Some? && saved.value > Seconds(now) then Some(Record(0, now, saved.value * 1000)) else None
  }

  /** A lock saved and loaded again ends less than a second early and never late. */
  lemma ReloadedLock(r: Option<Record>, restart: int, now: int)
    requires restart <= now
    ensures var saved := if r.Some? then Some(Seconds(r.value.lockedUntil)) else None;
      && (Locked(Loaded(saved, restart), now) ==> Locked(r, now))
      && (Locked(r, now + 999) ==> Locked(Loaded(saved, restart), now))
  {
  }

  /** A lock that reaches into a later second is saved, and no other row does. */
  ghost predicate SavedFor(r: Option<Record>, row: Option<int>, clock: int) {
    && (r.Some? && Seconds(r.value.lockedUntil) > Seconds(clock) ==> row == Some(Seconds(r.value.lockedUntil)))
    && (row.Some? && row.value > Seconds(clock) ==> r.Some? && Seconds(r.value.lockedUntil) == row.value)
  }

  /** The table forgets locks that end by the current second. */
  function DueRow(row: Option<int>, now: int): Option<int> {
    if row.Some? && row.value > Seconds(now) then row else None
  }

  lemma SavedLater(r: Option<Record>, row: Option<int>, clock: int, now: int)
    requires SavedFor(r, row, clock) && clock <= now
    ensures SavedFor(r, row, now)
    ensures SavedFor(Swept(r, now), DueRow(row, now), now)
    ensures SavedFor(Loaded(row, now), row, now)
  {
  }

  lemma SavedTry(r: Option<Record>, row: Option<int>, now: int, lim: Limits)
    requires SavedFor(r, row, now) && !Locked(r, now) && now >= 0
    ensures var tried := Tried(r, now, lim);
      && (Passes(r, now, lim) ==> SavedFor(tried, row, now))
      && (!Passes(r, now, lim) ==> SavedFor(tried, Some(Seconds(tried.value.lockedUntil)), now))
  {
  }

  lemma AfterTry(start: Option<Record>, events: seq<Event>, phone: string, lim: Limits,
      sweeping: bool, p: string, now: int)
    ensures var before := After(start, events, phone, lim, sweeping);
      After(start, events + [Try(p, now)], phone, lim, sweeping)
        == if p == phone then Tried(before, now, lim) else before
  {
    assert (events + [Try(p, now)])[..|events|] == events;
  }

  ghost function At<T>(table: map<string, T>, phone: string): Option<T> {
    if phone in table then Some(table[phone]) else None
  }

  /** The records are those of the run so far. */
  ghost predicate Followed(loaded: map<string, Record>, events: seq<Event>, records: map<string, Record>, lim: Limits) {
    forall p :: At(records, p) == After(At(loaded, p), events, p, lim, true)
  }

  ghost predicate AllSaved(records: map<string, Record>, saved: map<string, int>, clock: int) {
    forall p :: SavedFor(At(records, p), At(saved, p), clock)
  }

  /** Only this phone's record counts the attempt. */
  ghost predicate OneTried(before: map<string, Record>, records: map<string, Record>, phone: string, now: int,
      lim: Limits) {
    forall p :: At(records, p) == if p == phone then Tried(At(before, p), now, lim) else At(before, p)
  }

  /** The table learns of a lock that begins. */
  function RowsAfterTry(saved: map<string, int>, r: Option<Record>, phone: string, now: int, lim: Limits)
    : map<string, int>
  {
    if Locked(r, now) || Passes(r, now, lim) then saved
    else saved[phone := Seconds(now + lim.lockMs)]
  }

  function DueRows(saved: map<string, int>, now: int): (due: map<string, int>)
    ensures forall p :: At(due, p) == DueRow(At(saved, p), now)
  {
    map p | p in saved && saved[p] > Seconds(now) :: saved[p]
  }

  /** What a restart keeps of a phone: its lock if it is still due, without any attempts. */
  ghost function Kept(saved: map<string, int>, phone: string, now: int): Option<Record> {
    if phone in saved && saved[phone] * 1000 > now then Some(Record(0, now, saved[phone] * 1000)) else None
  }

  function LoadedFrom(saved: map<string, int>, now: int): (loaded: map<string, Record>)
    ensures forall p :: At(loaded, p) == Loaded(At(saved, p), now)
  {
    map p | p in saved && saved[p] > Seconds(now) :: Record(0, now, saved[p] * 1000)
  }

  lemma TryIsFollowed(loaded: map<string, Record>, events: seq<Event>, before: map<string, Record>,
      records: map<string, Record>, phone: string, now: int, lim: Limits)
    requires Followed(loaded, events, before, lim) && OneTried(before, records, phone, now, lim)
    ensures Followed(loaded, events + [Try(phone, now)], records, lim)
  {
    hide After, Tried, At;
    forall p
      ensures At(records, p) == After(At(loaded, p), events + [Try(phone, now)], p, lim, true)
    {
      AfterTry(At(loaded, p), events, p, lim, true, phone, now);
    }
  }

  lemma TryIsSaved(before: map<string, Record>, records: map<string, Record>,
      saved: map<string, int>, phone: string, clock: int, now: nat, lim: Limits)
    requires AllSaved(before, saved, clock) && clock <= now && OneTried(before, records, phone, now, lim)
    ensures AllSaved(records, RowsAfterTry(saved, At(before, phone), phone, now, lim), now)
  {
    hide SavedFor;
    var rows := RowsAfterTry(saved, At(before, phone), phone, now, lim);
    forall p
      ensures SavedFor(At(records, p), At(rows, p), now)
    {
      SavedLater(At(before, p), At(saved, p), clock, now);
      if p == phone && !Locked(At(before, p), now) {
        SavedTry(At(before, p), At(saved, p), now, lim);
      }
    }
  }

  lemma SweepIsFollowed(loaded: map<string, Record>, events: seq<Event>, before: map<string, Record>,
      records: map<string, Record>, now: int, lim: Limits)
    requires Followed(loaded, events, before, lim) && forall p :: At(records, p) == Swept(At(before, p), now)
    ensures Followed(loaded, events + [Sweep(now)], records, lim)
  {
    hide After, Swept, At;
    forall p
      ensures At(records, p) == After(At(loaded, p), events + [Sweep(now)], p, lim, true)
    {
      AfterSweep(At(loaded, p), events, p, lim, true, now);
    }
  }

  lemma SweepIsSaved(before: map<string, Record>, records: map<string, Record>,
      saved: map<string, int>, clock: int, now: int)
    requires AllSaved(before, saved, clock) && clock <= now && forall p :: At(records, p) == Swept(At(before, p), now)
    ensures AllSaved(records, DueRows(saved, now), now)
  {
    hide SavedFor, Swept, DueRow, At;
    forall p
      ensures SavedFor(At(records, p), At(DueRows(saved, now), p), now)
    {
      SavedLater(At(before, p), At(saved, p), clock, now);
    }
  }

  lemma SavedStays(records: map<string, Record>, saved: map<string, int>, clock: int, now: int)
    requires AllSaved(records, saved, clock) && clock <= now
    ensures AllSaved(records, saved, now)
  {
    hide At;
  }

  lemma LoadIsSaved(before: map<string, Record>, saved: map<string, int>, clock: int, now: int)
    requires AllSaved(before, saved, clock) && clock <= now
    ensures AllSaved(LoadedFrom(saved, now), saved, now)
    ensures forall p :: At(LoadedFrom(saved, now), p) == Kept(saved, p, now)
    ensures forall p, t :: t >= now ==>
      && (Locked(At(LoadedFrom(saved, now), p), t) ==> Locked(At(before, p), t))
      && (Locked(At(before, p), t + 999) ==> Locked(At(LoadedFrom(saved, now), p), t))
  {
  }

  /** The cleanup drops exactly the records whose lock is over and whose period began more than five minutes ago. */
  lemma SweptExactly(r: Record, now: int)
    ensures Swept(Some(r), now) == if r.lockedUntil < now && r.firstAt + 300000 < now then None else Some(r)
    ensures Swept(None, now) == None
  {
  }

  /** A saved lock is dropped exactly once it is over. */
  lemma DueRowExactly(row: int, now: int)
    ensures DueRow(Some(row), now) == if row * 1000 > now then Some(row) else None
    ensures DueRow(None, now) == None
  {
  }

  datatype Verdict = Passed | Refused(retryAfter: int)

  /** What an attempt is answered: a refused one is told the least number of seconds until the lock is over. */
  ghost predicate Answers(v: Verdict, r: Option<Record>, now: int, lim: Limits) {
    && (v.Passed? <==> Passes(r, now, lim))
    && (v.Refused? ==> !Locked(Tried(r, now, lim), now + v.retryAfter * 1000))
    && (v.Refused? ==> Locked(Tried(r, now, lim), now + (v.retryAfter - 1) * 1000))
  }

  /** `phoneRateLimitMap` and the table of saved locks, in Unix seconds. */
  class Limiter {
    const lim: Limits
    var records: map<string, Record>
    var saved: map<string, int>
    /** The records at the last start and what has happened since. */
    ghost var loaded: map<string, Record>
    ghost var events: seq<Event>
    ghost var begin: nat
    ghost var clock: nat

    ghost function RecordOf(phone: string): Option<Record>
      reads this`records
    {
      At(records, phone)
    }

    ghost predicate Valid()
      reads this
    {
      && Monotone(begin, events, clock)
      && Followed(loaded, events, records, lim)
      && AllSaved(records, saved, clock)
    }

    constructor (lim: Limits)
      ensures Valid() && this.lim == lim && records == map[] && clock == 0
    {
      this.lim := lim;
      records, saved, loaded, events, begin, clock := map[], map[], map[], [], 0, 0;
    }

    /** Counts an attempt; requests without a phone are not limited. */
    method Attempt(phone: string, now: nat) returns (v: Verdict)
      requires Valid() && now >= clock
      modifies this
      ensures Valid() && clock == now && begin == old(begin) && loaded == old(loaded)
      ensures phone == "" ==> v.Passed? && events == old(events) && records == old(records) && saved == old(saved)
      ensures phone != "" ==>
        && events == old(events) + [Try(phone, now)]
        && (v.Passed? <==> Passes(old(RecordOf(phone)), now, lim))
        && RecordOf(phone) == Tried(old(RecordOf(phone)), now, lim)
        && (forall other :: other != phone ==> RecordOf(other) == old(RecordOf(other)))
        && saved == RowsAfterTry(old(saved), old(RecordOf(phone)), phone, now, lim)
      ensures v.Refused? ==> !Locked(RecordOf(phone), now + v.retryAfter * 1000)
      ensures v.Refused? ==> Locked(RecordOf(phone), now + (v.retryAfter - 1) * 1000)
    {
      hide Followed, AllSaved, SavedFor, RowsAfterTry, Tried, Passes, Locked;
      if phone == "" {
        SavedStays(records, saved, clock, now);
        clock := now;
        return Passed;
      }
      ghost var before, rows := records, saved;
      v := Count(phone, now);
      TryIsFollowed(loaded, events, before, records, phone, now, lim);
      TryIsSaved(before, records, rows, phone, clock, now, lim);
      clock := now;
      events := events + [Try(phone, now)];
    }

    /** The attempt itself, once the clock has been read. */
    method Count(phone: string, now: nat) returns (v: Verdict)
      modifies this`records, this`saved
      ensures OneTried(old(records), records, phone, now, lim)
      ensures saved == RowsAfterTry(old(saved), At(old(records), phone), phone, now, lim)
      ensures Answers(v, At(old(records), phone), now, lim)
    {
      var record := if phone in records then records[phone] else Record(0, now, 0);
      if record.lockedUntil > now {
        return Refused(CeilSeconds(record.lockedUntil - now));
      }
      if now - record.firstAt > lim.lockMs {
        record := record.(count := 0, firstAt := now);
      }
      record := record.(count := record.count + 1);
      if record.count > lim.maxAttempts {
        record := record.(lockedUntil := now + lim.lockMs);
        records := records[phone := record];
        saved := saved[phone := Seconds(record.lockedUntil)];
        return Refused(CeilSeconds(lim.lockMs));
      }
      records := records[phone := record];
      return Passed;
    }

    /** Drops records that are neither locked nor recent, and rows of locks that are over. */
    method Cleanup(now: nat)
      requires Valid() && now >= clock
      modifies this
      ensures Valid() && clock == now && events == old(events) + [Sweep(now)] && begin == old(begin)
        && loaded == old(loaded)
      ensures forall phone :: RecordOf(phone) == Swept(old(RecordOf(phone)), now)
      ensures forall phone :: At(saved, phone) == DueRow(At(old(saved), phone), now)
    {
      hide Followed, AllSaved, SavedFor, Swept, DueRow, At;
      ghost var before, rows := records, saved;
      SweepRecords(now);
      SweepIsFollowed(loaded, events, before, records, now, lim);
      SweepIsSaved(before, records, rows, clock, now);
      saved := DueRows(saved, now);
      clock := now;
      events := events + [Sweep(now)];
    }

    method SweepRecords(now: nat)
      modifies this`records
      ensures forall phone :: At(records, phone) == Swept(At(old(records), phone), now)
    {
      var todo := records.Keys;
      while todo != {}
        invariant todo <= records.Keys <= old(records).Keys
        invariant forall phone :: phone in records ==> records[phone] == old(records)[phone]
        invariant forall phone :: phone in old(records) && phone !in todo ==>
          At(records, phone) == Swept(Some(old(records)[phone]), now)
        decreases |todo|
      {
        var phone :| phone in todo;
        todo := todo - {phone};
        if records[phone].lockedUntil < now && now - records[phone].firstAt > CLEANUP_MS {
          records := records - {phone};
        }
      }
    }

    /** A new process loads the locks that are still due; everything else is forgotten. */
    method Restart(now: nat)
      requires Valid() && now >= clock
      modifies this
      ensures Valid() && clock == begin == now && events == []
      ensures forall phone :: RecordOf(phone) == Kept(old(saved), phone, now)
      ensures forall phone, t :: t >= now ==>
        && (Locked(RecordOf(phone), t) ==> Locked(old(RecordOf(phone)), t))
        && (Locked(old(RecordOf(phone)), t + 999) ==> Locked(RecordOf(phone), t))
    {
      LoadIsSaved(records, saved, clock, now);
      hide AllSaved, SavedFor, Locked, At, Loaded;
      records := LoadedFrom(saved, now);
      loaded, events, begin, clock := records, [], now, now;
    }
  }
}
