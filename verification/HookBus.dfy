/**
 The hook bus of src/application/extensions/hookBus.js: handlers run in registration
 order behind a circuit breaker per extension, failures never stop the platform, and
 only a `Before` handler's veto ends a run early. What handlers return and what the
 clock says are parameters.
 */
module HookBus {
  import opened Wrappers

  /** `id` tells apart registrations of the same extension. */
  datatype Entry = Entry(extId: string, id: nat)

  datatype Breaker = Breaker(failures: nat, openUntil: int)

  /** How one handler call went. */
  datatype Outcome = Returned(cancel: bool, reason: string) | Threw(message: string) | TimedOut

  /** The clock before and after a call, and its outcome. */
  datatype Call = Call(start: int, outcome: Outcome, end: int)

  datatype Result = Skipped(extId: string) | Succeeded(extId: string) | Failed(extId: string, message: string)

  datatype Report = Report(cancelled: bool, reason: string, results: seq<Result>)

  datatype Event = Settled(extId: string, ok: bool, at: int) | Removed(extId: string)

  datatype Settings = Settings(threshold: nat, cooldownMs: nat)

  predicate IsBlocking(hook: string) {
    "Before" <= hook
  }

  // ---- the breaker ------------------------------------------------------------------------

  function AfterOutcome(b: Breaker, ok: bool, at: int, s: Settings): Breaker {
    if ok then Breaker(0, 0)
    else
      var failures := b.failures + 1;
      Breaker(failures, if failures >= s.threshold then at + s.cooldownMs else b.openUntil)
  }

  /** The breaker of an extension after these events, as `recordOutcome` and `removeExtension` leave it. */
  function BreakerAfter(events: seq<Event>, extId: string, s: Settings): Breaker {
    if events == [] then Breaker(0, 0)
    else
      var before := BreakerAfter(events[..|events| - 1], extId, s);
      match events[|events| - 1]
      case Settled(e, ok, at) => if e == extId then AfterOutcome(before, ok, at, s) else before
      case Removed(e) => if e == extId then Breaker(0, 0) else before
  }

  lemma BreakerStep(events: seq<Event>, event: Event, extId: string, s: Settings)
    ensures var before := BreakerAfter(events, extId, s);
      BreakerAfter(events + [event], extId, s)
      == if event.extId != extId then before
         else if event.Removed? then Breaker(0, 0)
         else AfterOutcome(before, event.ok, event.at, s)
  {
    assert (events + [event])[..|events|] == events;
  }

  predicate IsOpen(b: Breaker, now: int) {
    b.openUntil != 0 && now < b.openUntil
  }

  /** The failures since the extension last succeeded or was removed. */
  function FailureStreak(events: seq<Event>, extId: string): seq<int> {
    if events == [] then []
    else
      var before := FailureStreak(events[..|events| - 1], extId);
      match events[|events| - 1]
      case Settled(e, ok, at) => if e != extId then before else if ok then [] else before + [at]
      case Removed(e) => if e == extId then [] else before
  }

  /** Call times are positive, as milliseconds since the epoch are. */
  ghost predicate PositiveTimes(events: seq<Event>) {
    forall i :: 0 <= i < |events| && events[i].Settled? ==> events[i].at > 0
  }

  /** The breaker is open exactly while the last of at least `threshold` failures in a row is recent. */
  lemma OpenExactly(events: seq<Event>, extId: string, s: Settings, now: int)
    requires PositiveTimes(events) && s.threshold >= 1
    ensures var streak := FailureStreak(events, extId);
      IsOpen(BreakerAfter(events, extId, s), now)
      <==> |streak| >= s.threshold && now < streak[|streak| - 1] + s.cooldownMs
  {
    BreakerIsStreak(events, extId, s);
  }

  lemma {:induction false} BreakerIsStreak(events: seq<Event>, extId: string, s: Settings)
    requires PositiveTimes(events) && s.threshold >= 1
    ensures var streak := FailureStreak(events, extId);
      && BreakerAfter(events, extId, s)
         == Breaker(|streak|, if |streak| >= s.threshold then streak[|streak| - 1] + s.cooldownMs else 0)
      && forall i :: 0 <= i < |streak| ==> streak[i] > 0
  {
    if events != [] {
      BreakerIsStreak(events[..|events| - 1], extId, s);
    }
  }

  // ---- one run --------------------------------------------------------------------------------

  predicate Succeeds(o: Outcome) {
    o.Returned?
  }

  function ResultOf(events: seq<Event>, s: Settings, e: Entry, c: Call): Result {
    if IsOpen(BreakerAfter(events, e.extId, s), c.start) then Skipped(e.extId)
    else
      match c.outcome
      case Returned(_, _) => Succeeded(e.extId)
      case Threw(message) => Failed(e.extId, message)
      case TimedOut => Failed(e.extId, "timeout")
  }

  function EventsOf(events: seq<Event>, s: Settings, e: Entry, c: Call): seq<Event> {
    if IsOpen(BreakerAfter(events, e.extId, s), c.start) then []
    else [Settled(e.extId, Succeeds(c.outcome), c.end)]
  }

  /** The events once the first `n` handlers have had their turn. */
  function EventsBy(events: seq<Event>, s: Settings, handlers: seq<Entry>, calls: nat -> Call, n: nat): seq<Event>
    requires n <= |handlers|
  {
    if n == 0 then events
    else
      var before := EventsBy(events, s, handlers, calls, n - 1);
      before + EventsOf(before, s, handlers[n - 1], calls(n - 1))
  }

  /** The `i`-th handler is called, on a blocking hook, and asks to cancel. */
  ghost predicate Vetoes(events: seq<Event>, s: Settings, hook: string, handlers: seq<Entry>, calls: nat -> Call,
                         i: nat)
    requires i < |handlers|
  {
    && IsBlocking(hook)
    && ResultOf(EventsBy(events, s, handlers, calls, i), s, handlers[i], calls(i)).Succeeded?
    && calls(i).outcome.Returned? && calls(i).outcome.cancel
  }

  /** The results of the first `n` handlers: each skipped, called or failed by its own breaker and call alone. */
  ghost predicate ResultsRight(events: seq<Event>, s: Settings, handlers: seq<Entry>, calls: nat -> Call,
      results: seq<Result>) {
    && |results| <= |handlers|
    && forall i :: 0 <= i < |results| ==>
      results[i] == ResultOf(EventsBy(events, s, handlers, calls, i), s, handlers[i], calls(i))
  }

  function ReasonOf(e: Entry, o: Outcome): string
    requires o.Returned?
  {
    if o.reason != "" then o.reason else "cancelled by " + e.extId
  }

  /**
   What a run reports: handlers in order up to the first veto, all of them if there is none;
   cancelled exactly by a veto, so never by a failure, a timeout or an observational hook.
   */
  ghost predicate ReportRight(events: seq<Event>, s: Settings, hook: string, handlers: seq<Entry>,
      calls: nat -> Call, r: Report) {
    var n := |r.results|;
    && ResultsRight(events, s, handlers, calls, r.results)
    && (forall i :: 0 <= i < n - 1 ==> !Vetoes(events, s, hook, handlers, calls, i))
    && (r.cancelled <==> n > 0 && Vetoes(events, s, hook, handlers, calls, n - 1))
    && (!r.cancelled ==> n == |handlers| && r.reason == "")
    && (r.cancelled ==> r.reason == ReasonOf(handlers[n - 1], calls(n - 1).outcome))
  }

  /** The first handlers have had their turn and none of them has ended the run. */
  ghost predicate Underway(events: seq<Event>, s: Settings, hook: string, handlers: seq<Entry>, calls: nat -> Call,
                           results: seq<Result>, now: seq<Event>)
  {
    && ResultsRight(events, s, handlers, calls, results)
    && now == EventsBy(events, s, handlers, calls, |results|)
    && forall i :: 0 <= i < |results| ==> !Vetoes(events, s, hook, handlers, calls, i)
  }

  lemma ResultsGrow(events: seq<Event>, s: Settings, handlers: seq<Entry>, calls: nat -> Call,
                    results: seq<Result>, result: Result)
    requires ResultsRight(events, s, handlers, calls, results) && |results| < |handlers|
    requires var i := |results|;
      result == ResultOf(EventsBy(events, s, handlers, calls, i), s, handlers[i], calls(i))
    ensures ResultsRight(events, s, handlers, calls, results + [result])
  {
    hide ResultOf, EventsBy;
    var longer := results + [result];
    forall i | 0 <= i < |longer|
      ensures longer[i] == ResultOf(EventsBy(events, s, handlers, calls, i), s, handlers[i], calls(i))
    {
      if i < |results| {
        assert longer[i] == results[i];
      }
    }
  }

  lemma VetoIsResult(events: seq<Event>, s: Settings, hook: string, handlers: seq<Entry>,
                     calls: nat -> Call, i: nat, result: Result)
    requires i < |handlers|
    requires result == ResultOf(EventsBy(events, s, handlers, calls, i), s, handlers[i], calls(i))
    ensures Vetoes(events, s, hook, handlers, calls, i) <==>
      (result.Succeeded? && IsBlocking(hook) && calls(i).outcome.Returned? && calls(i).outcome.cancel)
  {
    hide ResultOf, EventsBy, IsBlocking;
  }

  /** What the `i`-th handler's turn adds, given the events before it. */
  lemma NextTurn(events: seq<Event>, s: Settings, hook: string, handlers: seq<Entry>,
                 calls: nat -> Call, results: seq<Result>, now: seq<Event>)
    requires Underway(events, s, hook, handlers, calls, results, now) && |results| < |handlers|
    ensures var i := |results|;
      var result := ResultOf(now, s, handlers[i], calls(i));
      && ResultsRight(events, s, handlers, calls, results + [result])
      && now + EventsOf(now, s, handlers[i], calls(i)) == EventsBy(events, s, handlers, calls, i + 1)
      && (Vetoes(events, s, hook, handlers, calls, i) <==>
        result.Succeeded? && IsBlocking(hook) && calls(i).outcome.Returned? && calls(i).outcome.cancel)
  {
    hide ResultOf, EventsOf, EventsBy, IsBlocking, ResultsRight, Vetoes;
    var i := |results|;
    EventsGrow(events, s, handlers, calls, i);
    ResultsGrow(events, s, handlers, calls, results, ResultOf(now, s, handlers[i], calls(i)));
    VetoIsResult(events, s, hook, handlers, calls, i, ResultOf(now, s, handlers[i], calls(i)));
  }

  lemma TurnEnds(events: seq<Event>, s: Settings, hook: string, handlers: seq<Entry>,
                 calls: nat -> Call,
                 results: seq<Result>, now: seq<Event>, result: Result, later: seq<Event>)
    requires Underway(events, s, hook, handlers, calls, results, now) && |results| < |handlers|
    requires ResultsRight(events, s, handlers, calls, results + [result])
    requires later == EventsBy(events, s, handlers, calls, |results| + 1)
    ensures var i := |results|;
      if Vetoes(events, s, hook, handlers, calls, i)
      then ReportRight(events, s, hook, handlers, calls,
        Report(true, ReasonOf(handlers[i], calls(i).outcome), results + [result]))
      else Underway(events, s, hook, handlers, calls, results + [result], later)
  {
    hide ResultsRight, EventsBy, IsBlocking, ResultOf;
  }

  lemma EventsGrow(events: seq<Event>, s: Settings, handlers: seq<Entry>, calls: nat -> Call, n: nat)
    requires n < |handlers|
    ensures var before := EventsBy(events, s, handlers, calls, n);
      EventsBy(events, s, handlers, calls, n + 1) == before + EventsOf(before, s, handlers[n], calls(n))
  {
  }

  lemma NoVeto(events: seq<Event>, s: Settings, hook: string, handlers: seq<Entry>,
               calls: nat -> Call,
               results: seq<Result>, now: seq<Event>)
    requires Underway(events, s, hook, handlers, calls, results, now) && |results| == |handlers|
    ensures ReportRight(events, s, hook, handlers, calls, Report(false, "", results))
    ensures now == EventsBy(events, s, handlers, calls, |results|)
  {
  }

  /** Handlers that fail or time out, and hooks that only observe, never cancel anything. */
  lemma OnlyVetoesCancel(events: seq<Event>, s: Settings, hook: string, handlers: seq<Entry>,
      calls: nat -> Call, r: Report)
    requires ReportRight(events, s, hook, handlers, calls, r)
    requires !IsBlocking(hook) || forall i :: 0 <= i < |handlers| ==>
      !(calls(i).outcome.Returned? && calls(i).outcome.cancel)
    ensures !r.cancelled && |r.results| == |handlers|
  {
  }

  /** The hooks that can be vetoed are those whose name starts with `Before`. */
  lemma BlockingExactly(hook: string)
    ensures IsBlocking(hook) <==> |hook| >= 6 && hook[..6] == "Before"
  {
  }

  /**
   A handler is skipped exactly while its extension has failed `threshold` times in a row and
   the last failure is recent; otherwise it is called, and either succeeds or fails with its
   own message or a timeout.
   */
  ghost predicate Says(result: Result, streak: seq<int>, s: Settings, e: Entry, c: Call) {
    && result.extId == e.extId
    && (result.Skipped? <==> |streak| >= s.threshold && |streak| > 0 && c.start < streak[|streak| - 1] + s.cooldownMs)
    && (result.Succeeded? <==> !result.Skipped? && c.outcome.Returned?)
    && (result.Failed? && c.outcome.Threw? ==> result.message == c.outcome.message)
    && (result.Failed? && c.outcome.TimedOut? ==> result.message == "timeout")
  }

  lemma ResultSays(events: seq<Event>, s: Settings, e: Entry, c: Call)
    requires s.threshold >= 1 && PositiveTimes(events)
    ensures Says(ResultOf(events, s, e, c), FailureStreak(events, e.extId), s, e, c)
  {
    OpenExactly(events, e.extId, s, c.start);
    hide BreakerAfter, FailureStreak, IsOpen;
  }

  /** What a report says of each handler follows from the outcomes before its turn and its own call. */
  lemma ReportSays(events: seq<Event>, s: Settings, hook: string, handlers: seq<Entry>, calls: nat -> Call, r: Report,
                   i: nat)
    requires ReportRight(events, s, hook, handlers, calls, r) && i < |r.results| && s.threshold >= 1
    requires PositiveTimes(EventsBy(events, s, handlers, calls, i))
    ensures var before := EventsBy(events, s, handlers, calls, i);
      Says(r.results[i], FailureStreak(before, handlers[i].extId), s, handlers[i], calls(i))
  {
    hide EventsBy, FailureStreak, ResultOf, PositiveTimes, Says, Vetoes, ReasonOf;
    ResultSays(EventsBy(events, s, handlers, calls, i), s, handlers[i], calls(i));
  }

  /**
   A run is cancelled exactly if its last handler was called on a `Before` hook and asked for
   it; the reason is the handler's own, or names its extension.
   */
  ghost predicate VetoedByLast(hook: string, handlers: seq<Entry>, calls: nat -> Call, r: Report)
    requires |r.results| <= |handlers|
  {
    if r.results == [] then !r.cancelled
    else
      var last := |r.results| - 1;
      var o := calls(last).outcome;
      && (r.cancelled <==>
        |hook| >= 6 && hook[..6] == "Before" && r.results[last].Succeeded? && o.Returned? && o.cancel)
      && (r.cancelled && o.reason != "" ==> r.reason == o.reason)
      && (r.cancelled && o.reason == "" ==> r.reason == "cancelled by " + handlers[last].extId)
  }

  lemma VetoSays(events: seq<Event>, s: Settings, hook: string, handlers: seq<Entry>, calls: nat -> Call, r: Report)
    requires ReportRight(events, s, hook, handlers, calls, r)
    ensures |r.results| <= |handlers| && VetoedByLast(hook, handlers, calls, r)
  {
    hide EventsBy, ResultOf, IsBlocking, Vetoes;
    BlockingExactly(hook);
    if r.results != [] {
      var last := |r.results| - 1;
      VetoIsResult(events, s, hook, handlers, calls, last, r.results[last]);
      LastIsRight(events, s, hook, handlers, calls, r);
    }
  }

  lemma LastIsRight(events: seq<Event>, s: Settings, hook: string, handlers: seq<Entry>, calls: nat -> Call, r: Report)
    requires ReportRight(events, s, hook, handlers, calls, r) && r.results != []
    ensures var last := |r.results| - 1;
      r.results[last] == ResultOf(EventsBy(events, s, handlers, calls, last), s, handlers[last], calls(last))
  {
    hide EventsBy, ResultOf, Vetoes, ReasonOf;
  }

  /** A called handler leaves one event, its outcome at the time it ended; a skipped one leaves none. */
  lemma TurnsAreRecorded(events: seq<Event>, s: Settings, handlers: seq<Entry>, calls: nat -> Call, n: nat)
    requires n < |handlers|
    ensures var before, after := EventsBy(events, s, handlers, calls, n), EventsBy(events, s, handlers, calls, n + 1);
      if ResultOf(before, s, handlers[n], calls(n)).Skipped? then after == before
      else after == before + [Settled(handlers[n].extId, calls(n).outcome.Returned?, calls(n).end)]
  {
    EventsGrow(events, s, handlers, calls, n);
    hide EventsBy, BreakerAfter, IsOpen;
  }

  function Without(entries: seq<Entry>, extId: string): seq<Entry> {
    if entries == [] then []
    else
      var rest := Without(entries[1..], extId);
      if entries[0].extId == extId then rest else [entries[0]] + rest
  }

  lemma {:induction false} WithoutElements(entries: seq<Entry>, extId: string)
    ensures forall e :: e in Without(entries, extId) <==> e in entries && e.extId != extId
    ensures entries == [] ==> Without(entries, extId) == []
  {
    if entries != [] {
      WithoutElements(entries[1..], extId);
      assert entries == [entries[0]] + entries[1..];
    }
  }

  /** What is left keeps its order. */
  lemma {:induction false} WithoutAppend(a: seq<Entry>, b: seq<Entry>, extId: string)
    ensures Without(a + b, extId) == Without(a, extId) + Without(b, extId)
  {
    if a == [] {
      assert a + b == b;
    } else {
      assert (a + b)[1..] == a[1..] + b;
      WithoutAppend(a[1..], b, extId);
    }
  }

  /** Removes an extension's entries from the end to the start, in place. */
  method Splice(entries: seq<Entry>, extId: string) returns (r: seq<Entry>)
    ensures r == Without(entries, extId)
  {
    r := entries;
    var i := |entries|;
    while i > 0
      invariant 0 <= i <= |entries|
      invariant r == entries[..i] + Without(entries[i..], extId)
    {
      i := i - 1;
      assert entries[i..] == [entries[i]] + entries[i + 1..];
      assert r[..i] == entries[..i] && r[i] == entries[i] && r[i + 1..] == Without(entries[i + 1..], extId);
      if r[i].extId == extId {
        r := r[..i] + r[i + 1..];
      }
    }
  }

  // ---- the bus -----------------------------------------------------------------------------------

  class Bus {
    const settings: Settings
    const known: set<string>
    var registrations: map<string, seq<Entry>>
    var breakers: map<string, Breaker>
    var nextId: nat
    ghost var events: seq<Event>

    ghost predicate BreakersRight()
      reads this`breakers, this`events
    {
      forall extId ::
        (if extId in breakers then breakers[extId] else Breaker(0, 0)) == BreakerAfter(events, extId, settings)
    }

    ghost predicate IdsUsed()
      reads this`registrations, this`nextId
    {
      forall hook, e :: hook in registrations && e in registrations[hook] ==> e.id < nextId
    }

    ghost predicate Valid()
      reads this
    {
      BreakersRight() && IdsUsed()
    }

    ghost function Handlers(hook: string): seq<Entry>
      reads this`registrations
    {
      if hook in registrations then registrations[hook] else []
    }

    constructor (settings: Settings, known: set<string>)
      ensures Valid() && events == [] && registrations == map[] && this.settings == settings && this.known == known
    {
      this.settings, this.known := settings, known;
      registrations, breakers, nextId, events := map[], map[], 0, [];
    }

    /** Handlers join at the end of their hook's list. */
    method Register(hook: string, extId: string) returns (entry: Option<Entry>)
      requires Valid()
      modifies this`registrations, this`nextId
      ensures Valid()
      ensures entry.Some? <==> hook in known && extId != ""
      ensures entry.Some? ==>
        && entry.value.extId == extId
        && Handlers(hook) == old(Handlers(hook)) + [entry.value]
        && (forall h :: h != hook ==> Handlers(h) == old(Handlers(h)))
        && entry.value !in old(Handlers(hook))
      ensures entry.None? ==> registrations == old(registrations)
    {
      if hook !in known || extId == "" {
        return None;
      }
      var e := Entry(extId, nextId);
      nextId := nextId + 1;
      registrations := registrations[hook := (if hook in registrations then registrations[hook] else []) + [e]];
      return Some(e);
    }

    /** Every hook loses the extension's handlers, the others keep their order; its breaker is forgotten. */
    method RemoveExtension(extId: string)
      requires Valid()
      modifies this`registrations, this`breakers, this`events
      ensures Valid() && events == old(events) + [Removed(extId)]
      ensures forall hook :: Handlers(hook) == Without(old(Handlers(hook)), extId)
    {
      SpliceAll(extId);
      ghost var was, held := events, breakers;
      hide BreakerAfter;
      breakers := breakers - {extId};
      events := events + [Removed(extId)];
      forall e
        ensures (if e in breakers then breakers[e] else Breaker(0, 0)) == BreakerAfter(events, e, settings)
      {
        BreakerStep(was, Removed(extId), e, settings);
        assert (if e in held then held[e] else Breaker(0, 0)) == BreakerAfter(was, e, settings);
      }
    }

    method SpliceAll(extId: string)
      requires IdsUsed()
      modifies this`registrations
      ensures IdsUsed()
      ensures forall hook :: Handlers(hook) == Without(old(Handlers(hook)), extId)
    {
      hide Without;
      var todo := registrations.Keys;
      while todo != {}
        invariant todo <= registrations.Keys == old(registrations).Keys
        invariant forall hook :: hook in registrations ==>
          registrations[hook]
            == if hook in todo then old(registrations)[hook] else Without(old(registrations)[hook], extId)
        decreases |todo|
      {
        var hook :| hook in todo;
        todo := todo - {hook};
        var spliced := Splice(registrations[hook], extId);
        registrations := registrations[hook := spliced];
      }
      forall hook, e | hook in registrations && e in registrations[hook]
        ensures e.id < nextId
      {
        WithoutElements(old(registrations)[hook], extId);
      }
      WithoutElements([], extId);
    }

    method RecordOutcome(extId: string, ok: bool, at: int)
      requires Valid()
      modifies this`breakers, this`events
      ensures Valid() && events == old(events) + [Settled(extId, ok, at)]
    {
      var b := if extId in breakers then breakers[extId] else Breaker(0, 0);
      if ok {
        b := Breaker(0, 0);
      } else {
        b := b.(failures := b.failures + 1);
        if b.failures >= settings.threshold {
          b := b.(openUntil := at + settings.cooldownMs);
        }
      }
      ghost var was, held := events, breakers;
      hide BreakerAfter;
      breakers := breakers[extId := b];
      events := events + [Settled(extId, ok, at)];
      forall e
        ensures (if e in breakers then breakers[e] else Breaker(0, 0)) == BreakerAfter(events, e, settings)
      {
        BreakerStep(was, Settled(extId, ok, at), e, settings);
        assert (if e in held then held[e] else Breaker(0, 0)) == BreakerAfter(was, e, settings);
      }
    }

    /** Open exactly while a long enough streak of failures is recent. */
    method BreakerOpen(extId: string, now: int) returns (open: bool)
      requires Valid()
      ensures open == IsOpen(BreakerAfter(events, extId, settings), now)
      ensures PositiveTimes(events) && settings.threshold >= 1 ==>
        var streak := FailureStreak(events, extId);
        (open <==> |streak| >= settings.threshold && now < streak[|streak| - 1] + settings.cooldownMs)
    {
      if PositiveTimes(events) && settings.threshold >= 1 {
        OpenExactly(events, extId, settings, now);
      }
      var b := if extId in breakers then breakers[extId] else Breaker(0, 0);
      open := b.openUntil != 0 && now < b.openUntil;
    }

    /** One handler's turn. */
    method Turn(e: Entry, c: Call) returns (r: Result)
      requires Valid()
      modifies this`breakers, this`events
      ensures Valid()
      ensures r == ResultOf(old(events), settings, e, c)
      ensures events == old(events) + EventsOf(old(events), settings, e, c)
    {
      var open := BreakerOpen(e.extId, c.start);
      if open {
        return Skipped(e.extId);
      }
      RecordOutcome(e.extId, c.outcome.Returned?, c.end);
      match c.outcome
      case Returned(_, _) => return Succeeded(e.extId);
      case Threw(message) => return Failed(e.extId, message);
      case TimedOut => return Failed(e.extId, "timeout");
    }

    /** Runs the handlers of a hook as they were registered when the run began. */
    method Run(hook: string, calls: nat -> Call) returns (r: Report)
      requires Valid()
      modifies this`breakers, this`events
      ensures Valid()
      ensures ReportRight(old(events), settings, hook, Handlers(hook), calls, r)
      ensures events == EventsBy(old(events), settings, Handlers(hook), calls, |r.results|)
    {
      var handlers := if hook in registrations then registrations[hook] else [];
      assert Underway(events, settings, hook, handlers, calls, [], events);
      hide ReportRight, Underway, ResultsRight, Vetoes, EventsBy, ResultOf, EventsOf, BreakersRight, IdsUsed, ReasonOf;
      var results: seq<Result> := [];
      for i := 0 to |handlers|
        invariant Valid() && |results| == i
        invariant Underway(old(events), settings, hook, handlers, calls, results, events)
      {
        ghost var now := events;
        NextTurn(old(events), settings, hook, handlers, calls, results, now);
        var result := Turn(handlers[i], calls(i));
        TurnEnds(old(events), settings, hook, handlers, calls, results, now, result, events);
        results := results + [result];
        if result.Succeeded? && IsBlocking(hook) && calls(i).outcome.Returned? && calls(i).outcome.cancel {
          return Report(true, ReasonOf(handlers[i], calls(i).outcome), results);
        }
      }
      r := Report(false, "", results);
      NoVeto(old(events), settings, hook, handlers, calls, results, events);
    }
  }
}
