/**
 The sliding-window limiter of src/middleware/rateLimiter.js: each client's list of request
 times is pruned at every request and by a periodic cleanup, yet decides like the full
 history. `key` is what the request is attributed to.
 */
module RateLimiter {

  /** The cleanup keeps five minutes, whatever the window. */
  const CLEANUP_MS := 300000

  datatype Event = Request(key: string, at: int) | Cleanup(at: int)

  function Recent(times: seq<int>, cutoff: int): seq<int> {
    if times == [] then []
    else
      var kept := Recent(times[..|times| - 1], cutoff);
      if times[|times| - 1] > cutoff then kept + [times[|times| - 1]] else kept
  }

  /** What the limiter's map holds for a key; a deleted entry reads as the empty list. */
  function Stored(events: seq<Event>, key: string, windowMs: int): seq<int> {
    if events == [] then []
    else
      var before := Stored(events[..|events| - 1], key, windowMs);
      match events[|events| - 1]
      case Request(k, at) => if k == key then Recent(before, at - windowMs) + [at] else before
      case Cleanup(at) => Recent(before, at - CLEANUP_MS)
  }

  /** Every request of the key, accepted or not. */
  function History(events: seq<Event>, key: string): seq<int> {
    if events == [] then []
    else
      var before := History(events[..|events| - 1], key);
      match events[|events| - 1]
      case Request(k, at) => if k == key then before + [at] else before
      case Cleanup(_) => before
  }

  predicate Allows(times: seq<int>, at: int, maxRequests: int, windowMs: int) {
    |Recent(times, at - windowMs)| + 1 <= maxRequests
  }

  /** The clock does not run backwards, and is at most `now` by the end. */
  ghost predicate Monotone(events: seq<Event>, now: int) {
    && (forall i :: 0 <= i < |events| ==> events[i].at <= now)
    && forall i, j :: 0 <= i < j < |events| ==> events[i].at <= events[j].at
  }

  lemma RecentSnoc(times: seq<int>, t: int, cutoff: int)
    ensures Recent(times + [t], cutoff) == if t > cutoff then Recent(times, cutoff) + [t] else Recent(times, cutoff)
  {
    assert (times + [t])[..|times|] == times;
  }

  /** Pruning loses nothing that a later cutoff would keep. */
  lemma {:induction false} RecentOfRecent(times: seq<int>, earlier: int, cutoff: int)
    requires earlier <= cutoff
    ensures Recent(Recent(times, earlier), cutoff) == Recent(times, cutoff)
  {
    if times != [] {
      var init, last := times[..|times| - 1], times[|times| - 1];
      RecentOfRecent(init, earlier, cutoff);
      RecentSnoc(Recent(init, earlier), last, cutoff);
    }
  }

  /** Within the window, what is stored is the whole history. */
  lemma {:induction false} StoredIsHistory(events: seq<Event>, key: string, windowMs: int, now: int, cutoff: int)
    requires Monotone(events, now) && windowMs <= CLEANUP_MS && now - windowMs <= cutoff
    ensures Recent(Stored(events, key, windowMs), cutoff) == Recent(History(events, key), cutoff)
  {
    hide Recent;
    if events != [] {
      var init, last := events[..|events| - 1], events[|events| - 1];
      StoredIsHistory(init, key, windowMs, last.at, cutoff);
      var stored, history := Stored(init, key, windowMs), History(init, key);
      var pruned := Recent(stored, last.at - windowMs);
      RecentSnoc(pruned, last.at, cutoff);
      RecentSnoc(history, last.at, cutoff);
      RecentOfRecent(stored, last.at - if last.Request? then windowMs else CLEANUP_MS, cutoff);
    }
  }

  /** The key's requests in the run that came after `cutoff`. */
  ghost function RequestsSince(events: seq<Event>, key: string, cutoff: int): set<nat> {
    set i: nat | i < |events| && events[i].Request? && events[i].key == key && events[i].at > cutoff
  }

  lemma {:induction false} HistoryCounts(events: seq<Event>, key: string, cutoff: int)
    ensures |Recent(History(events, key), cutoff)| == |RequestsSince(events, key, cutoff)|
  {
    if events == [] {
      assert RequestsSince(events, key, cutoff) == {};
    } else {
      var init, last := events[..|events| - 1], events[|events| - 1];
      HistoryCounts(init, key, cutoff);
      if last.Request? && last.key == key {
        RecentSnoc(History(init, key), last.at, cutoff);
      }
      if last.Request? && last.key == key && last.at > cutoff {
        assert RequestsSince(events, key, cutoff) == RequestsSince(init, key, cutoff) + {|init|};
      } else {
        assert RequestsSince(events, key, cutoff) == RequestsSince(init, key, cutoff);
      }
      hide Recent;
    }
  }

  /**
   With a window of at most five minutes a request is allowed exactly if fewer than the
   allowed number of requests of its key came within the window before it.
   */
  lemma AllowedExactly(events: seq<Event>, key: string, maxRequests: int, windowMs: int, now: int)
    requires Monotone(events, now) && windowMs <= 300000
    ensures Allows(Stored(events, key, windowMs), now, maxRequests, windowMs) <==>
      |RequestsSince(events, key, now - windowMs)| < maxRequests
  {
    DecidesLikeHistory(events, key, maxRequests, windowMs, now);
    HistoryCounts(events, key, now - windowMs);
  }

  /** With a window of at most five minutes every request is decided as the full history would. */
  lemma DecidesLikeHistory(events: seq<Event>, key: string, maxRequests: int, windowMs: int,
      now: int)
    requires Monotone(events, now) && (windowMs <= CLEANUP_MS || maxRequests <= 0)
    ensures Allows(Stored(events, key, windowMs), now, maxRequests, windowMs)
      <==> Allows(History(events, key), now, maxRequests, windowMs)
  {
    if windowMs <= CLEANUP_MS {
      StoredIsHistory(events, key, windowMs, now, now - windowMs);
    }
  }

  function Burst(key: string, n: nat): seq<Event> {
    if n == 0 then [] else Burst(key, n - 1) + [Request(key, 0)]
  }

  lemma {:induction false} BurstTimes(key: string, n: nat)
    ensures |Burst(key, n)| == n && forall i :: 0 <= i < n ==> Burst(key, n)[i] == Request(key, 0)
  {
    if n > 0 {
      BurstTimes(key, n - 1);
    }
  }

  /** A burst at time zero counts in full at an earlier cutoff and not at all from zero on. */
  lemma {:induction false} BurstCounts(key: string, n: nat, windowMs: int, cutoff: int)
    requires windowMs > 0 && cutoff < 0
    ensures |Recent(History(Burst(key, n), key), cutoff)| == n
    ensures Recent(Stored(Burst(key, n), key, windowMs), 0) == []
  {
    hide Recent, Stored, History;
    if n == 0 {
      EmptyRun(key, windowMs);
      RecentEmpty(cutoff);
      RecentEmpty(0);
    } else {
      var init := Burst(key, n - 1);
      BurstCounts(key, n - 1, windowMs, cutoff);
      HistoryGrows(init, key, 0);
      RequestStored(init, key, 0, windowMs);
      var stored := Stored(init, key, windowMs);
      RecentSnoc(History(init, key), 0, cutoff);
      RecentSnoc(Recent(stored, -windowMs), 0, 0);
      RecentOfRecent(stored, -windowMs, 0);
      assert Recent(Recent(stored, -windowMs) + [0], 0) == [];
      assert Stored(init + [Request(key, 0)], key, windowMs) == Recent(stored, 0 - windowMs) + [0];
    }
  }

  lemma EmptyRun(key: string, windowMs: int)
    ensures History([], key) == [] && Stored([], key, windowMs) == []
  {
  }

  lemma HistoryGrows(events: seq<Event>, key: string, now: int)
    ensures History(events + [Request(key, now)], key) == History(events, key) + [now]
  {
    assert (events + [Request(key, now)])[..|events|] == events;
  }

  lemma RecentEmpty(cutoff: int)
    ensures Recent([], cutoff) == []
  {
  }

  /** A longer window forgets: after a full burst and one cleanup, one request too many gets through. */
  lemma LongerWindowForgets(maxRequests: int, windowMs: int) returns (events: seq<Event>, now: int)
    requires windowMs > CLEANUP_MS && maxRequests > 0
    ensures Monotone(events, now)
    ensures Allows(Stored(events, "client", windowMs), now, maxRequests, windowMs)
    ensures !Allows(History(events, "client"), now, maxRequests, windowMs)
  {
    var burst := Burst("client", maxRequests);
    now := CLEANUP_MS;
    events := burst + [Cleanup(now)];
    BurstTimes("client", maxRequests);
    BurstCounts("client", maxRequests, windowMs, now - windowMs);
    SweptStored(burst, now, windowMs);
    assert events[..|events| - 1] == burst;
    assert History(events, "client") == History(burst, "client");
    RecentEmpty(now - windowMs);
  }

  /** The exact condition under which no cleanup schedule can ever change a decision. */
  lemma CleanupHarmlessExactly(maxRequests: int, windowMs: int)
    ensures (windowMs <= 300000 || maxRequests <= 0) <==>
      (forall events, key, now :: Monotone(events, now) ==>
        (Allows(Stored(events, key, windowMs), now, maxRequests, windowMs)
         <==> Allows(History(events, key), now, maxRequests, windowMs)))
  {
    if windowMs <= CLEANUP_MS || maxRequests <= 0 {
      forall events, key, now | Monotone(events, now)
        ensures Allows(Stored(events, key, windowMs), now, maxRequests, windowMs)
          <==> Allows(History(events, key), now, maxRequests, windowMs)
      {
        DecidesLikeHistory(events, key, maxRequests, windowMs, now);
      }
    } else {
      var events, now := LongerWindowForgets(maxRequests, windowMs);
    }
  }

  // ---- the bound ----------------------------------------------------------------------------

  /** The times of the key's accepted requests. */
  function Accepted(events: seq<Event>, key: string, maxRequests: int, windowMs: int): seq<int> {
    if events == [] then []
    else
      var init, last := events[..|events| - 1], events[|events| - 1];
      var before := Accepted(init, key, maxRequests, windowMs);
      if last.Request? && last.key == key && Allows(Stored(init, key, windowMs), last.at, maxRequests, windowMs)
      then before + [last.at]
      else before
  }

  /** Every request that is allowed is listed, and no other. */
  lemma AllowedAreListed(events: seq<Event>, key: string, maxRequests: int, windowMs: int, at: int)
    ensures Accepted(events + [Request(key, at)], key, maxRequests, windowMs)
      == Accepted(events, key, maxRequests, windowMs)
         + if Allows(Stored(events, key, windowMs), at, maxRequests, windowMs) then [at] else []
  {
    assert (events + [Request(key, at)])[..|events|] == events;
  }

  /** How many of these times fall after `start` and not after `end`. */
  function CountWithin(times: seq<int>, start: int, end: int): nat {
    if times == [] then 0
    else
      var last := times[|times| - 1];
      CountWithin(times[..|times| - 1], start, end) + if start < last <= end then 1 else 0
  }

  lemma CountSnoc(times: seq<int>, t: int, start: int, end: int)
    ensures CountWithin(times + [t], start, end) == CountWithin(times, start, end) + if start < t <= end then 1 else 0
  {
    assert (times + [t])[..|times|] == times;
  }

  lemma {:induction false} AcceptedAreHistory(events: seq<Event>, key: string, maxRequests: int, windowMs: int,
      start: int, end: int, cutoff: int)
    requires cutoff <= start
    ensures CountWithin(Accepted(events, key, maxRequests, windowMs), start, end)
      <= |Recent(History(events, key), cutoff)|
  {
    if events != [] {
      hide Recent, CountWithin, Stored, Allows;
      var init, last := events[..|events| - 1], events[|events| - 1];
      AcceptedAreHistory(init, key, maxRequests, windowMs, start, end, cutoff);
      var accepted, history := Accepted(init, key, maxRequests, windowMs), History(init, key);
      CountSnoc(accepted, last.at, start, end);
      RecentSnoc(history, last.at, cutoff);
    }
  }

  /** No stretch of one window's length holds more accepted requests of a client than allowed. */
  lemma {:induction false} WindowBound(events: seq<Event>, key: string, maxRequests: nat, windowMs: int, now: int,
      start: int)
    requires Monotone(events, now) && windowMs <= 300000
    ensures CountWithin(Accepted(events, key, maxRequests, windowMs), start, start + windowMs) <= maxRequests
  {
    if events != [] {
      hide Recent, CountWithin, Stored, History;
      var init, last := events[..|events| - 1], events[|events| - 1];
      WindowBound(init, key, maxRequests, windowMs, last.at, start);
      var accepted := Accepted(init, key, maxRequests, windowMs);
      CountSnoc(accepted, last.at, start, start + windowMs);
      if start < last.at <= start + windowMs {
        AcceptedAreHistory(init, key, maxRequests, windowMs, start, start + windowMs, last.at - windowMs);
        DecidesLikeHistory(init, key, maxRequests, windowMs, last.at);
      }
    }
  }

  lemma SweptStored(events: seq<Event>, now: int, windowMs: int)
    ensures forall key ::
      Stored(events + [Cleanup(now)], key, windowMs) == Recent(Stored(events, key, windowMs), now - CLEANUP_MS)
  {
    assert (events + [Cleanup(now)])[..|events|] == events;
  }

  lemma RequestStored(events: seq<Event>, key: string, now: int, windowMs: int)
    ensures forall k :: Stored(events + [Request(key, now)], k, windowMs)
              == if k == key then Recent(Stored(events, k, windowMs), now - windowMs) + [now]
                else Stored(events, k, windowMs)
  {
    assert (events + [Request(key, now)])[..|events|] == events;
  }

  // ---- the middleware --------------------------------------------------------------------------

  /** One `rateLimit()` instance: its map of request times. */
  class Limiter {
    const maxRequests: int
    const windowMs: int
    var times: map<string, seq<int>>
    /** What has happened so far. */
    ghost var events: seq<Event>

    ghost function Times(key: string): seq<int>
      reads this
    {
      if key in times then times[key] else []
    }

    ghost predicate Valid()
      reads this
    {
      forall key :: Times(key) == Stored(events, key, windowMs)
    }

    constructor (maxRequests: int, windowMs: int)
      ensures Valid() && events == [] && this.maxRequests == maxRequests && this.windowMs == windowMs
    {
      this.maxRequests, this.windowMs := maxRequests, windowMs;
      times := map[];
      events := [];
    }

    method Filter(all: seq<int>, cutoff: int) returns (kept: seq<int>)
      ensures kept == Recent(all, cutoff)
    {
      kept := [];
      for i := 0 to |all|
        invariant kept == Recent(all[..i], cutoff)
      {
        assert all[..i + 1][..i] == all[..i];
        if all[i] > cutoff {
          kept := kept + [all[i]];
        }
      }
      assert all[..|all|] == all;
    }

    /** Decides as counting every earlier request within the window would. */
    method Handle(key: string, now: int) returns (allowed: bool)
      requires Valid() && Monotone(events, now)
      modifies this
      ensures Valid() && events == old(events) + [Request(key, now)]
      ensures allowed <==> Allows(Stored(old(events), key, windowMs), now, maxRequests, windowMs)
      ensures windowMs <= 300000 ==> (allowed <==> |RequestsSince(old(events), key, now - windowMs)| < maxRequests)
      ensures maxRequests <= 0 ==> !allowed
    {
      hide Recent, History, Monotone, Stored, RequestsSince;
      DecidesIfCovered(events, key, now);
      RequestStored(events, key, now, windowMs);
      var requests := Filter(if key in times then times[key] else [], now - windowMs);
      assert |requests| + 1 <= maxRequests <==> Allows(Stored(events, key, windowMs), now, maxRequests, windowMs);
      hide Allows;
      requests := requests + [now];
      times := times[key := requests];
      allowed := |requests| <= maxRequests;
      events := events + [Request(key, now)];
    }

    lemma DecidesIfCovered(events: seq<Event>, key: string, now: int)
      requires Monotone(events, now)
      ensures windowMs <= 300000 ==>
        (Allows(Stored(events, key, windowMs), now, maxRequests, windowMs)
         <==> |RequestsSince(events, key, now - windowMs)| < maxRequests)
    {
      if windowMs <= 300000 {
        AllowedExactly(events, key, maxRequests, windowMs, now);
      }
    }

    /** The periodic pass over every client; clients without recent requests are dropped. */
    method Sweep(now: int)
      requires Valid()
      modifies this
      ensures Valid() && events == old(events) + [Cleanup(now)]
      ensures forall key :: key in times ==> times[key] != []
    {
      hide Recent, History;
      RecentEmpty(now - CLEANUP_MS);
      SweptStored(events, now, windowMs);
      hide Stored;
      var todo := times.Keys;
      while todo != {}
        invariant todo <= times.Keys <= old(times).Keys
        invariant forall key :: key in todo ==> times[key] == old(times)[key]
        invariant forall key :: key in old(times) && key !in todo ==>
          Times(key) == Recent(old(times)[key], now - CLEANUP_MS)
        invariant forall key :: key in times && key !in todo ==> times[key] != []
        invariant events == old(events)
        decreases |todo|
      {
        var key :| key in todo;
        todo := todo - {key};
        var filtered := Filter(times[key], now - CLEANUP_MS);
        times := if |filtered| == 0 then times - {key} else times[key := filtered];
      }
      events := events + [Cleanup(now)];
    }
  }
}
