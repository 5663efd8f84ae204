/**
 The offer chain with its handlers interleaved at their awaits: timeouts
 (src/services/driverMatcher.js:119-161), rejections, acceptances and status changes
 (src/routes/taxi.js). A handler reads the trip, records, queries and asks in separate
 moves, and any other handler may move in between.
 */
module OfferInterleaving {
  import opened Wrappers
  import opened DriverOffers

  /**
   Where a handler is: about to read the trip; past its check with the list it has seen;
   recorded and about to query; with its query answered; past the check of a status change;
   or accepted with the timer still to be stopped. `opening` is the request itself.
   */
  datatype Work =
    | Woken(driver: int, byTimer: bool)
    | Noticed(driver: int, byTimer: bool, seen: seq<int>)
    | Looking(excluded: seq<int>, opening: bool)
    | Chosen(excluded: seq<int>, next: Option<int>, opening: bool)
    | Changing(status: Status)
    | Clearing
    | Over

  datatype Timer = Timer(driver: int, pending: bool)

  /** `latest` is the timer that `tripTimers` holds for the trip; older ones are forgotten, not stopped. */
  datatype Dispatch = Dispatch(trip: Trip, timers: seq<Timer>, latest: Option<nat>, work: seq<Work>, offers: seq<int>)

  datatype Step =
    | Fire(timer: nat)
    | Reject(driver: int)
    | Check(t: nat)
    | Record(t: nat)
    | Find(t: nat, q: Query)
    | Finish(t: nat)
    | Accept(driver: int)
    | Clear(t: nat)
    | Ask(owner: Option<int>, status: Status)
    | Change(t: nat)

  /** A new trip, its request about to look for the first driver. */
  const OPENING := Dispatch(Trip(WaitingDriver, None, [], None), [], None, [Looking([], true)], [])

  predicate At(s: Dispatch, t: nat) {
    t < |s.work|
  }

  /** The statuses the last branches of the status handler leave to the trip's driver. */
  predicate OwnersStatus(status: Status) {
    status.WaitingDriver? || status.Arrived? || status.InProgress? || status.Completed?
  }

  /** A passenger may only cancel; the driver may do so too, or set one of his statuses. */
  predicate MayAsk(trip: Trip, owner: Option<int>, status: Status) {
    && (owner.Some? ==> trip.driver == owner)
    && ((status.Cancelled? && Cancellable(trip.status)) || (owner.Some? && OwnersStatus(status)))
  }

  predicate Enabled(s: Dispatch, m: Step) {
    match m
    case Fire(i) => i < |s.timers| && s.timers[i].pending
    case Reject(_) => true
    case Check(t) => At(s, t) && s.work[t].Woken?
    case Record(t) => At(s, t) && s.work[t].Noticed?
    case Find(t, _) => At(s, t) && s.work[t].Looking?
    case Finish(t) => At(s, t) && s.work[t].Chosen?
    case Accept(_) => s.trip.status.WaitingDriver?
    case Clear(t) => At(s, t) && s.work[t].Clearing?
    case Ask(owner, status) => MayAsk(s.trip, owner, status)
    case Change(t) => At(s, t) && s.work[t].Changing?
  }

  function Going(s: Dispatch, t: nat, w: Work): Dispatch
    requires At(s, t)
  {
    s.(work := s.work[t := w])
  }

  function Joining(s: Dispatch, w: Work): Dispatch {
    s.(work := s.work + [w])
  }

  function TimerStopped(s: Dispatch): Dispatch {
    if s.latest.Some? && s.latest.value < |s.timers| then
      s.(timers := s.timers[s.latest.value := s.timers[s.latest.value].(pending := false)], latest := None)
    else s.(latest := None)
  }

  /** The offer goes out and a timeout starts; nobody to ask ends the trip, unless it has just been requested. */
  function Finished(s: Dispatch, t: nat): Dispatch
    requires At(s, t) && s.work[t].Chosen?
  {
    var w, f := s.work[t], Going(s, t, Over);
    if w.next.Some? then
      f.(trip := s.trip.(asked := w.next), timers := s.timers + [Timer(w.next.value, true)],
         latest := Some(|s.timers|), offers := s.offers + [w.next.value])
    else if w.opening then f
    else f.(trip := s.trip.(status := NoDriver))
  }

  function IdOf(c: Option<Candidate>): Option<int> {
    if c.Some? then Some(c.value.id) else None
  }

  function Moved(s: Dispatch, m: Step): Dispatch {
    if !Enabled(s, m) then s
    else
      match m
      case Fire(i) =>
        Joining(s, Woken(s.timers[i].driver, true)).(timers := s.timers[i := s.timers[i].(pending := false)])
      case Reject(d) => Joining(s, Woken(d, false))
      case Check(t) =>
        var w := s.work[t];
        Going(s, t, if s.trip.status.WaitingDriver? then Noticed(w.driver, w.byTimer, s.trip.rejected) else Over)
      case Record(t) =>
        var w := s.work[t];
        var list := w.seen + [w.driver];
        var f := Going(s, t, Looking(list, false)).(trip := s.trip.(rejected := list));
        if w.byTimer then f else TimerStopped(f)
      case Find(t, q) =>
        var w := s.work[t];
        Going(s, t, Chosen(w.excluded, IdOf(FindNearest(q, w.excluded)), w.opening))
      case Finish(t) => Finished(s, t)
      case Accept(d) => Joining(s, Clearing).(trip := s.trip.(status := Accepted, driver := Some(d)))
      case Clear(t) => TimerStopped(Going(s, t, Over))
      case Ask(_, status) => Joining(s, Changing(status))
      case Change(t) => Going(s, t, Over).(trip := s.trip.(status := s.work[t].status))
  }

  function Steps(s: Dispatch, more: seq<Step>): Dispatch {
    if more == [] then s else Moved(Steps(s, more[..|more| - 1]), more[|more| - 1])
  }

  function After(run: seq<Step>): Dispatch {
    Steps(OPENING, run)
  }

  lemma {:induction false} StepsAppend(s: Dispatch, a: seq<Step>, b: seq<Step>)
    ensures Steps(s, a + b) == Steps(Steps(s, a), b)
  {
    if b == [] {
      assert a + b == a;
    } else {
      assert (a + b)[..|a + b| - 1] == a + b[..|b| - 1];
      StepsAppend(s, a, b[..|b| - 1]);
    }
  }

  // ---- when an offer goes wrong -----------------------------------------------------------------

  /** Past its check and not yet without a driver to ask. */
  ghost predicate MayStillAsk(w: Work) {
    w.Noticed? || w.Looking? || (w.Chosen? && w.next.Some?)
  }

  /** The next move of the handler asks a driver who has been asked before or is in the rejected list. */
  ghost predicate GoesWrong(s: Dispatch, t: nat) {
    && At(s, t) && s.work[t].Chosen? && s.work[t].next.Some?
    && (s.work[t].next.value in s.offers || s.work[t].next.value in s.trip.rejected)
  }

  /**
   The handler is about to find the trip waiting although another one may still ask, or
   although somebody else has the offer and is not on the list.
   */
  ghost predicate Risky(s: Dispatch, t: nat) {
    && At(s, t) && s.work[t].Woken? && s.trip.status.WaitingDriver?
    && ((exists u: nat :: u != t && At(s, u) && MayStillAsk(s.work[u]))
        || (s.trip.asked.Some? && s.trip.asked.value != s.work[t].driver && s.trip.asked.value !in s.trip.rejected))
  }

  ghost predicate Careful(run: seq<Step>) {
    forall i :: 0 <= i < |run| && run[i].Check? ==> !Risky(After(run[..i]), run[i].t)
  }

  ghost predicate AllIn(ids: seq<int>, list: seq<int>) {
    forall i :: 0 <= i < |ids| ==> ids[i] in list
  }

  /** A handler that may still ask works with the current list, and everybody asked before is on it. */
  ghost predicate WorksWithCurrent(s: Dispatch, w: Work) {
    match w
    case Noticed(d, _, seen) => seen == s.trip.rejected && AllIn(s.offers, seen + [d])
    case Looking(excluded, _) => excluded == s.trip.rejected && AllIn(s.offers, excluded)
    case Chosen(excluded, next, _) =>
      next.Some? ==> excluded == s.trip.rejected && AllIn(s.offers, excluded) && next.value !in excluded
    case _ => true
  }

  ghost predicate NobodyAsks(s: Dispatch) {
    forall t :: 0 <= t < |s.work| ==> !MayStillAsk(s.work[t])
  }

  /** One handler at a time may ask, with an up-to-date list; nobody has been asked twice. */
  ghost predicate OneAsks(s: Dispatch) {
    && Distinct(s.offers)
    && (forall t, u :: 0 <= t < |s.work| && 0 <= u < |s.work| && MayStillAsk(s.work[t]) && MayStillAsk(s.work[u])
          ==> t == u)
    && (forall t :: 0 <= t < |s.work| ==> WorksWithCurrent(s, s.work[t]))
    && (s.trip.asked.Some? ==> s.trip.asked.value in s.offers)
    && (NobodyAsks(s) ==> forall i :: 0 <= i < |s.offers| ==>
      s.offers[i] in s.trip.rejected || s.trip.asked == Some(s.offers[i]))
  }

  lemma CheckKeepsOneAsks(s: Dispatch, m: Step)
    requires OneAsks(s) && Enabled(s, m) && m.Check? && !Risky(s, m.t)
    ensures OneAsks(Moved(s, m))
  {
    var f := Moved(s, m);
    if s.trip.status.WaitingDriver? {
      forall u | 0 <= u < |s.work|
        ensures !MayStillAsk(s.work[u])
      {
        assert u != m.t ==> !(At(s, u) && MayStillAsk(s.work[u]));
      }
      assert NobodyAsks(s);
      assert WorksWithCurrent(f, f.work[m.t]);
    } else {
      SameAskers(s, f);
    }
    forall t | 0 <= t < |f.work|
      ensures WorksWithCurrent(f, f.work[t])
    {
      assert WorksWithCurrent(s, s.work[t]);
    }
  }

  /** Nothing that matters for asking has changed. */
  lemma SameAskers(s: Dispatch, f: Dispatch)
    requires OneAsks(s) && f.offers == s.offers && f.trip.rejected == s.trip.rejected && f.trip.asked == s.trip.asked
    requires |s.work| <= |f.work|
    requires forall t :: 0 <= t < |f.work| ==>
      if t < |s.work| && MayStillAsk(s.work[t]) then f.work[t] == s.work[t] else !MayStillAsk(f.work[t])
    ensures OneAsks(f)
  {
    forall t | 0 <= t < |f.work|
      ensures WorksWithCurrent(f, f.work[t])
    {
      assert t < |s.work| ==> WorksWithCurrent(s, s.work[t]);
    }
    if NobodyAsks(f) {
      forall t | 0 <= t < |s.work|
        ensures !MayStillAsk(s.work[t])
      {
        assert !MayStillAsk(f.work[t]);
      }
    }
  }

  lemma AskerKeepsOneAsks(s: Dispatch, m: Step)
    requires OneAsks(s) && Enabled(s, m) && (m.Record? || m.Find?)
    ensures OneAsks(Moved(s, m))
  {
    var f := Moved(s, m);
    assert WorksWithCurrent(s, s.work[m.t]);
    if m.Find? {
      NearestIsBest(m.q, |m.q.rows|, s.work[m.t].excluded);
    }
    hide Nearest;
    forall t | 0 <= t < |f.work|
      ensures WorksWithCurrent(f, f.work[t])
    {
      assert WorksWithCurrent(s, s.work[t]);
    }
    assert MayStillAsk(s.work[m.t]);
  }

  lemma FinishKeepsOneAsks(s: Dispatch, m: Step)
    requires OneAsks(s) && Enabled(s, m) && m.Finish?
    ensures OneAsks(Moved(s, m))
  {
    var f, w := Moved(s, m), s.work[m.t];
    assert WorksWithCurrent(s, w);
    if w.next.Some? {
      assert MayStillAsk(w);
      forall t | 0 <= t < |f.work|
        ensures !MayStillAsk(f.work[t])
      {
      }
    } else {
      SameAskers(s, f);
    }
  }

  lemma StepKeepsOneAsks(s: Dispatch, m: Step)
    requires OneAsks(s) && (m.Check? ==> !Risky(s, m.t))
    ensures OneAsks(Moved(s, m))
  {
    if Enabled(s, m) {
      if m.Check? {
        CheckKeepsOneAsks(s, m);
      } else if m.Record? || m.Find? {
        AskerKeepsOneAsks(s, m);
      } else if m.Finish? {
        FinishKeepsOneAsks(s, m);
      } else {
        SameAskers(s, Moved(s, m));
      }
    }
  }

  lemma {:induction false} CarefulRunsAskOne(run: seq<Step>)
    requires Careful(run)
    ensures OneAsks(After(run))
  {
    if run != [] {
      var init, last := run[..|run| - 1], run[|run| - 1];
      assert forall i :: 0 <= i < |init| ==> run[..i] == init[..i];
      CarefulRunsAskOne(init);
      assert last.Check? ==> !Risky(After(run[..|init|]), last.t);
      StepKeepsOneAsks(After(init), last);
    }
  }

  lemma OneAskerIsRight(s: Dispatch, t: nat)
    requires OneAsks(s)
    ensures !GoesWrong(s, t)
  {
    if At(s, t) {
      assert WorksWithCurrent(s, s.work[t]);
    }
  }

  ghost predicate QueriesWithin(run: seq<Step>, ids: set<int>) {
    forall i :: 0 <= i < |run| && run[i].Find? ==> Within(run[i].q, ids)
  }

  lemma {:induction false} OffersWithinQueries(run: seq<Step>, ids: set<int>)
    requires QueriesWithin(run, ids)
    ensures var s := After(run);
      && (forall i :: 0 <= i < |s.offers| ==> s.offers[i] in ids)
      && (forall t :: 0 <= t < |s.work| && s.work[t].Chosen? && s.work[t].next.Some? ==> s.work[t].next.value in ids)
  {
    if run != [] {
      var init, m := run[..|run| - 1], run[|run| - 1];
      OffersWithinQueries(init, ids);
      var s := After(init);
      if m.Find? && Enabled(s, m) {
        NearestIsBest(m.q, |m.q.rows|, s.work[m.t].excluded);
      }
      hide Nearest;
    }
  }

  /** While no check is risky, nobody is asked twice, so at most every driver once, and nobody on the list. */
  lemma CarefulRunsAskOnce(run: seq<Step>, ids: set<int>)
    requires Careful(run) && QueriesWithin(run, ids)
    ensures Distinct(After(run).offers) && |After(run).offers| <= |ids|
    ensures forall t :: !GoesWrong(After(run), t)
  {
    CarefulRunsAskOne(run);
    OffersWithinQueries(run, ids);
    DistinctWithin(After(run).offers, ids);
    forall t
      ensures !GoesWrong(After(run), t)
    {
      OneAskerIsRight(After(run), t);
    }
  }

  // ---- a risky check does go wrong -----------------------------------------------------------------

  ghost predicate NoChecks(more: seq<Step>) {
    forall i :: 0 <= i < |more| ==> !more[i].Check?
  }

  /** A query that sees one driver only. */
  function Only(id: int): Query {
    Query([Candidate(id, true, true, true)], None)
  }

  lemma OnlyIsFound(id: int, excluded: seq<int>)
    requires id !in excluded
    ensures IdOf(FindNearest(Only(id), excluded)) == Some(id)
  {
    assert Nearest(Only(id), 0, excluded) == None;
  }

  lemma {:induction false} SomebodyNew(list: seq<int>) returns (id: int)
    ensures id !in list && forall i :: 0 <= i < |list| ==> list[i] < id
  {
    id := 0;
    if list != [] {
      var last := list[|list| - 1];
      id := SomebodyNew(list[..|list| - 1]);
      id := if id > last then id else last + 1;
      assert list == list[..|list| - 1] + [last];
    }
  }

  /** Some moves without a further check bring a handler to ask the wrong driver. */
  ghost predicate CanGoWrong(s: Dispatch) {
    exists more: seq<Step>, t: nat :: NoChecks(more) && GoesWrong(Steps(s, more), t)
  }

  lemma WrongLater(s: Dispatch, m: Step)
    requires !m.Check? && CanGoWrong(Moved(s, m))
    ensures CanGoWrong(s)
  {
    var more: seq<Step>, t: nat :| NoChecks(more) && GoesWrong(Steps(Moved(s, m), more), t);
    StepsAppend(s, [m], more);
    assert Steps(s, [m]) == Moved(s, m) by {
      assert [m][..0] == [];
      assert Steps(s, []) == s;
    }
    assert NoChecks([m] + more);
  }

  lemma WrongNow(s: Dispatch, t: nat)
    requires GoesWrong(s, t)
    ensures CanGoWrong(s)
  {
    assert Steps(s, []) == s && NoChecks([]);
  }

  /** The driver who has the offer is not on the handler's list, and a query that sees only him finds him. */
  lemma AsksTheAskedAgain(s: Dispatch, t: nat)
    requires At(s, t) && s.work[t].Noticed? && s.trip.asked.Some?
    requires s.trip.asked.value in s.offers && s.trip.asked.value !in s.work[t].seen + [s.work[t].driver]
    ensures CanGoWrong(s)
  {
    var r := Moved(s, Record(t));
    OnlyIsFound(s.trip.asked.value, r.work[t].excluded);
    WrongNow(Moved(r, Find(t, Only(s.trip.asked.value))), t);
    WrongLater(r, Find(t, Only(s.trip.asked.value)));
    WrongLater(s, Record(t));
  }

  /** One handler is about to ask a driver another one does not have on its list. */
  lemma BothAskTheSame(s: Dispatch, t: nat, u: nat)
    requires At(s, t) && s.work[t].Noticed? && t != u
    requires At(s, u) && s.work[u].Chosen? && s.work[u].next.Some? && s.work[u].next.value !in s.work[t].seen
    ensures CanGoWrong(s)
  {
    var r, id := Moved(s, Record(t)), s.work[u].next.value;
    if id == s.work[t].driver {
      WrongNow(r, u);
    } else {
      OnlyIsFound(id, r.work[t].excluded);
      var f := Moved(r, Find(t, Only(id)));
      WrongNow(Moved(f, Finish(u)), t);
      WrongLater(f, Finish(u));
      WrongLater(r, Find(t, Only(id)));
    }
    WrongLater(s, Record(t));
  }

  lemma BothLookForTheSame(s: Dispatch, t: nat, u: nat)
    requires At(s, t) && s.work[t].Noticed? && t != u
    requires At(s, u) && s.work[u].Looking?
    ensures CanGoWrong(s)
  {
    var id := SomebodyNew(s.work[t].seen + s.work[u].excluded);
    OnlyIsFound(id, s.work[u].excluded);
    BothAskTheSame(Moved(s, Find(u, Only(id))), t, u);
    WrongLater(s, Find(u, Only(id)));
  }

  lemma RiskGoesWrong(s: Dispatch, t: nat)
    requires OneAsks(s) && Risky(s, t)
    ensures CanGoWrong(Moved(s, Check(t)))
  {
    var c := Moved(s, Check(t));
    if u: nat :| u != t && At(s, u) && MayStillAsk(s.work[u]) {
      assert WorksWithCurrent(s, s.work[u]);
      if s.work[u].Chosen? {
        BothAskTheSame(c, t, u);
      } else if s.work[u].Looking? {
        BothLookForTheSame(c, t, u);
      } else {
        BothLookForTheSame(Moved(c, Record(u)), t, u);
        WrongLater(c, Record(u));
      }
    } else {
      AsksTheAskedAgain(c, t);
    }
  }

  lemma {:induction false} NoChecksKeepOneAsks(s: Dispatch, more: seq<Step>)
    requires OneAsks(s) && NoChecks(more)
    ensures OneAsks(Steps(s, more))
  {
    if more != [] {
      NoChecksKeepOneAsks(s, more[..|more| - 1]);
      StepKeepsOneAsks(Steps(s, more[..|more| - 1]), more[|more| - 1]);
    }
  }

  /**
   After a run of careful checks the next one can make an offer repeat, or reach a driver of
   the rejected list, exactly when it is risky.
   */
  lemma GoesWrongExactly(run: seq<Step>, t: nat)
    requires Careful(run) && Enabled(After(run), Check(t))
    ensures CanGoWrong(Moved(After(run), Check(t))) <==> Risky(After(run), t)
  {
    var s := After(run);
    CarefulRunsAskOne(run);
    if Risky(s, t) {
      RiskGoesWrong(s, t);
    } else {
      StepKeepsOneAsks(s, Check(t));
      forall more: seq<Step>, u: nat | NoChecks(more)
        ensures !GoesWrong(Steps(Moved(s, Check(t)), more), u)
      {
        NoChecksKeepOneAsks(Moved(s, Check(t)), more);
        OneAskerIsRight(Steps(Moved(s, Check(t)), more), u);
      }
    }
  }

  lemma OneStep(run: seq<Step>, k: nat)
    requires k < |run|
    ensures After(run[..k + 1]) == Moved(After(run[..k]), run[k])
  {
    assert run[..k + 1][..k] == run[..k];
  }

  /** Driver 1 has the offer, and his rejection comes in while his timeout is past its check. */
  function TimeoutMeetsRejection(): seq<Step> {
    [Find(0, Only(1)), Finish(0), Step.Fire(0), Step.Reject(1), Check(1)]
  }

  lemma WhereTheyMeet()
    ensures var s := After(TimeoutMeetsRejection());
      && s.trip == Trip(WaitingDriver, Some(1), [], None) && s.offers == [1]
      && s.work == [Work.Over, Noticed(1, true, []), Woken(1, false)]
    ensures Careful(TimeoutMeetsRejection())
  {
    var run := TimeoutMeetsRejection();
    assert After(run[..0]) == OPENING;
    OnlyIsFound(1, []);
    OneStep(run, 0);
    OneStep(run, 1);
    OneStep(run, 2);
    OneStep(run, 3);
    assert After(run[..4]).work == [Work.Over, Woken(1, true), Woken(1, false)];
    OneStep(run, 4);
    assert run[..5] == run;
    hide Nearest;
  }

  /** It happens: a driver's timeout and his own rejection can ask the next driver twice. */
  lemma ChecksCanBeRisky()
    ensures var s := After(TimeoutMeetsRejection());
      Careful(TimeoutMeetsRejection()) && Risky(s, 2) && CanGoWrong(Moved(s, Check(2)))
  {
    WhereTheyMeet();
    var s := After(TimeoutMeetsRejection());
    assert At(s, 1) && MayStillAsk(s.work[1]);
    GoesWrongExactly(TimeoutMeetsRejection(), 2);
  }

  // ---- who takes the trip ---------------------------------------------------------------------------

  ghost predicate Reopens(s: Dispatch, m: Step) {
    m.Change? && Enabled(s, m) && s.work[m.t].status.WaitingDriver?
  }

  ghost predicate IsDriver(s: Dispatch, d: int) {
    s.trip.driver == Some(d)
  }

  /** The driver of the trip asked for the waiting status with move `a`, and his request set it with move `c`. */
  ghost predicate ReopenedByDriver(run: seq<Step>, a: nat, c: nat) {
    && a < c < |run|
    && run[a].Ask? && run[a].status.WaitingDriver? && run[a].owner.Some?
    && IsDriver(After(run[..a]), run[a].owner.value)
    && Reopens(After(run[..c]), run[c]) && run[c].t == |After(run[..a]).work|
  }

  ghost predicate WaitingSince(run: seq<Step>, c: nat) {
    forall j :: c < j <= |run| ==> After(run[..j]).trip.status.WaitingDriver?
  }

  ghost predicate OpenAgain(run: seq<Step>) {
    exists a: nat, c: nat :: ReopenedByDriver(run, a, c) && WaitingSince(run, c)
  }

  lemma NewChangeWasAsked(s: Dispatch, m: Step, t: nat)
    requires At(Moved(s, m), t) && Moved(s, m).work[t].Changing?
    requires !(At(s, t) && s.work[t].Changing?)
    ensures m.Ask? && m.status == Moved(s, m).work[t].status && MayAsk(s.trip, m.owner, m.status)
    ensures t == |s.work|
  {
    hide FindNearest;
  }

  lemma ChangeStays(s: Dispatch, m: Step, t: nat)
    requires At(s, t) && s.work[t].Changing?
    requires At(Moved(s, m), t) && Moved(s, m).work[t].Changing?
    ensures Moved(s, m).work[t] == s.work[t]
  {
    hide FindNearest;
  }

  lemma StartsToWait(s: Dispatch, m: Step)
    requires Moved(s, m).trip.status.WaitingDriver? && Moved(s, m).trip.driver.Some?
    requires !(s.trip.status.WaitingDriver? && s.trip.driver.Some?)
    ensures Reopens(s, m)
  {
    hide FindNearest;
  }

  /**
   The passenger can only cancel, and so can the trip's driver, unless the trip has ended one
   way or another; its driver alone can set any other status but accepted and no-driver.
   */
  lemma AskedExactly(s: Dispatch, owner: Option<int>, status: Status)
    ensures Enabled(s, Ask(owner, status)) <==>
      && (owner.None? || s.trip.driver == owner)
      && !status.Accepted? && !status.NoDriver?
      && (status.Cancelled? ==>
        !s.trip.status.Completed? && !s.trip.status.NoDriver? && !s.trip.status.Cancelled?)
      && (!status.Cancelled? ==> owner.Some?)
  {
  }

  /** Only the trip's driver asks for any status but the cancelled one. */
  lemma {:induction false} ChangesComeFromDriver(run: seq<Step>, t: nat) returns (a: nat)
    requires At(After(run), t) && After(run).work[t].Changing? && !After(run).work[t].status.Cancelled?
    ensures a < |run| && run[a].Ask? && run[a].status == After(run).work[t].status
    ensures run[a].owner.Some? && IsDriver(After(run[..a]), run[a].owner.value) && t == |After(run[..a]).work|
  {
    var init := run[..|run| - 1];
    hide Moved;
    if At(After(init), t) && After(init).work[t].Changing? {
      ChangeStays(After(init), run[|run| - 1], t);
      a := ChangesComeFromDriver(init, t);
      assert run[..a] == init[..a];
    } else {
      NewChangeWasAsked(After(init), run[|run| - 1], t);
      a := |run| - 1;
    }
  }

  lemma OpenStays(run: seq<Step>, init: seq<Step>)
    requires run != [] && init == run[..|run| - 1] && OpenAgain(init) && After(run).trip.status.WaitingDriver?
    ensures OpenAgain(run)
  {
    hide After, Reopens, IsDriver;
    var a: nat, c: nat :| ReopenedByDriver(init, a, c) && WaitingSince(init, c);
    assert run[..|run|] == run;
    assert run[..a] == init[..a] && run[..c] == init[..c];
    assert ReopenedByDriver(run, a, c);
    forall j | c < j <= |run|
      ensures After(run[..j]).trip.status.WaitingDriver?
    {
      assert j <= |init| ==> run[..j] == init[..j];
    }
  }

  lemma OpensNow(run: seq<Step>, init: seq<Step>, m: Step)
    requires run == init + [m] && Reopens(After(init), m) && After(run).trip.status.WaitingDriver?
    ensures OpenAgain(run)
  {
    hide After, Moved;
    var a := ChangesComeFromDriver(init, m.t);
    assert run[..a] == init[..a] && run[..|init|] == init && run[..|run|] == run;
    assert ReopenedByDriver(run, a, |init|) && WaitingSince(run, |init|);
  }

  lemma {:induction false} WaitingMeansReopened(run: seq<Step>)
    requires After(run).trip.driver.Some? && After(run).trip.status.WaitingDriver?
    ensures OpenAgain(run)
  {
    hide Moved, OpenAgain;
    var init, m := run[..|run| - 1], run[|run| - 1];
    if After(init).trip.driver.Some? && After(init).trip.status.WaitingDriver? {
      WaitingMeansReopened(init);
      OpenStays(run, init);
    } else {
      StartsToWait(After(init), m);
      OpensNow(run, init, m);
    }
  }

  /** Somebody else can take a trip from its driver exactly when a driver of it has reopened it. */
  lemma TakenOverExactly(run: seq<Step>, d: int, other: int)
    requires IsDriver(After(run), d) && other != d
    ensures !IsDriver(Moved(After(run), Step.Accept(other)), d) <==> OpenAgain(run)
  {
    assert run[..|run|] == run;
    if After(run).trip.status.WaitingDriver? {
      WaitingMeansReopened(run);
    }
  }

  /** A trip loses its driver only to an acceptance, and only while it is open again. */
  lemma {:induction false} DriverLostWhenOpenAgain(run: seq<Step>, n: nat, d: int) returns (i: nat)
    requires n <= |run| && IsDriver(After(run[..n]), d) && !IsDriver(After(run), d)
    ensures n <= i < |run| && run[i].Accept? && OpenAgain(run[..i])
  {
    assert run[..|run|] == run;
    var init := run[..|run| - 1];
    assert init[..n] == run[..n];
    if IsDriver(After(init), d) {
      i := |init|;
      assert run[..i] == init;
      TakenOverExactly(init, d, run[i].driver);
    } else {
      i := DriverLostWhenOpenAgain(init, n, d);
      assert run[..i] == init[..i];
    }
  }

  /** The first acceptance need not be the last one. */
  lemma TakenTwice()
    ensures var run := [Step.Accept(1), Ask(Some(1), WaitingDriver), Change(2), Step.Accept(2)];
      IsDriver(After(run[..1]), 1) && IsDriver(After(run), 2)
  {
    var run := [Step.Accept(1), Ask(Some(1), WaitingDriver), Change(2), Step.Accept(2)];
    var first := Moved(OPENING, Step.Accept(1));
    var reopened := Moved(Moved(first, Ask(Some(1), WaitingDriver)), Change(2));
    assert IsDriver(first, 1) && IsDriver(Moved(reopened, Step.Accept(2)), 2);
    hide Moved;
    assert run[..1] == [Step.Accept(1)] && run[..1][..0] == [];
    assert Steps(OPENING, []) == OPENING && After(run[..1]) == first;
    StepsAppend(OPENING, run[..1], run[1..]);
    assert run == run[..1] + run[1..];
    ThreeSteps(first, run[1], run[2], run[3]);
    assert run[1..] == [run[1], run[2], run[3]];
  }

  // ---- handlers that come late -----------------------------------------------------------------------

  ghost predicate NoChanges(more: seq<Step>) {
    forall i :: 0 <= i < |more| ==> !more[i].Change?
  }

  /** Past its check, and going to end the trip when the query finds nobody. */
  ghost predicate MayEnd(w: Work) {
    w.Noticed? || (w.Looking? && !w.opening) || (w.Chosen? && w.next.None? && !w.opening)
  }

  ghost predicate SomebodyMayEnd(s: Dispatch) {
    exists t: nat :: At(s, t) && MayEnd(s.work[t])
  }

  ghost predicate SomebodyMayAsk(s: Dispatch) {
    exists t: nat :: At(s, t) && MayStillAsk(s.work[t])
  }

  ghost predicate CanEnd(s: Dispatch) {
    exists more: seq<Step> :: NoChanges(more) && Steps(s, more).trip.status.NoDriver?
  }

  ghost predicate CanBeOffered(s: Dispatch) {
    exists more: seq<Step> :: NoChanges(more) && |Steps(s, more).offers| > |s.offers|
  }

  lemma {:induction false} NobodyEnds(s: Dispatch, more: seq<Step>)
    requires NoChanges(more) && !SomebodyMayEnd(s)
    requires !s.trip.status.WaitingDriver? && !s.trip.status.NoDriver?
    ensures Steps(s, more).trip.status == s.trip.status && !SomebodyMayEnd(Steps(s, more))
  {
    if more != [] {
      var init := more[..|more| - 1];
      NobodyEnds(s, init);
      var a, b := Steps(s, init), Steps(s, more);
      forall t: nat | At(b, t)
        ensures !MayEnd(b.work[t])
      {
        assert At(a, t) ==> !MayEnd(a.work[t]);
      }
      assert Enabled(a, more[|init|]) && more[|init|].Finish? ==> !MayEnd(a.work[more[|init|].t]);
    }
  }

  lemma {:induction false} NobodyOffers(s: Dispatch, more: seq<Step>)
    requires NoChanges(more) && !SomebodyMayAsk(s) && !s.trip.status.WaitingDriver?
    ensures Steps(s, more).offers == s.offers
    ensures !Steps(s, more).trip.status.WaitingDriver? && !SomebodyMayAsk(Steps(s, more))
  {
    if more != [] {
      var init := more[..|more| - 1];
      NobodyOffers(s, init);
      var a, b := Steps(s, init), Steps(s, more);
      forall t: nat | At(b, t)
        ensures !MayStillAsk(b.work[t])
      {
        assert At(a, t) ==> !MayStillAsk(a.work[t]);
      }
      assert Enabled(a, more[|init|]) && more[|init|].Finish? ==> !MayStillAsk(a.work[more[|init|].t]);
    }
  }

  /** The moves that take a handler past its check to its end, with what its query answers. */
  function ToItsEnd(t: nat, q: Query): seq<Step> {
    [Record(t), Find(t, q), Finish(t)]
  }

  lemma ThreeSteps(s: Dispatch, a: Step, b: Step, c: Step)
    ensures Steps(s, [a, b, c]) == Moved(Moved(Moved(s, a), b), c)
  {
    assert [a, b, c][..2] == [a, b] && [a, b][..1] == [a] && [a][..0] == [];
    assert Steps(s, []) == s && Steps(s, [a]) == Moved(s, a) && Steps(s, [a, b]) == Moved(Moved(s, a), b);
  }

  lemma EndsWithNobody(s: Dispatch, t: nat)
    requires At(s, t) && MayEnd(s.work[t])
    ensures Steps(s, ToItsEnd(t, Query([], None))).trip.status.NoDriver?
  {
    ThreeSteps(s, Record(t), Find(t, Query([], None)), Finish(t));
  }

  lemma AsksSomebodyNew(s: Dispatch, t: nat) returns (more: seq<Step>)
    requires At(s, t) && MayStillAsk(s.work[t])
    ensures NoChanges(more) && |Steps(s, more).offers| > |s.offers|
  {
    var w := s.work[t];
    var list := if w.Noticed? then w.seen + [w.driver] else w.excluded;
    var id := SomebodyNew(list);
    OnlyIsFound(id, list);
    more := ToItsEnd(t, Only(id));
    ThreeSteps(s, Record(t), Find(t, Only(id)), Finish(t));
    hide Nearest;
  }

  /**
   A trip that is accepted, or further on, is given up as without a driver, or offered on,
   without anybody asking for it, exactly when a handler was past its check.
   */
  lemma LateHandlersExactly(run: seq<Step>)
    requires !After(run).trip.status.WaitingDriver? && !After(run).trip.status.NoDriver?
    ensures CanEnd(After(run)) <==> SomebodyMayEnd(After(run))
    ensures CanBeOffered(After(run)) <==> SomebodyMayAsk(After(run))
  {
    var s := After(run);
    if t: nat :| At(s, t) && MayEnd(s.work[t]) {
      EndsWithNobody(s, t);
      assert NoChanges(ToItsEnd(t, Query([], None)));
    } else {
      forall more | NoChanges(more)
        ensures !Steps(s, more).trip.status.NoDriver?
      {
        NobodyEnds(s, more);
      }
    }
    if t: nat :| At(s, t) && MayStillAsk(s.work[t]) {
      var more := AsksSomebodyNew(s, t);
    } else {
      forall more | NoChanges(more)
        ensures Steps(s, more).offers == s.offers
      {
        NobodyOffers(s, more);
      }
    }
  }

  /** It happens: driver 2 accepts while the timeout of driver 1 is past its check. */
  lemma AcceptedTripCanBeLost()
    ensures var s := After(TimeoutMeetsRejection() + [Step.Accept(2)]);
      s.trip.status.Accepted? && IsDriver(s, 2) && CanEnd(s) && CanBeOffered(s)
  {
    var run := TimeoutMeetsRejection() + [Step.Accept(2)];
    WhereTheyMeet();
    OneStep(run, 5);
    assert run[..5] == TimeoutMeetsRejection() && run[..6] == run;
    var s := After(run);
    assert At(s, 1) && MayEnd(s.work[1]) && MayStillAsk(s.work[1]);
    LateHandlersExactly(run);
  }

  ghost predicate MoveOf(t: nat, m: Step) {
    (m.Check? || m.Record? || m.Find? || m.Finish? || m.Clear? || m.Change?) && m.t == t
  }

  /** A timeout or rejection that finds the trip no longer waiting leaves no trace in anything that follows. */
  lemma {:induction false} LateCheckLeavesNoTrace(s: Dispatch, t: nat, more: seq<Step>)
    requires Enabled(s, Check(t)) && !s.trip.status.WaitingDriver?
    requires forall i :: 0 <= i < |more| ==> !MoveOf(t, more[i])
    ensures At(Steps(s, more), t)
    ensures Steps(Moved(s, Check(t)), more) == Going(Steps(s, more), t, Over)
  {
    if more != [] {
      LateCheckLeavesNoTrace(s, t, more[..|more| - 1]);
      SameButOne(Steps(s, more[..|more| - 1]), t, more[|more| - 1]);
    }
  }

  lemma SameButOne(s: Dispatch, t: nat, m: Step)
    requires At(s, t) && !MoveOf(t, m)
    ensures At(Moved(s, m), t)
    ensures Moved(Going(s, t, Over), m) == Going(Moved(s, m), t, Over)
  {
    var g := Going(s, t, Over);
    assert Enabled(g, m) <==> Enabled(s, m);
    assert Moved(g, m).work == Going(Moved(s, m), t, Over).work;
  }

  // ---- timers -------------------------------------------------------------------------------------

  lemma SpentStep(s: Dispatch, m: Step, i: nat)
    requires i < |s.timers| && !s.timers[i].pending
    ensures i < |Moved(s, m).timers| && !Moved(s, m).timers[i].pending
  {
    hide FindNearest;
  }

  /** A timer that has fired or been stopped never fires again. */
  lemma {:induction false} SpentForGood(s: Dispatch, more: seq<Step>, i: nat)
    requires i < |s.timers| && !s.timers[i].pending
    ensures i < |Steps(s, more).timers| && !Enabled(Steps(s, more), Step.Fire(i))
  {
    if more != [] {
      hide Moved;
      SpentForGood(s, more[..|more| - 1], i);
      SpentStep(Steps(s, more[..|more| - 1]), more[|more| - 1], i);
    }
  }

  /** Each timer wakes one handler at most, with the driver it was set for. */
  lemma FiresOnce(s: Dispatch, i: nat, more: seq<Step>)
    requires Enabled(s, Step.Fire(i))
    ensures var fired := Moved(s, Step.Fire(i));
      && fired.work == s.work + [Woken(s.timers[i].driver, true)]
      && !Enabled(Steps(fired, more), Step.Fire(i))
  {
    SpentForGood(Moved(s, Step.Fire(i)), more, i);
  }

  /** The timeout of the latest offer can no longer fire once the offer has been accepted and the handler is through. */
  lemma AcceptanceStopsTimer(s: Dispatch, t: nat, d: int, more: seq<Step>)
    requires Enabled(s, Finish(t)) && s.work[t].next.Some? && s.trip.status.WaitingDriver?
    ensures var offered := Moved(s, Finish(t));
      var through := Moved(Moved(offered, Step.Accept(d)), Clear(|s.work|));
      Enabled(offered, Step.Fire(|s.timers|)) && !Enabled(Steps(through, more), Step.Fire(|s.timers|))
  {
    SpentForGood(Moved(Moved(Moved(s, Finish(t)), Step.Accept(d)), Clear(|s.work|)), more, |s.timers|);
  }

  /** A rejection stops the latest timer; a timeout leaves the others running. */
  lemma RejectionStopsTimer(s: Dispatch, t: nat, i: nat)
    requires Enabled(s, Record(t)) && Enabled(s, Step.Fire(i))
    ensures Enabled(Moved(s, Record(t)), Step.Fire(i)) <==> s.work[t].byTimer || s.latest != Some(i)
    ensures Moved(s, Record(t)).latest == if s.work[t].byTimer then s.latest else None
  {
  }

  /** A new trip for which nobody is found waits; one whose driver is out ends. */
  lemma NobodyFound(s: Dispatch, t: nat)
    requires Enabled(s, Find(t, Query([], None)))
    ensures Moved(Moved(s, Find(t, Query([], None))), Finish(t)).trip ==
      if s.work[t].opening then s.trip else s.trip.(status := NoDriver)
    ensures OPENING.work == [Looking([], true)]
  {
  }

  // ---- one at a time ---------------------------------------------------------------------------------

  /** Where a handler stands that has just made its check. */
  lemma CheckedAlone(s: Dispatch, start: Step)
    requires (start.Fire? || start.Reject?) && Enabled(s, start)
    ensures var t, c := |s.work|, Moved(Moved(s, start), Check(|s.work|));
      var d := if start.Fire? then s.timers[start.timer].driver else start.driver;
      && c.trip == s.trip && c.offers == s.offers && At(c, t)
      && c.work[t] == if s.trip.status.WaitingDriver? then Noticed(d, start.Fire?, s.trip.rejected) else Over
  {
  }

  lemma PassesOn(c: Dispatch, t: nat, q: Query)
    requires At(c, t) && (c.work[t].Noticed? || c.work[t].Over?)
    ensures var e := Moved(Moved(Moved(c, Record(t)), Find(t, q)), Finish(t));
      if c.work[t].Over? then e == c
      else
        var rejected := c.work[t].seen + [c.work[t].driver];
        var next := IdOf(FindNearest(q, rejected));
        && e.trip.rejected == rejected && e.trip.driver == c.trip.driver
        && e.trip.asked == (if next.Some? then next else c.trip.asked)
        && e.trip.status == (if next.Some? then c.trip.status else NoDriver)
        && e.offers == c.offers + if next.Some? then [next.value] else []
  {
    hide FindNearest;
  }

  /**
   A handler whose moves follow each other without a gap does to the trip and its offers what
   the atomic move does.
   */
  lemma AloneIsAtomic(s: Dispatch, start: Step, q: Query)
    requires start.Fire? || start.Reject?
    requires Enabled(s, start)
    ensures var t := |s.work|;
      var alone := Steps(s, [start, Check(t)] + ToItsEnd(t, q));
      var timer := if start.Fire? then Some(s.timers[start.timer].driver) else None;
      var move := if start.Fire? then DriverOffers.Fire(q) else DriverOffers.Reject(start.driver, q);
      var atomic := DriverOffers.Moved(Search(s.trip, timer, s.offers), move);
      alone.trip == atomic.trip && alone.offers == atomic.offers
  {
    var t := |s.work|;
    var c := Moved(Moved(s, start), Check(t));
    StepsAppend(s, [start, Check(t)], ToItsEnd(t, q));
    assert [start, Check(t)][..1] == [start] && [start][..0] == [];
    assert Steps(s, []) == s && Steps(s, [start]) == Moved(s, start);
    ThreeSteps(c, Record(t), Find(t, q), Finish(t));
    PassesOn(c, t, q);
    CheckedAlone(s, start);
    hide Moved, FindNearest;
  }
}
