/**
 Offering a trip to one driver after another: src/services/driverMatcher.js with the
 reject handler and the accepting update of src/routes/taxi.js, each handler running to
 its end before the next. The drivers a query returns and their distances are parameters,
 so they may change between queries.
 */
module DriverOffers {
  import opened Wrappers

  /** A row of drivers joined with taxis, as the query sees it. */
  datatype Candidate = Candidate(id: int, driverOnline: bool, taxiOnline: bool, approved: bool)

  datatype Status = WaitingDriver | Accepted | Arrived | InProgress | Completed | NoDriver | Cancelled

  /** The trip's row: who has the offer, who is out, and who took it. */
  datatype Trip = Trip(status: Status, asked: Option<int>, rejected: seq<int>, driver: Option<int>)

  /** `timer` is the driver whose timeout is running; `offers` remembers whom the trip was offered to. */
  datatype Search = Search(trip: Trip, timer: Option<int>, offers: seq<int>)

  type Distance = Candidate -> real

  /** With a pick-up position, the distances to rank by; without one, the query's order decides. */
  datatype Query = Query(rows: seq<Candidate>, distance: Option<Distance>)

  predicate Eligible(c: Candidate, excluded: seq<int>) {
    c.driverOnline && c.taxiOnline && c.approved && c.id !in excluded
  }

  predicate Better(q: Query, a: Candidate, b: Candidate) {
    q.distance.Some? && q.distance.value(a) < q.distance.value(b)
  }

  /** The best eligible row, the first of equals. */
  function Nearest(q: Query, n: nat, excluded: seq<int>): Option<Candidate>
    requires n <= |q.rows|
  {
    if n == 0 then None
    else
      var best, c := Nearest(q, n - 1, excluded), q.rows[n - 1];
      if !Eligible(c, excluded) then best
      else if best.None? || Better(q, c, best.value) then Some(c)
      else best
  }

  function FindNearest(q: Query, excluded: seq<int>): Option<Candidate> {
    Nearest(q, |q.rows|, excluded)
  }

  /** The chosen driver is eligible and no eligible one is nearer; there is one whenever anyone is eligible. */
  lemma {:induction false} NearestIsBest(q: Query, n: nat, excluded: seq<int>)
    requires n <= |q.rows|
    ensures var best := Nearest(q, n, excluded);
      && (best.Some? ==> Eligible(best.value, excluded) && best.value in q.rows)
      && (forall i :: 0 <= i < n && Eligible(q.rows[i], excluded) ==> best.Some? && !Better(q, q.rows[i], best.value))
  {
    if n > 0 {
      NearestIsBest(q, n - 1, excluded);
    }
  }

  /** The row is of an approved driver who is online with his taxi, and whose id is not excluded. */
  ghost predicate Open(q: Query, excluded: seq<int>, i: nat)
    requires i < |q.rows|
  {
    var c := q.rows[i];
    c.approved && c.driverOnline && c.taxiOnline && c.id !in excluded
  }

  /**
   Row `k` is the choice: open, and with a pick-up position strictly nearer than the open
   rows before it and no farther than those after it; without one, the first open row.
   */
  ghost predicate Choice(q: Query, excluded: seq<int>, n: nat, k: nat)
    requires n <= |q.rows|
  {
    && k < n && Open(q, excluded, k)
    && (forall i :: 0 <= i < k && Open(q, excluded, i) ==>
      q.distance.Some? && q.distance.value(q.rows[k]) < q.distance.value(q.rows[i]))
    && (forall i :: k < i < n && Open(q, excluded, i) ==>
      q.distance.None? || q.distance.value(q.rows[k]) <= q.distance.value(q.rows[i]))
  }

  /** The best of the first `n` rows is their choice, or nobody if none of them is open. */
  ghost predicate IsChoice(q: Query, excluded: seq<int>, n: nat, best: Option<Candidate>)
    requires n <= |q.rows|
  {
    if best.None? then forall i :: 0 <= i < n ==> !Open(q, excluded, i)
    else exists k: nat :: Choice(q, excluded, n, k) && q.rows[k] == best.value
  }

  lemma ChoiceStep(q: Query, excluded: seq<int>, n: nat, before: Option<Candidate>)
    requires n < |q.rows| && IsChoice(q, excluded, n, before)
    ensures var c := q.rows[n];
      IsChoice(q, excluded, n + 1,
               if Open(q, excluded, n) && (before.None? || Better(q, c, before.value)) then Some(c) else before)
  {
    var c := q.rows[n];
    if before.None? {
      assert Open(q, excluded, n) ==> Choice(q, excluded, n + 1, n);
    } else {
      var k: nat :| Choice(q, excluded, n, k) && q.rows[k] == before.value;
      if Open(q, excluded, n) && Better(q, c, before.value) {
        assert Choice(q, excluded, n + 1, n);
      } else {
        assert Choice(q, excluded, n + 1, k);
      }
    }
  }

  lemma {:induction false} NearestExactly(q: Query, n: nat, excluded: seq<int>)
    requires n <= |q.rows|
    ensures IsChoice(q, excluded, n, Nearest(q, n, excluded))
  {
    if n > 0 {
      NearestExactly(q, n - 1, excluded);
      ChoiceStep(q, excluded, n - 1, Nearest(q, n - 1, excluded));
      assert Eligible(q.rows[n - 1], excluded) <==> Open(q, excluded, n - 1);
      hide IsChoice, Open, Better;
    }
  }

  /** `findNearestDriver`: filters the rows, then sorts by distance and takes the first. */
  method FindNearestDriver(q: Query, excluded: seq<int>) returns (found: Option<Candidate>)
    ensures found == FindNearest(q, excluded)
    ensures IsChoice(q, excluded, |q.rows|, found)
  {
    hide IsChoice, Eligible, Better;
    found := None;
    for i := 0 to |q.rows|
      invariant found == Nearest(q, i, excluded)
    {
      if Eligible(q.rows[i], excluded) && (found.None? || Better(q, q.rows[i], found.value)) {
        found := Some(q.rows[i]);
      }
    }
    NearestExactly(q, |q.rows|, excluded);
  }

  // ---- moves ------------------------------------------------------------------------------------

  datatype Move =
    | Fire(q: Query)
    | Reject(rejecter: int, q: Query)
    | Accept(accepter: int)
    | Cancel

  /** The offer goes to `d`, and a timeout starts. */
  function Offered(s: Search, d: int): Search {
    Search(s.trip.(asked := Some(d)), Some(d), s.offers + [d])
  }

  /** `d` is out: the next driver gets the offer, or nobody is left. */
  function PassedOn(s: Search, d: int, q: Query): Search {
    var rejected := s.trip.rejected + [d];
    var next := FindNearest(q, rejected);
    var t := s.(trip := s.trip.(rejected := rejected));
    if next.Some? then Offered(t, next.value.id) else t.(trip := t.trip.(status := NoDriver))
  }

  predicate Cancellable(status: Status) {
    status.WaitingDriver? || status.Accepted? || status.Arrived? || status.InProgress?
  }

  /** A new trip waits for a driver even when nobody can be asked. */
  function Requested(q: Query): Search {
    var s := Search(Trip(WaitingDriver, None, [], None), None, []);
    var first := FindNearest(q, []);
    if first.Some? then Offered(s, first.value.id) else s
  }

  function Moved(s: Search, m: Move): Search {
    match m
    case Fire(q) =>
      if s.timer.None? then s
      else
        var rest := s.(timer := None);
        if s.trip.status.WaitingDriver? then PassedOn(rest, s.timer.value, q) else rest
    case Reject(d, q) => if s.trip.status.WaitingDriver? then PassedOn(s.(timer := None), d, q) else s
    case Accept(d) =>
      if !s.trip.status.WaitingDriver? then s
      else s.(trip := s.trip.(status := Accepted, driver := Some(d)), timer := None)
    case Cancel => if Cancellable(s.trip.status) then s.(trip := s.trip.(status := Cancelled)) else s
  }

  function After(first: Query, run: seq<Move>): Search {
    if run == [] then Requested(first) else Moved(After(first, run[..|run| - 1]), run[|run| - 1])
  }

  // ---- what one move does ----------------------------------------------------------------------

  /** The choice gets the offer and a timeout; without one the trip ends, or waits on if it is new. */
  ghost predicate GoesToChoice(s: Search, t: Search, q: Query, best: Option<Candidate>, otherwise: Status) {
    && IsChoice(q, t.trip.rejected, |q.rows|, best)
    && t.trip.driver == s.trip.driver
    && if best.Some? then
      && t.trip.status == s.trip.status && t.trip.asked == Some(best.value.id)
      && t.timer == Some(best.value.id) && t.offers == s.offers + [best.value.id]
    else
      t.trip.status == otherwise && t.trip.asked == s.trip.asked && t.timer.None? && t.offers == s.offers
  }

  /**
   A timeout or rejection puts its driver on the list of a waiting trip; the choice among the
   others gets the offer, and only if nobody is open the trip ends without a driver.
   */
  lemma PassesOnToChoice(s: Search, m: Move) returns (best: Option<Candidate>)
    requires s.trip.status.WaitingDriver? && ((m.Fire? && s.timer.Some?) || m.Reject?)
    ensures var t, d := Moved(s, m), if m.Fire? then s.timer.value else m.rejecter;
      t.trip.rejected == s.trip.rejected + [d] && GoesToChoice(s, t, m.q, best, NoDriver)
  {
    var d := if m.Fire? then s.timer.value else m.rejecter;
    NearestExactly(m.q, |m.q.rows|, s.trip.rejected + [d]);
    best := FindNearest(m.q, s.trip.rejected + [d]);
    hide Nearest, IsChoice;
  }

  /** A new trip goes to the choice among all, and waits without an offer if nobody is open. */
  lemma RequestGoesToChoice(q: Query) returns (best: Option<Candidate>)
    ensures var s, start := Requested(q), Search(Trip(WaitingDriver, None, [], None), None, []);
      s.trip.rejected == [] && GoesToChoice(start, s, q, best, WaitingDriver)
  {
    NearestExactly(q, |q.rows|, []);
    best := FindNearest(q, []);
    hide Nearest, IsChoice;
  }

  /** Only a waiting trip can be taken, or passed on; a timeout that comes later just ends. */
  lemma OnlyWaitingTripsMove(s: Search, m: Move)
    requires !s.trip.status.WaitingDriver? && !m.Cancel?
    ensures Moved(s, m).trip == s.trip && Moved(s, m).offers == s.offers
  {
  }

  lemma TakenByFirst(s: Search, d: int)
    requires s.trip.status.WaitingDriver?
    ensures var t := Moved(s, Accept(d));
      t.trip == s.trip.(status := Accepted, driver := Some(d)) && t.timer.None? && t.offers == s.offers
  {
  }

  /** Every trip can be cancelled except one that is completed or has ended without a driver. */
  lemma CancelledExactly(s: Search)
    ensures Moved(s, Cancel).trip.status.Cancelled? <==> !(s.trip.status.Completed? || s.trip.status.NoDriver?)
  {
  }

  // ---- safety of single moves ----------------------------------------------------------------------

  /** Handled one at a time, no move offers the trip to a driver in its rejected list. */
  lemma NeverOfferedToRejected(s: Search, m: Move)
    ensures var t := Moved(s, m);
      t.offers == s.offers ||
      (|t.offers| == |s.offers| + 1 && t.offers == s.offers + [t.offers[|s.offers|]]
       && t.offers[|s.offers|] !in t.trip.rejected && s.trip.rejected <= t.trip.rejected)
  {
    if m.Fire? && s.timer.Some? {
      NearestIsBest(m.q, |m.q.rows|, s.trip.rejected + [s.timer.value]);
    } else if m.Reject? {
      NearestIsBest(m.q, |m.q.rows|, s.trip.rejected + [m.rejecter]);
    }
  }

  // ---- the search ends ---------------------------------------------------------------------------------

  /** Only timeouts and rejections by the driver who has the offer. */
  ghost predicate Loyal(s: Search, m: Move) {
    m.Fire? || (m.Reject? && s.trip.asked == Some(m.rejecter))
  }

  ghost predicate LoyalRun(first: Query, run: seq<Move>) {
    forall i :: 0 <= i < |run| ==> Loyal(After(first, run[..i]), run[i])
  }

  ghost predicate Distinct(ids: seq<int>) {
    forall i, j :: 0 <= i < j < |ids| ==> ids[i] != ids[j]
  }

  /** While the trip waits, everyone asked before the current driver is out; the timer is his. */
  ghost predicate InSequence(s: Search) {
    && Distinct(s.offers)
    && (s.trip.status.WaitingDriver? ==>
      if s.offers == [] then s.trip.asked.None? && s.timer.None? && s.trip.rejected == []
      else
        var last := |s.offers| - 1;
        s.trip.asked == Some(s.offers[last]) && s.timer == Some(s.offers[last]) && s.trip.rejected == s.offers[..last])
  }

  lemma PassKeepsSequence(s: Search, q: Query)
    requires InSequence(s) && s.trip.status.WaitingDriver? && s.offers != []
    ensures InSequence(PassedOn(s.(timer := None), s.offers[|s.offers| - 1], q))
  {
    var last := |s.offers| - 1;
    var rejected := s.trip.rejected + [s.offers[last]];
    assert rejected == s.offers;
    NearestIsBest(q, |q.rows|, rejected);
    hide Nearest;
    var t := PassedOn(s.(timer := None), s.offers[last], q);
    if t.trip.status.WaitingDriver? {
      var next := t.offers[|s.offers|];
      assert next !in s.offers;
      assert t.offers[..|s.offers|] == s.offers;
    }
  }

  lemma LoyalMoveKeepsSequence(s: Search, m: Move)
    requires InSequence(s) && Loyal(s, m)
    ensures InSequence(Moved(s, m))
  {
    if s.trip.status.WaitingDriver? && s.offers != [] {
      PassKeepsSequence(s, m.q);
    }
  }

  lemma {:induction false} LoyalRunsInSequence(first: Query, run: seq<Move>)
    requires LoyalRun(first, run)
    ensures InSequence(After(first, run))
  {
    if run != [] {
      var init := run[..|run| - 1];
      assert forall i :: 0 <= i < |init| ==> init[..i] == run[..i];
      LoyalRunsInSequence(first, init);
      assert Loyal(After(first, init), run[|init|]);
      LoyalMoveKeepsSequence(After(first, init), run[|init|]);
    }
  }

  ghost predicate Within(q: Query, ids: set<int>) {
    forall i :: 0 <= i < |q.rows| ==> q.rows[i].id in ids
  }

  /** Every query of the run only ever sees these drivers. */
  ghost predicate AllWithin(first: Query, run: seq<Move>, ids: set<int>) {
    Within(first, ids) && forall i :: 0 <= i < |run| && (run[i].Fire? || run[i].Reject?) ==> Within(run[i].q, ids)
  }

  lemma {:induction false} OffersWithin(first: Query, run: seq<Move>, ids: set<int>)
    requires AllWithin(first, run, ids)
    ensures forall i :: 0 <= i < |After(first, run).offers| ==> After(first, run).offers[i] in ids
  {
    if run == [] {
      NearestIsBest(first, |first.rows|, []);
    } else {
      var s, m := After(first, run[..|run| - 1]), run[|run| - 1];
      OffersWithin(first, run[..|run| - 1], ids);
      if m.Fire? && s.timer.Some? {
        NearestIsBest(m.q, |m.q.rows|, s.trip.rejected + [s.timer.value]);
      } else if m.Reject? {
        NearestIsBest(m.q, |m.q.rows|, s.trip.rejected + [m.rejecter]);
      }
    }
  }

  lemma {:induction false} DistinctWithin(ids: seq<int>, all: set<int>)
    requires Distinct(ids) && forall i :: 0 <= i < |ids| ==> ids[i] in all
    ensures |ids| <= |all|
  {
    if ids != [] {
      var last := ids[|ids| - 1];
      DistinctWithin(ids[..|ids| - 1], all - {last});
    }
  }

  /** Handled one at a time, timeouts and own rejections ask no driver twice, so at most every driver once. */
  lemma NobodyAskedTwice(first: Query, run: seq<Move>, ids: set<int>)
    requires LoyalRun(first, run)
    requires AllWithin(first, run, ids)
    ensures Distinct(After(first, run).offers) && |After(first, run).offers| <= |ids|
  {
    LoyalRunsInSequence(first, run);
    OffersWithin(first, run, ids);
    DistinctWithin(After(first, run).offers, ids);
  }

  /** Each such move either asks one more driver or ends the search. */
  lemma LoyalMoveIsProgress(s: Search, m: Move)
    requires InSequence(s) && Loyal(s, m) && s.trip.status.WaitingDriver? && s.offers != []
    ensures Moved(s, m).trip.status.NoDriver? || |Moved(s, m).offers| == |s.offers| + 1
  {
  }

  /** After as many timeouts and own rejections as there are drivers, a trip that was offered waits no more. */
  lemma SearchEnds(first: Query, run: seq<Move>, ids: set<int>)
    requires LoyalRun(first, run) && Requested(first).offers != []
    requires AllWithin(first, run, ids)
    requires |run| >= |ids|
    ensures After(first, run).trip.status.NoDriver?
  {
    LoyalCount(first, run);
    NobodyAskedTwice(first, run, ids);
  }

  lemma {:induction false} LoyalCount(first: Query, run: seq<Move>)
    requires LoyalRun(first, run) && Requested(first).offers != []
    ensures var s := After(first, run);
      s.trip.status.NoDriver? || (s.trip.status.WaitingDriver? && |s.offers| == 1 + |run|)
  {
    if run == [] {
      assert After(first, run) == Requested(first);
    } else {
      hide Moved, InSequence, Requested;
      var init := run[..|run| - 1];
      assert forall i :: 0 <= i < |init| ==> init[..i] == run[..i];
      LoyalCount(first, init);
      LoyalRunsInSequence(first, init);
      var s, m := After(first, init), run[|init|];
      assert Loyal(s, m);
      CountStep(s, m, |init|);
    }
  }

  lemma CountStep(s: Search, m: Move, n: nat)
    requires InSequence(s) && Loyal(s, m)
    requires s.trip.status.NoDriver? || (s.trip.status.WaitingDriver? && |s.offers| == 1 + n)
    ensures var t := Moved(s, m);
      t.trip.status.NoDriver? || (t.trip.status.WaitingDriver? && |t.offers| == 2 + n)
  {
    if s.trip.status.WaitingDriver? {
      LoyalMoveIsProgress(s, m);
    }
  }

  // ---- what breaks it ---------------------------------------------------------------------------------------

  ghost predicate AsksAgain(s: Search, m: Move) {
    var t := Moved(s, m);
    |t.offers| > |s.offers| && t.offers[|s.offers|] in s.offers
  }

  /** Handled one at a time, a rejection can ask somebody again exactly when its driver does not have the offer. */
  lemma ForeignRejectionAsksAgain(first: Query, run: seq<Move>, rejecter: int)
    requires LoyalRun(first, run)
    requires After(first, run).trip.status.WaitingDriver? && After(first, run).offers != []
    ensures (exists q :: AsksAgain(After(first, run), Reject(rejecter, q))) <==>
      After(first, run).trip.asked != Some(rejecter)
  {
    LoyalRunsInSequence(first, run);
    var s := After(first, run);
    var current := s.offers[|s.offers| - 1];
    if s.trip.asked == Some(rejecter) {
      forall q
        ensures !AsksAgain(s, Reject(rejecter, q))
      {
        PassKeepsSequence(s, q);
        if |Moved(s, Reject(rejecter, q)).offers| > |s.offers| {
          SequenceAsksNew(s, Moved(s, Reject(rejecter, q)));
        }
      }
    } else {
      var q := Query([Candidate(current, true, true, true)], None);
      assert Nearest(q, 0, s.trip.rejected + [rejecter]) == None;
      assert current !in s.trip.rejected + [rejecter];
      assert Moved(s, Reject(rejecter, q)).offers == s.offers + [current];
      assert AsksAgain(s, Reject(rejecter, q));
    }
  }

  lemma SequenceAsksNew(s: Search, t: Search)
    requires InSequence(t) && s.offers <= t.offers && |t.offers| > |s.offers|
    ensures t.offers[|s.offers|] !in s.offers
  {
    forall i | 0 <= i < |s.offers|
      ensures s.offers[i] != t.offers[|s.offers|]
    {
      assert t.offers[i] == s.offers[i];
    }
  }

  // ---- the matcher ---------------------------------------------------------------------------------------------

  /** The trip's row and its timer, as the handlers update them. */
  class Matcher {
    var status: Status
    var asked: Option<int>
    var rejected: seq<int>
    var driver: Option<int>
    var timer: Option<int>
    ghost var offers: seq<int>

    ghost function View(): Search
      reads this
    {
      Search(Trip(status, asked, rejected, driver), timer, offers)
    }

    constructor (q: Query)
      ensures View() == Requested(q)
    {
      status, asked, rejected, driver, timer, offers := WaitingDriver, None, [], None, None, [];
      new;
      var first := FindNearestDriver(q, []);
      if first.Some? {
        Send(first.value.id);
      }
    }

    method Send(d: int)
      modifies this`asked, this`timer, this`offers
      ensures View() == Offered(old(View()), d)
    {
      asked, timer := Some(d), Some(d);
      offers := offers + [d];
    }

    method PassOn(d: int, q: Query)
      modifies this
      ensures View() == PassedOn(old(View()), d, q)
    {
      rejected := rejected + [d];
      var next := FindNearestDriver(q, rejected);
      if next.Some? {
        Send(next.value.id);
      } else {
        status := NoDriver;
      }
    }

    method TimeoutFires(q: Query)
      modifies this
      ensures View() == Moved(old(View()), Fire(q))
    {
      if timer.Some? {
        var d := timer.value;
        timer := None;
        if status.WaitingDriver? {
          PassOn(d, q);
        }
      }
    }

    method RejectBy(d: int, q: Query) returns (ok: bool)
      modifies this
      ensures View() == Moved(old(View()), Reject(d, q))
      ensures ok == old(status).WaitingDriver?
    {
      ok := status.WaitingDriver?;
      if ok {
        timer := None;
        PassOn(d, q);
      }
    }

    /** The conditional update: one changed row, or none. */
    method AcceptBy(d: int) returns (changes: nat)
      modifies this
      ensures View() == Moved(old(View()), Accept(d))
      ensures changes == if old(status).WaitingDriver? then 1 else 0
    {
      changes := 0;
      if status.WaitingDriver? {
        status, driver, timer := Accepted, Some(d), None;
        changes := 1;
      }
    }
  }
}
