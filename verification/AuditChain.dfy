/**
 The append-only audit trail: records linked by checksums, their verification and
 reconciliation, and `record` calls racing through the per-namespace promise chain of
 src/application/audit/auditService.js. The checksum is a parameter `h` over everything
 the source hashes.
 */
module AuditChain {
  import opened Wrappers
  import opened PromiseChain

  /** `details` stands for the descriptive fields: actor, subject, resource, metadata and so on. */
  datatype Spec = Spec(action: string, details: string)

  /** What the clock and the id factory give a record. */
  datatype Stamp = Stamp(auditId: string, timestamp: int)

  datatype Content = Content(stamp: Stamp, spec: Spec, sequence: int, prevChecksum: string)

  datatype Record = Record(content: Content, checksum: string)

  const GENESIS: string := "0000000000000000000000000000000000000000000000000000000000000000"

  type Checksum = Content -> string

  ghost predicate Injective(h: Checksum) {
    forall a: Content, b: Content :: h(a) == h(b) ==> a == b
  }

  ghost predicate NeverEmpty(h: Checksum) {
    forall c: Content :: h(c) != ""
  }

  function LastOf(records: seq<Record>): Option<Record> {
    if records == [] then None else Some(records[|records| - 1])
  }

  /** An empty previous checksum falls back to the genesis value, as `||` does. */
  function CreateRecord(h: Checksum, spec: Spec, stamp: Stamp, tail: Option<Record>): Record {
    var sequence := if tail.Some? then tail.value.content.sequence + 1 else 0;
    var prev := if tail.Some? && tail.value.checksum != "" then tail.value.checksum else GENESIS;
    var content := Content(stamp, spec, sequence, prev);
    Record(content, h(content))
  }

  // ---- integrity -----------------------------------------------------------------------

  datatype Reason = ChecksumMismatch | ChainBreak | SequenceGap

  datatype Issue = Issue(auditId: string, sequence: int, reason: Reason)

  function ExpectedPrev(records: seq<Record>, i: nat): string
    requires i < |records|
  {
    if i == 0 then GENESIS else records[i - 1].checksum
  }

  predicate Faulty(h: Checksum, records: seq<Record>, i: nat, reason: Reason)
    requires i < |records|
  {
    match reason
    case ChecksumMismatch => records[i].checksum != h(records[i].content)
    case ChainBreak => records[i].content.prevChecksum != ExpectedPrev(records, i)
    case SequenceGap => records[i].content.sequence != i
  }

  predicate Good(h: Checksum, records: seq<Record>, i: nat)
    requires i < |records|
  {
    && records[i].checksum == h(records[i].content)
    && records[i].content.prevChecksum == ExpectedPrev(records, i)
    && records[i].content.sequence == i
  }

  /** Sequence 0, 1, 2 and so on, each record hashed and linked to the one before. */
  ghost predicate ValidChain(h: Checksum, records: seq<Record>) {
    forall i :: 0 <= i < |records| ==> Good(h, records, i)
  }

  function IssueAt(records: seq<Record>, i: nat, reason: Reason): Issue
    requires i < |records|
  {
    Issue(records[i].content.stamp.auditId, records[i].content.sequence, reason)
  }

  function Check(h: Checksum, records: seq<Record>, i: nat, reason: Reason): seq<Issue>
    requires i < |records|
  {
    if Faulty(h, records, i, reason) then [IssueAt(records, i, reason)] else []
  }

  /** The faults of one record, in the order the checks are made. */
  function FaultsAt(h: Checksum, records: seq<Record>, i: nat): seq<Issue>
    requires i < |records|
  {
    Check(h, records, i, ChecksumMismatch) + Check(h, records, i, ChainBreak) + Check(h, records, i, SequenceGap)
  }

  lemma FaultsAtExact(h: Checksum, records: seq<Record>, i: nat)
    requires i < |records|
    ensures FaultsAt(h, records, i) == [] <==> Good(h, records, i)
    ensures forall reason :: Faulty(h, records, i, reason) ==> IssueAt(records, i, reason) in FaultsAt(h, records, i)
    ensures forall issue :: issue in FaultsAt(h, records, i)
              ==> Faulty(h, records, i, issue.reason) && issue == IssueAt(records, i, issue.reason)
  {
    forall reason | Faulty(h, records, i, reason)
      ensures IssueAt(records, i, reason) in FaultsAt(h, records, i)
    {
      match reason
      case ChecksumMismatch =>
      case ChainBreak =>
      case SequenceGap =>
    }
  }

  /** The record is hashed, counts from zero, and names the checksum before it; the first names 64 zeros. */
  ghost predicate WellLinked(h: Checksum, records: seq<Record>, i: nat)
    requires i < |records|
  {
    && records[i].checksum == h(records[i].content)
    && records[i].content.sequence == i
    && (i > 0 ==> records[i].content.prevChecksum == records[i - 1].checksum)
    && (i == 0 ==>
      records[i].content.prevChecksum == "0000000000000000000000000000000000000000000000000000000000000000")
  }

  lemma ValidChainSays(h: Checksum, records: seq<Record>)
    ensures ValidChain(h, records) <==> forall i :: 0 <= i < |records| ==> WellLinked(h, records, i)
  {
    forall i | 0 <= i < |records|
      ensures Good(h, records, i) <==> WellLinked(h, records, i)
    {
    }
    hide Good, WellLinked;
  }

  /** The issue names the record, and its fault is one the record has. */
  ghost predicate Describes(h: Checksum, records: seq<Record>, i: nat, issue: Issue)
    requires i < |records|
  {
    var r := records[i];
    && issue.auditId == r.content.stamp.auditId && issue.sequence == r.content.sequence
    && (issue.reason.ChecksumMismatch? ==> r.checksum != h(r.content))
    && (issue.reason.ChainBreak? ==>
      r.content.prevChecksum != if i == 0 then GENESIS else records[i - 1].checksum)
    && (issue.reason.SequenceGap? ==> r.content.sequence != i)
  }

  lemma DescribesExactly(h: Checksum, records: seq<Record>, i: nat, issue: Issue)
    requires i < |records|
    ensures Describes(h, records, i, issue) <==>
      Faulty(h, records, i, issue.reason) && issue == IssueAt(records, i, issue.reason)
  {
  }

  /** The issues are exactly the faults of the first `n` records. */
  ghost predicate Reported(h: Checksum, records: seq<Record>, n: nat, issues: seq<Issue>) {
    && n <= |records|
    && (issues == [] <==> forall k :: 0 <= k < n ==> Good(h, records, k))
    && (forall k, reason :: 0 <= k < n && Faulty(h, records, k, reason) ==> IssueAt(records, k, reason) in issues)
    && (forall issue :: issue in issues ==>
      exists k :: 0 <= k < n && Faulty(h, records, k, issue.reason) && issue == IssueAt(records, k, issue.reason))
  }

  lemma ReportMore(h: Checksum, records: seq<Record>, n: nat, issues: seq<Issue>)
    requires Reported(h, records, n, issues) && n < |records|
    ensures Reported(h, records, n + 1, issues + FaultsAt(h, records, n))
  {
    FaultsAtExact(h, records, n);
    hide FaultsAt, Faulty, Good, IssueAt;
    var more := issues + FaultsAt(h, records, n);
    forall issue | issue in more
      ensures exists k ::
        0 <= k < n + 1 && Faulty(h, records, k, issue.reason) && issue == IssueAt(records, k, issue.reason)
    {
      if issue in issues {
        var k :| 0 <= k < n && Faulty(h, records, k, issue.reason) && issue == IssueAt(records, k, issue.reason);
      }
    }
  }

  /** Reports every fault of every record and nothing else; accepts exactly the valid chains. */
  method Verify(h: Checksum, records: seq<Record>) returns (ok: bool, issues: seq<Issue>)
    ensures ok <==> ValidChain(h, records)
    ensures ok <==> issues == []
    ensures forall issue :: issue in issues <==> exists i :: 0 <= i < |records| && Describes(h, records, i, issue)
  {
    issues := [];
    for i := 0 to |records|
      invariant Reported(h, records, i, issues)
    {
      hide *;
      ReportMore(h, records, i, issues);
      issues := issues + FaultsAt(h, records, i);
    }
    ok := |issues| == 0;
    ReportedDescribes(h, records, issues);
  }

  lemma ReportedDescribes(h: Checksum, records: seq<Record>, issues: seq<Issue>)
    requires Reported(h, records, |records|, issues)
    ensures forall issue :: issue in issues <==> exists i :: 0 <= i < |records| && Describes(h, records, i, issue)
  {
    forall i, issue | 0 <= i < |records|
      ensures Describes(h, records, i, issue) <==>
        Faulty(h, records, i, issue.reason) && issue == IssueAt(records, i, issue.reason)
    {
      DescribesExactly(h, records, i, issue);
    }
    hide Describes, Faulty, IssueAt, Good;
    forall issue
      ensures issue in issues <==> exists i :: 0 <= i < |records| && Describes(h, records, i, issue)
    {
      if i :| 0 <= i < |records| && Describes(h, records, i, issue) {
        assert Faulty(h, records, i, issue.reason);
      }
    }
  }

  /** `lastGood + 1` is the length of the longest valid prefix; the next record is the first break. */
  method Reconcile(h: Checksum, records: seq<Record>) returns (lastGood: int, firstBreak: Option<Record>)
    ensures -1 <= lastGood < |records|
    ensures forall n :: 0 <= n <= |records| ==> (ValidChain(h, records[..n]) <==> n <= lastGood + 1)
    ensures firstBreak == if lastGood + 1 < |records| then Some(records[lastGood + 1]) else None
    ensures firstBreak.None? <==> ValidChain(h, records)
  {
    lastGood := -1;
    var i := 0;
    while i < |records| && Good(h, records, i)
      invariant 0 <= i <= |records| && lastGood == i - 1
      invariant forall k :: 0 <= k < i ==> Good(h, records, k)
    {
      lastGood := i;
      i := i + 1;
    }
    firstBreak := if i < |records| then Some(records[i]) else None;
    forall n | 0 <= n <= |records|
      ensures ValidChain(h, records[..n]) <==> n <= lastGood + 1
    {
      PrefixGood(h, records, n);
      assert i < n ==> !Good(h, records, i);
    }
    assert records[..|records|] == records;
  }

  /** A record is as good in the whole as in a prefix, so cutting off the end goes unnoticed. */
  lemma PrefixGood(h: Checksum, records: seq<Record>, n: nat)
    requires n <= |records|
    ensures forall i :: 0 <= i < n ==> (Good(h, records[..n], i) <==> Good(h, records, i))
  {
  }

  /**
   Tamper evidence: with a collision-free checksum, two accepted trails that end in the
   same checksum are the same trail.
   */
  lemma {:induction false} SameTipSameTrail(h: Checksum, a: seq<Record>, b: seq<Record>)
    requires Injective(h) && ValidChain(h, a) && ValidChain(h, b)
    requires |a| > 0 && |b| > 0 && a[|a| - 1].checksum == b[|b| - 1].checksum
    ensures a == b
  {
    var i, j := |a| - 1, |b| - 1;
    assert Good(h, a, i) && Good(h, b, j);
    assert a[i].content == b[j].content;
    if i > 0 {
      PrefixGood(h, a, i);
      PrefixGood(h, b, i);
      SameTipSameTrail(h, a[..i], b[..i]);
    }
    assert a == a[..i] + [a[i]] && b == b[..i] + [b[i]];
  }

  lemma AppendedIsValid(h: Checksum, records: seq<Record>, spec: Spec, stamp: Stamp)
    requires NeverEmpty(h) && ValidChain(h, records)
    ensures ValidChain(h, records + [CreateRecord(h, spec, stamp, LastOf(records))])
  {
    var n := |records|;
    var longer := records + [CreateRecord(h, spec, stamp, LastOf(records))];
    if n > 0 {
      assert Good(h, records, n - 1);
    }
    assert Good(h, longer, n);
    assert longer[..n] == records;
    PrefixGood(h, longer, n);
  }

  // ---- concurrent appends ----------------------------------------------------------------

  /** How far a call has come: asked for the tail, knows it, has had its record stored. */
  datatype Work = Idle | Begun | TailKnown(tail: Option<Record>) | Written(record: Record)

  datatype Call = Call(spec: Spec, work: Work)

  /** `writers` remembers which call stored each record of a namespace. */
  datatype Audit = Audit(chains: Chains, calls: seq<Call>,
                         stores: map<string, seq<Record>>, writers: map<string, seq<nat>>)

  /**
   What the event loop and the provider may do next. An append may be stored and
   acknowledged, lost and refused, or stored and refused all the same; a call whose
   tail cannot be read is refused before anything is written.
   */
  datatype Move =
    | Ask(namespace: string, spec: Spec)
    | Begin(call: nat)
    | ReadTail(call: nat)
    | Store(call: nat, stamp: Stamp)
    | Finish(call: nat, ok: bool)

  const NO_AUDIT := Audit(EMPTY, [], map[], map[])

  function Records(a: Audit, namespace: string): seq<Record> {
    if namespace in a.stores then a.stores[namespace] else []
  }

  function Writers(a: Audit, namespace: string): seq<nat> {
    if namespace in a.writers then a.writers[namespace] else []
  }

  predicate InCall(a: Audit, t: nat) {
    IsRunning(a.chains, t) && t < |a.calls|
  }

  /** A call without an action is turned away before it reaches the queue. */
  predicate MayMove(a: Audit, m: Move) {
    match m
    case Ask(_, spec) => spec.action != ""
    case Begin(t) => CanStart(a.chains, t) && t < |a.calls|
    case ReadTail(t) => InCall(a, t) && a.calls[t].work.Begun?
    case Store(t, _) => InCall(a, t) && a.calls[t].work.TailKnown?
    case Finish(t, ok) => InCall(a, t) && (ok ==> a.calls[t].work.Written?)
  }

  function WithWork(a: Audit, t: nat, work: Work): Audit
    requires t < |a.calls|
  {
    a.(calls := a.calls[t := a.calls[t].(work := work)])
  }

  function Stored(h: Checksum, a: Audit, t: nat, stamp: Stamp): Audit
    requires InCall(a, t) && a.calls[t].work.TailKnown?
  {
    var namespace := a.chains.tasks[t].key;
    var record := CreateRecord(h, a.calls[t].spec, stamp, a.calls[t].work.tail);
    WithWork(a, t, Written(record)).(
      stores := a.stores[namespace := Records(a, namespace) + [record]],
      writers := a.writers[namespace := Writers(a, namespace) + [t]])
  }

  function Moved(h: Checksum, a: Audit, m: Move): Audit {
    if !MayMove(a, m) then a
    else
      match m
      case Ask(namespace, spec) =>
        a.(chains := Submitted(a.chains, namespace), calls := a.calls + [Call(spec, Idle)])
      case Begin(t) =>
        WithWork(a, t, Begun).(chains := WithPhase(a.chains, t, Running))
      case ReadTail(t) =>
        WithWork(a, t, TailKnown(LastOf(Records(a, a.chains.tasks[t].key))))
      case Store(t, stamp) =>
        Stored(h, a, t, stamp)
      case Finish(t, ok) =>
        a.(chains := WithPhase(a.chains, t, Settled(ok)))
  }

  function AuditAfter(h: Checksum, run: seq<Move>): Audit {
    if run == [] then NO_AUDIT else Moved(h, AuditAfter(h, run[..|run| - 1]), run[|run| - 1])
  }

  /** Only calls that have begun know anything; a successful call has written its record. */
  ghost predicate WorkMatches(a: Audit, t: nat)
    requires t < |a.calls| && t < |a.chains.tasks|
  {
    && (a.chains.tasks[t].phase.Waiting? <==> a.calls[t].work.Idle?)
    && (a.chains.tasks[t].phase == Settled(true) ==> a.calls[t].work.Written?)
  }

  /** What a running call read is still the end of its namespace. */
  ghost predicate TailFresh(a: Audit, t: nat)
    requires t < |a.calls| && t < |a.chains.tasks|
  {
    (InCall(a, t) && a.calls[t].work.TailKnown?)
    ==> a.calls[t].work.tail == LastOf(Records(a, a.chains.tasks[t].key))
  }

  /** `records` are those of the namespace's calls `ids`, in call order. */
  ghost predicate Recorded(a: Audit, namespace: string, records: seq<Record>, ids: seq<nat>)
    requires |a.calls| == |a.chains.tasks|
  {
    && |ids| == |records|
    && (forall i :: 0 <= i < |ids| ==>
      && ids[i] < |a.calls|
      && a.chains.tasks[ids[i]].key == namespace
      && a.calls[ids[i]].work == Written(records[i])
      && records[i].content.spec == a.calls[ids[i]].spec)
    && (forall i, j :: 0 <= i < j < |ids| ==> ids[i] < ids[j])
  }

  ghost predicate Attributed(a: Audit, namespace: string)
    requires |a.calls| == |a.chains.tasks|
  {
    && Recorded(a, namespace, Records(a, namespace), Writers(a, namespace))
    && (forall t :: (0 <= t < |a.calls| && a.chains.tasks[t].key == namespace && a.calls[t].work.Written?)
                    ==> t in Writers(a, namespace))
  }

  ghost predicate Intact(h: Checksum, a: Audit) {
    && Sound(a.chains)
    && |a.calls| == |a.chains.tasks|
    && (forall t :: 0 <= t < |a.calls| ==> WorkMatches(a, t) && TailFresh(a, t))
    && (forall namespace :: Attributed(a, namespace))
    && (forall namespace :: ValidChain(h, Records(a, namespace)))
  }

  /** The calls that matter for attribution are as they were. */
  ghost predicate SameWritten(a: Audit, b: Audit, except: nat) {
    && |a.calls| == |a.chains.tasks| <= |b.calls| == |b.chains.tasks|
    && (forall t :: 0 <= t < |a.calls| ==>
      && a.chains.tasks[t].key == b.chains.tasks[t].key
      && a.calls[t].spec == b.calls[t].spec
      && (t != except && (a.calls[t].work.Written? || b.calls[t].work.Written?) ==> a.calls[t].work == b.calls[t].work))
    && (forall t :: |a.calls| <= t < |b.calls| ==> !b.calls[t].work.Written?)
  }

  lemma AttributionFrame(a: Audit, b: Audit, except: nat, namespace: string)
    requires SameWritten(a, b, except)
    requires except < |a.calls| ==> a.chains.tasks[except].key != namespace
    requires Records(a, namespace) == Records(b, namespace) && Writers(a, namespace) == Writers(b, namespace)
    requires Attributed(a, namespace)
    ensures Attributed(b, namespace)
  {
  }

  lemma AttributionAppend(a: Audit, b: Audit, t: nat, record: Record, namespace: string)
    requires SameWritten(a, b, t) && Attributed(a, namespace)
    requires t < |a.calls| && a.chains.tasks[t].key == namespace && b.calls[t].work == Written(record)
    requires record.content.spec == b.calls[t].spec
    requires Records(b, namespace) == Records(a, namespace) + [record]
    requires Writers(b, namespace) == Writers(a, namespace) + [t]
    requires forall i :: 0 <= i < |Writers(a, namespace)| ==> Writers(a, namespace)[i] < t
    ensures Attributed(b, namespace)
  {
  }

  lemma WritersAreEarlier(h: Checksum, a: Audit, t: nat)
    requires Intact(h, a) && InCall(a, t) && a.calls[t].work.TailKnown?
    ensures var ids := Writers(a, a.chains.tasks[t].key);
      forall i :: 0 <= i < |ids| ==> ids[i] < t
  {
    var ids := Writers(a, a.chains.tasks[t].key);
    assert Attributed(a, a.chains.tasks[t].key);
    forall i | 0 <= i < |ids|
      ensures ids[i] < t
    {
      assert WorkMatches(a, ids[i]);
    }
  }

  lemma StoreKeepsAttributed(h: Checksum, a: Audit, t: nat, stamp: Stamp, namespace: string)
    requires Intact(h, a) && InCall(a, t) && a.calls[t].work.TailKnown?
    ensures Attributed(Stored(h, a, t, stamp), namespace)
  {
    hide ValidChain, Sound, TailFresh, WorkMatches, Attributed;
    var b := Stored(h, a, t, stamp);
    assert Attributed(a, namespace);
    if namespace == a.chains.tasks[t].key {
      WritersAreEarlier(h, a, t);
      AttributionAppend(a, b, t, b.calls[t].work.record, namespace);
    } else {
      AttributionFrame(a, b, t, namespace);
    }
  }

  lemma StoreKeepsIntact(h: Checksum, a: Audit, t: nat, stamp: Stamp)
    requires NeverEmpty(h) && Intact(h, a) && InCall(a, t) && a.calls[t].work.TailKnown?
    ensures Intact(h, Stored(h, a, t, stamp))
  {
    hide ValidChain, Attributed, WorkMatches, TailFresh, Sound;
    var b := Stored(h, a, t, stamp);
    forall namespace
      ensures Attributed(b, namespace) && ValidChain(h, Records(b, namespace))
    {
      StoreKeepsAttributed(h, a, t, stamp, namespace);
      StoreKeepsValid(h, a, t, stamp, namespace);
    }
    forall u | 0 <= u < |b.calls|
      ensures WorkMatches(b, u) && TailFresh(b, u)
    {
      StoreKeepsOthers(h, a, t, stamp, u);
    }
  }

  lemma StoreKeepsValid(h: Checksum, a: Audit, t: nat, stamp: Stamp, namespace: string)
    requires NeverEmpty(h) && Intact(h, a) && InCall(a, t) && a.calls[t].work.TailKnown?
    ensures ValidChain(h, Records(Stored(h, a, t, stamp), namespace))
  {
    assert TailFresh(a, t) && ValidChain(h, Records(a, namespace));
    hide ValidChain, Attributed, WorkMatches, Sound;
    AppendedIsValid(h, Records(a, namespace), a.calls[t].spec, stamp);
  }

  lemma StoreKeepsOthers(h: Checksum, a: Audit, t: nat, stamp: Stamp, u: nat)
    requires Intact(h, a) && InCall(a, t) && a.calls[t].work.TailKnown? && u < |a.calls|
    ensures WorkMatches(Stored(h, a, t, stamp), u) && TailFresh(Stored(h, a, t, stamp), u)
  {
    assert WorkMatches(a, u) && TailFresh(a, u) && WorkMatches(a, t);
    hide ValidChain, Attributed;
  }

  lemma OtherMovesKeepWork(h: Checksum, a: Audit, m: Move)
    requires Intact(h, a) && MayMove(a, m) && !m.Store?
    ensures var b := Moved(h, a, m);
      && SameWritten(a, b, |a.calls|)
      && forall u :: 0 <= u < |b.calls| ==> WorkMatches(b, u) && TailFresh(b, u)
  {
    var b := Moved(h, a, m);
    if !m.Ask? {
      assert WorkMatches(a, m.call);
    }
    forall u | 0 <= u < |b.calls|
      ensures WorkMatches(b, u) && TailFresh(b, u)
    {
      assert u < |a.calls| ==> WorkMatches(a, u) && TailFresh(a, u);
    }
  }

  lemma OtherMovesKeepSound(h: Checksum, a: Audit, m: Move)
    requires Sound(a.chains) && MayMove(a, m) && !m.Store?
    ensures Sound(Moved(h, a, m).chains)
  {
    hide Sound;
    match m {
      case Ask(namespace, _) => SubmitKeepsSound(a.chains, namespace);
      case Begin(t) => StartKeepsSound(a.chains, t);
      case ReadTail(t) =>
      case Finish(t, ok) => SettleKeepsSound(a.chains, t, ok);
    }
  }

  lemma OtherMovesKeepIntact(h: Checksum, a: Audit, m: Move)
    requires Intact(h, a) && MayMove(a, m) && !m.Store?
    ensures Intact(h, Moved(h, a, m))
  {
    var b := Moved(h, a, m);
    hide Sound;
    OtherMovesKeepSound(h, a, m);
    OtherMovesKeepWork(h, a, m);
    assert b.stores == a.stores && b.writers == a.writers;
    forall namespace
      ensures Attributed(b, namespace) && ValidChain(h, Records(b, namespace))
    {
      hide Moved, Attributed, MayMove;
      assert Attributed(a, namespace) && ValidChain(h, Records(a, namespace));
      AttributionFrame(a, b, |a.calls|, namespace);
    }
  }

  lemma {:induction false} RunsKeepIntact(h: Checksum, run: seq<Move>)
    requires NeverEmpty(h)
    ensures Intact(h, AuditAfter(h, run))
  {
    if run != [] {
      var a, m := AuditAfter(h, run[..|run| - 1]), run[|run| - 1];
      RunsKeepIntact(h, run[..|run| - 1]);
      if MayMove(a, m) {
        if m.Store? {
          StoreKeepsIntact(h, a, m.call, m.stamp);
        } else {
          OtherMovesKeepIntact(h, a, m);
        }
      }
    }
  }

  /**
   Under every interleaving of `record` calls, failing ones included, each namespace
   holds a valid chain whose records belong to its calls in call order; every call that
   succeeded is among them, with what it was asked to record.
   */
  lemma TrailsStayValid(h: Checksum, run: seq<Move>, namespace: string) returns (ids: seq<nat>)
    requires NeverEmpty(h)
    ensures var a := AuditAfter(h, run);
      && ValidChain(h, Records(a, namespace))
      && |a.calls| == |a.chains.tasks|
      && Recorded(a, namespace, Records(a, namespace), ids)
      && (forall t ::
        (0 <= t < |a.calls| && a.chains.tasks[t].key == namespace && a.chains.tasks[t].phase == Settled(true))
                      ==> t in ids)
  {
    RunsKeepIntact(h, run);
    var a := AuditAfter(h, run);
    assert Attributed(a, namespace);
    ids := Writers(a, namespace);
    forall t | 0 <= t < |a.calls| && a.chains.tasks[t].key == namespace && a.chains.tasks[t].phase == Settled(true)
      ensures t in ids
    {
      assert WorkMatches(a, t);
    }
  }

  // ---- every call with an action can be recorded ----------------------------------------------

  /** Only calls with an action are ever accepted. */
  lemma {:induction false} AcceptedCallsHaveActions(h: Checksum, run: seq<Move>, t: nat)
    requires t < |AuditAfter(h, run).calls|
    ensures AuditAfter(h, run).calls[t].spec.action != ""
  {
    if run != [] && t < |AuditAfter(h, run[..|run| - 1]).calls| {
      AcceptedCallsHaveActions(h, run[..|run| - 1], t);
    }
  }

  lemma OneMore(h: Checksum, run: seq<Move>, m: Move) returns (longer: seq<Move>)
    ensures longer == run + [m] && AuditAfter(h, longer) == Moved(h, AuditAfter(h, run), m)
  {
    longer := run + [m];
    assert longer[..|run|] == run;
  }

  /** The call waits behind others of its namespace, with what it is asked to record. */
  ghost predicate Waits(a: Audit, t: nat, namespace: string, spec: Spec) {
    && t < |a.chains.tasks| && t < |a.calls|
    && a.chains.tasks[t].key == namespace && a.chains.tasks[t].phase.Waiting? && a.calls[t].spec == spec
  }

  lemma SomebodyAheadMoves(h: Checksum, a: Audit, t: nat, namespace: string, spec: Spec) returns (m: Move)
    requires Intact(h, a) && Waits(a, t, namespace, spec) && !CanStart(a.chains, t)
    ensures Waits(Moved(h, a, m), t, namespace, spec)
    ensures Load(Moved(h, a, m).chains.tasks) < Load(a.chains.tasks)
  {
    hide Sound, Attributed, ValidChain, Load;
    var next := NeverStuck(a.chains, t);
    m := if IsRunning(a.chains, next) then Finish(next, false) else Begin(next);
    LoadDrops(a.chains.tasks, next, Moved(h, a, m).chains.tasks[next]);
  }

  /** Calls that are ahead in the queue end somehow, and then it is this one's turn. */
  lemma ItsTurnComes(h: Checksum, run: seq<Move>, t: nat, namespace: string, spec: Spec) returns (more: seq<Move>)
    requires NeverEmpty(h) && Waits(AuditAfter(h, run), t, namespace, spec)
    ensures Waits(AuditAfter(h, run + more), t, namespace, spec) && CanStart(AuditAfter(h, run + more).chains, t)
    decreases Load(AuditAfter(h, run).chains.tasks)
  {
    hide Intact, AuditAfter, Moved, CanStart, Load;
    RunsKeepIntact(h, run);
    var a := AuditAfter(h, run);
    if CanStart(a.chains, t) {
      more := [];
      assert run + more == run;
    } else {
      var m := SomebodyAheadMoves(h, a, t, namespace, spec);
      var longer := OneMore(h, run, m);
      var rest := ItsTurnComes(h, longer, t, namespace, spec);
      more := [m] + rest;
      assert run + more == longer + rest;
    }
  }

  /** The call has succeeded, and its record is the last of the namespace. */
  ghost predicate RecordedLast(a: Audit, t: nat, namespace: string, spec: Spec, stamp: Stamp) {
    && t < |a.chains.tasks| && a.chains.tasks[t].phase == Settled(true)
    && LastOf(Records(a, namespace)).Some?
    && LastOf(Records(a, namespace)).value.content.spec == spec
    && LastOf(Records(a, namespace)).value.content.stamp == stamp
  }

  /** Once it is its turn, the call reads the tail, stores its record and succeeds. */
  lemma TurnIsRecorded(h: Checksum, run: seq<Move>, t: nat, namespace: string, spec: Spec, stamp: Stamp)
    returns (more: seq<Move>)
    requires Waits(AuditAfter(h, run), t, namespace, spec) && CanStart(AuditAfter(h, run).chains, t)
    ensures RecordedLast(AuditAfter(h, run + more), t, namespace, spec, stamp)
  {
    var begun := OneMore(h, run, Begin(t));
    var known := OneMore(h, begun, ReadTail(t));
    var stored := OneMore(h, known, Store(t, stamp));
    var done := OneMore(h, stored, Finish(t, true));
    more := [Begin(t), ReadTail(t), Store(t, stamp), Finish(t, true)];
    hide AuditAfter;
    assert run + more == done;
  }

  /**
   After every run, a call for any namespace with any action can be made, and can succeed:
   then its record is the last of the namespace.
   */
  lemma EveryActionCanBeRecorded(h: Checksum, run: seq<Move>, namespace: string, spec: Spec, stamp: Stamp)
    returns (more: seq<Move>)
    requires NeverEmpty(h) && spec.action != ""
    ensures more != [] && more[0] == Ask(namespace, spec)
    ensures RecordedLast(AuditAfter(h, run + more), |AuditAfter(h, run).chains.tasks|, namespace, spec, stamp)
  {
    var t := |AuditAfter(h, run).chains.tasks|;
    RunsKeepIntact(h, run);
    var asked := OneMore(h, run, Ask(namespace, spec));
    hide AuditAfter, Intact;
    var until := ItsTurnComes(h, asked, t, namespace, spec);
    var rest := TurnIsRecorded(h, asked + until, t, namespace, spec, stamp);
    more := [Ask(namespace, spec)] + until + rest;
    assert run + more == asked + until + rest;
  }
}
