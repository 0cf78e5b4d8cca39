/** Gap detection, resynchronisation and recovery counting for one symbol's stream. */
module Continuity {
  import opened Options

  /** Limits in nanoseconds and packets; the constructor guards are in `Valid`. */
  datatype Limits = Limits(maxSequenceGap: int, maxTimestampGap: int, maxStaleAge: int, recoveryRequired: int) {
    ghost predicate Valid() {
      maxSequenceGap >= 1 && maxTimestampGap >= 0 && maxStaleAge >= 0 && recoveryRequired >= 1
    }
  }

  /** A market-data packet together with the clock it is judged against. */
  datatype Packet = Packet(ts: int, sequenceId: Option<int>, now: int)

  datatype ContinuityState = ContinuityState(
    lastSequenceId: Option<int>,
    lastTimestamp: Option<int>,
    gapDetected: bool,
    gapStart: Option<int>,
    consecutiveGood: nat,
    lastValidData: Option<int>)

  const FRESH := ContinuityState(None, None, false, None, 0, None)

  datatype Reason = Stale | TimestampReversal | TimestampGap | BadSequence | SequenceNotIncreasing | SequenceGap

  datatype Verdict = Accepted | Rejected(reason: Reason) {
    predicate Gap() { this == Rejected(TimestampGap) || this == Rejected(SequenceGap) }
  }

  function CheckStaleness(c: Limits, p: Packet): Verdict {
    if p.now - p.ts > c.maxStaleAge then Rejected(Stale) else Accepted
  }

  function CheckTimestamp(c: Limits, st: ContinuityState, ts: int): (ContinuityState, Verdict) {
    if st.lastTimestamp.Some? && ts < st.lastTimestamp.value then (st, Rejected(TimestampReversal))
    else if st.lastTimestamp.Some? && ts - st.lastTimestamp.value > c.maxTimestampGap then
      (st.(gapDetected := true, gapStart := Some(ts), consecutiveGood := 0, lastTimestamp := Some(ts)),
       Rejected(TimestampGap))
    else (st.(lastTimestamp := Some(ts)), Accepted)
  }

  function CheckSequence(c: Limits, st: ContinuityState, id: Option<int>, ts: int): (ContinuityState, Verdict) {
    if id.None? then (st, Accepted)
    else if id.value <= 0 then (st, Rejected(BadSequence))
    else if st.lastSequenceId.Some? && id.value <= st.lastSequenceId.value then (st, Rejected(SequenceNotIncreasing))
    else if st.lastSequenceId.Some? && id.value - st.lastSequenceId.value > c.maxSequenceGap then
      (st.(gapDetected := true, gapStart := Some(ts), consecutiveGood := 0, lastSequenceId := id),
       Rejected(SequenceGap))
    else (st.(lastSequenceId := id), Accepted)
  }

  function MarkGood(c: Limits, st: ContinuityState): ContinuityState {
    if st.gapDetected then
      st.(consecutiveGood := st.consecutiveGood + 1, gapDetected := st.consecutiveGood + 1 < c.recoveryRequired)
    else st.(consecutiveGood := 0)
  }

  /** The pipeline of `validate`: staleness, timestamp, sequence, then recovery counting. */
  function Validate(c: Limits, st: ContinuityState, p: Packet): (ContinuityState, Verdict) {
    if CheckStaleness(c, p).Rejected? then (st, CheckStaleness(c, p))
    else
      var (afterTs, tsVerdict) := CheckTimestamp(c, st, p.ts);
      if tsVerdict.Rejected? then (afterTs, tsVerdict)
      else
        var (afterSeq, seqVerdict) := CheckSequence(c, afterTs, p.sequenceId, p.ts);
        if seqVerdict.Rejected? then (afterSeq, seqVerdict)
        else (MarkGood(c, afterSeq).(lastValidData := Some(p.ts)), Accepted)
  }

  /**
   * What the runtime does to one symbol's state; `Mark` and `Record` are also called directly on trades and candles.
   */
  datatype Event = Check(p: Packet) | Mark | Record(ts: int) | Reset

  function Step(c: Limits, st: ContinuityState, e: Event): ContinuityState {
    match e
    case Check(p) => Validate(c, st, p).0
    case Mark => MarkGood(c, st)
    case Record(ts) => st.(lastValidData := Some(ts))
    case Reset => FRESH
  }

  function Run(c: Limits, st: ContinuityState, es: seq<Event>): ContinuityState {
    if es == [] then st else Step(c, Run(c, st, es[..|es| - 1]), es[|es| - 1])
  }

  function VerdictAt(c: Limits, st: ContinuityState, es: seq<Event>, i: nat): Option<Verdict>
    requires i < |es|
  {
    if es[i].Check? then Some(Validate(c, Run(c, st, es[..i]), es[i].p).1) else None
  }

  // ---- Invariants over every run ----

  ghost predicate Inv(c: Limits, st: ContinuityState) {
    && (st.gapDetected ==> st.consecutiveGood < c.recoveryRequired)
    && (st.lastSequenceId.Some? ==> st.lastSequenceId.value > 0)
  }

  lemma {:induction false} RunInv(c: Limits, st: ContinuityState, es: seq<Event>)
    requires c.Valid() && Inv(c, st)
    ensures Inv(c, Run(c, st, es))
  {
    if es != [] {
      RunInv(c, st, es[..|es| - 1]);
    }
  }

  /** Some gap was detected since the last reset. */
  function GapSeen(c: Limits, es: seq<Event>): bool {
    if es == [] then false
    else
      var k := |es| - 1;
      match es[k]
      case Reset => false
      case Check(p) => Validate(c, Run(c, FRESH, es[..k]), p).1.Gap() || GapSeen(c, es[..k])
      case _ => GapSeen(c, es[..k])
  }

  /** Accepted packets and direct marks since the last gap (or reset). */
  function GoodSinceGap(c: Limits, es: seq<Event>): nat {
    if es == [] then 0
    else
      var k := |es| - 1;
      match es[k]
      case Reset => 0
      case Check(p) =>
        var v := Validate(c, Run(c, FRESH, es[..k]), p).1;
        if v.Gap() then 0 else if v.Accepted? then GoodSinceGap(c, es[..k]) + 1 else GoodSinceGap(c, es[..k])
      case Mark => GoodSinceGap(c, es[..k]) + 1
      case Record(_) => GoodSinceGap(c, es[..k])
  }

  /** In every run the gap flag is up exactly while fewer than the required packets were good since the last gap. */
  lemma {:induction false} GapFlagExactly(c: Limits, es: seq<Event>)
    requires c.Valid()
    ensures var st := Run(c, FRESH, es);
            && (st.gapDetected <==> GapSeen(c, es) && GoodSinceGap(c, es) < c.recoveryRequired)
            && (st.gapDetected ==> st.consecutiveGood == GoodSinceGap(c, es))
  {
    if es != [] {
      GapFlagExactly(c, es[..|es| - 1]);
    }
  }

  predicate NotBefore(a: Option<int>, b: Option<int>) {
    a.Some? ==> b.Some? && a.value <= b.value
  }

  predicate SameOrLater(a: Option<int>, b: Option<int>) {
    a == b || (b.Some? && (a.Some? ==> a.value < b.value))
  }

  /** One call: the timestamp baseline never decreases and the sequence baseline moves only strictly up. */
  lemma BaselineStep(c: Limits, st: ContinuityState, e: Event)
    requires !e.Reset?
    ensures NotBefore(st.lastTimestamp, Step(c, st, e).lastTimestamp)
    ensures SameOrLater(st.lastSequenceId, Step(c, st, e).lastSequenceId)
  {
  }

  lemma {:induction false} BaselineRun(c: Limits, st: ContinuityState, es: seq<Event>, i: nat, j: nat)
    requires i <= j <= |es| && forall k :: i <= k < j ==> !es[k].Reset?
    ensures NotBefore(Run(c, st, es[..i]).lastTimestamp, Run(c, st, es[..j]).lastTimestamp)
    ensures NotBefore(Run(c, st, es[..i]).lastSequenceId, Run(c, st, es[..j]).lastSequenceId)
    decreases j
  {
    if i < j {
      BaselineRun(c, st, es, i, j - 1);
      assert es[..j][..j - 1] == es[..j - 1];
      BaselineStep(c, Run(c, st, es[..j - 1]), es[j - 1]);
    }
  }

  /** Accepted packets inherit both orders: timestamps never reverse, sequence ids strictly rise. */
  lemma AcceptedInOrder(c: Limits, st: ContinuityState, es: seq<Event>, i: nat, j: nat)
    requires i < j < |es| && forall k :: i <= k <= j ==> !es[k].Reset?
    requires VerdictAt(c, st, es, i) == Some(Accepted) && VerdictAt(c, st, es, j) == Some(Accepted)
    ensures es[i].p.ts <= es[j].p.ts
    ensures es[i].p.sequenceId.Some? && es[j].p.sequenceId.Some?
            ==> es[i].p.sequenceId.value < es[j].p.sequenceId.value
  {
    assert es[..i + 1][..i] == es[..i];
    BaselineRun(c, st, es, i + 1, j);
  }

  // ---- Bounded recovery ----

  function Checks(ps: seq<Packet>): (es: seq<Event>)
    ensures |es| == |ps|
  {
    seq(|ps|, i requires 0 <= i < |ps| => Check(ps[i]))
  }

  /** Consecutive ids, timestamps that neither reverse nor jump, no stale packet. */
  ghost predicate Steady(c: Limits, ps: seq<Packet>) {
    && (forall i :: 0 <= i < |ps| ==> ps[i].sequenceId.Some? && ps[i].sequenceId.value > 0)
    && (forall i :: 0 <= i < |ps| ==> ps[i].now - ps[i].ts <= c.maxStaleAge)
    && (forall i :: 0 <= i < |ps| - 1 ==> ps[i + 1].sequenceId.value == ps[i].sequenceId.value + 1)
    && (forall i :: 0 <= i < |ps| - 1 ==> 0 <= ps[i + 1].ts - ps[i].ts <= c.maxTimestampGap)
  }

  /** The stream starts above the old sequence baseline and not before the old timestamp baseline. */
  predicate ResumesAfter(st: ContinuityState, p: Packet)
    requires p.sequenceId.Some?
  {
    && (st.lastSequenceId.Some? ==> st.lastSequenceId.value < p.sequenceId.value)
    && (st.lastTimestamp.Some? ==> st.lastTimestamp.value <= p.ts)
  }

  predicate JumpsInTime(c: Limits, st: ContinuityState, first: Packet) {
    st.lastTimestamp.Some? && first.ts - st.lastTimestamp.value > c.maxTimestampGap
  }

  /** How many packets of a resumed stream are lost: none, one, or two. */
  function Lost(c: Limits, st: ContinuityState, first: Packet): (n: nat)
    requires first.sequenceId.Some?
    ensures n <= 2
  {
    var behind := if st.lastSequenceId.Some? then first.sequenceId.value - st.lastSequenceId.value else 0;
    if JumpsInTime(c, st, first) then
      if st.lastSequenceId.Some? && behind + 1 > c.maxSequenceGap then 2 else 1
    else if behind > c.maxSequenceGap then 1 else 0
  }

  /** Baselines after the first `k` packets of a resumed stream. */
  ghost predicate Synced(c: Limits, st: ContinuityState, ps: seq<Packet>, k: nat)
    requires 0 < k <= |ps| && Steady(c, ps)
  {
    var s := Run(c, st, Checks(ps)[..k]);
    && s.lastTimestamp == Some(ps[k - 1].ts)
    && s.lastSequenceId == if k == 1 && JumpsInTime(c, st, ps[0]) then st.lastSequenceId else ps[k - 1].sequenceId
  }

  lemma {:induction false} StreamSyncs(c: Limits, st: ContinuityState, ps: seq<Packet>, k: nat)
    requires c.Valid() && Steady(c, ps) && 0 < k <= |ps| && ResumesAfter(st, ps[0])
    ensures Synced(c, st, ps, k)
    decreases k
  {
    var es := Checks(ps);
    assert es[..k][..k - 1] == es[..k - 1];
    if k == 1 {
      assert es[..0] == [];
    } else {
      StreamSyncs(c, st, ps, k - 1);
    }
  }

  /** Packet `i` of a resumed stream is accepted exactly when the lost prefix is over. */
  lemma RejectedOnlyAtTheStart(c: Limits, st: ContinuityState, ps: seq<Packet>, i: nat)
    requires c.Valid() && Steady(c, ps) && i < |ps| && ResumesAfter(st, ps[0])
    ensures VerdictAt(c, st, Checks(ps), i) == Some(Accepted) <==> i >= Lost(c, st, ps[0])
    ensures i < Lost(c, st, ps[0]) ==> VerdictAt(c, st, Checks(ps), i).value.Gap()
  {
    if i == 0 {
      assert Checks(ps)[..0] == [];
    } else {
      StreamSyncs(c, st, ps, i);
    }
  }

  lemma VerdictEffect(c: Limits, st: ContinuityState, p: Packet)
    ensures var (st', v) := Validate(c, st, p);
            && (v.Accepted? ==> st'.gapDetected == MarkGood(c, st).gapDetected
                                && st'.consecutiveGood == MarkGood(c, st).consecutiveGood)
            && (v.Gap() ==> st'.gapDetected && st'.consecutiveGood == 0)
  {
  }

  lemma RunSplit(c: Limits, st: ContinuityState, es: seq<Event>, k: nat)
    requires 0 < k <= |es|
    ensures Run(c, st, es[..k]) == Step(c, Run(c, st, es[..k - 1]), es[k - 1])
  {
    assert es[..k][..k - 1] == es[..k - 1];
  }

  /** With `counted` good packets since a gap, if there was one. */
  predicate Counted(c: Limits, st: ContinuityState, gap: bool, counted: int) {
    && (st.gapDetected <==> gap && counted < c.recoveryRequired)
    && (st.gapDetected ==> st.consecutiveGood == counted)
  }

  lemma AcceptedCounts(c: Limits, st: ContinuityState, p: Packet, gap: bool, counted: int)
    requires Counted(c, st, gap, counted) && Validate(c, st, p).1.Accepted?
    ensures Counted(c, Validate(c, st, p).0, gap, counted + 1)
  {
    VerdictEffect(c, st, p);
  }

  /** The gap flag `k` packets into a resumed stream, past its lost prefix. */
  lemma {:induction false} FlagDuringRecovery(c: Limits, st: ContinuityState, ps: seq<Packet>, k: nat)
    requires c.Valid() && Inv(c, st) && Steady(c, ps) && ps != [] && ResumesAfter(st, ps[0])
    requires Lost(c, st, ps[0]) <= k <= |ps|
    ensures var lost := Lost(c, st, ps[0]);
            Counted(c, Run(c, st, Checks(ps)[..k]), lost > 0 || st.gapDetected,
                    (if lost > 0 then 0 else st.consecutiveGood) + k - lost)
    decreases k
  {
    var lost := Lost(c, st, ps[0]);
    var es := Checks(ps);
    if k == 0 {
      assert es[..0] == [];
    } else {
      var before := Run(c, st, es[..k - 1]);
      RunSplit(c, st, es, k);
      RejectedOnlyAtTheStart(c, st, ps, k - 1);
      if k > lost {
        FlagDuringRecovery(c, st, ps, k - 1);
        AcceptedCounts(c, before, ps[k - 1], lost > 0 || st.gapDetected,
                       (if lost > 0 then 0 else st.consecutiveGood) + k - 1 - lost);
      } else {
        VerdictEffect(c, before, ps[k - 1]);
      }
    }
  }

  /**
   * A gap never causes endless rejection: at most the first two packets are lost and the flag falls within the bound.
   */
  lemma BoundedRecovery(c: Limits, st: ContinuityState, ps: seq<Packet>)
    requires c.Valid() && Inv(c, st) && Steady(c, ps) && ps != [] && ResumesAfter(st, ps[0])
    ensures forall i :: 0 <= i < |ps| ==>
              (VerdictAt(c, st, Checks(ps), i) == Some(Accepted) <==> i >= Lost(c, st, ps[0]))
    ensures forall k :: 2 + c.recoveryRequired <= k <= |ps| ==> !Run(c, st, Checks(ps)[..k]).gapDetected
  {
    forall i | 0 <= i < |ps|
      ensures VerdictAt(c, st, Checks(ps), i) == Some(Accepted) <==> i >= Lost(c, st, ps[0])
    {
      RejectedOnlyAtTheStart(c, st, ps, i);
    }
    forall k | 2 + c.recoveryRequired <= k <= |ps|
      ensures !Run(c, st, Checks(ps)[..k]).gapDetected
    {
      FlagDuringRecovery(c, st, ps, k);
    }
  }

  /** The bound is met: some reachable state loses two packets and keeps the flag up one packet short of the bound. */
  lemma RecoveryBoundIsTight(c: Limits, required: int)
    requires required >= 1 && c == Limits(1, 2_000_000_000, 5_000_000_000, required)
    ensures var st := Run(c, FRESH, [Check(Packet(1, Some(1), 1))]);
            var first := Packet(9_000_000_000, Some(100), 9_000_000_000);
            Lost(c, st, first) == 2
            && forall ps: seq<Packet> :: Steady(c, ps) && |ps| == 2 + required && ps[0] == first
                 ==> (Run(c, st, Checks(ps)[..1 + required]).gapDetected
                      && !Run(c, st, Checks(ps)[..2 + required]).gapDetected)
  {
    var es := [Check(Packet(1, Some(1), 1))];
    RunSplit(c, FRESH, es, 1);
    assert es[..1] == es;
    var st := Run(c, FRESH, es);
    assert st.lastSequenceId == Some(1) && st.lastTimestamp == Some(1);
    var first := Packet(9_000_000_000, Some(100), 9_000_000_000);
    RunInv(c, FRESH, es);
    forall ps: seq<Packet> | Steady(c, ps) && |ps| == 2 + required && ps[0] == first
      ensures Run(c, st, Checks(ps)[..1 + required]).gapDetected && !Run(c, st, Checks(ps)[..2 + required]).gapDetected
    {
      FlagDuringRecovery(c, st, ps, 1 + required);
      FlagDuringRecovery(c, st, ps, 2 + required);
    }
  }

  // ---- Streams that start below a baseline ----

  /** The first packet past both baselines, or the end. */
  function FirstPast(st: ContinuityState, ps: seq<Packet>): (f: nat)
    requires forall i :: 0 <= i < |ps| ==> ps[i].sequenceId.Some?
    ensures f <= |ps| && (f < |ps| ==> ResumesAfter(st, ps[f]))
    ensures forall i :: 0 <= i < f ==> !ResumesAfter(st, ps[i])
  {
    if ps == [] || ResumesAfter(st, ps[0]) then 0 else 1 + FirstPast(st, ps[1..])
  }

  /**
   * The baselines after `k` packets none of which is past both: only the timestamp may have moved, to the last
   * packet's.
   */
  function Dragged(st: ContinuityState, ps: seq<Packet>, k: nat): Option<int>
    requires k <= |ps|
  {
    if k > 0 && NotBefore(st.lastTimestamp, Some(ps[k - 1].ts)) then Some(ps[k - 1].ts) else st.lastTimestamp
  }

  /** No packet before the first one past both baselines is accepted. */
  lemma {:induction false} BlockedPrefix(c: Limits, st: ContinuityState, ps: seq<Packet>, k: nat)
    requires c.Valid() && Steady(c, ps) && k <= FirstPast(st, ps)
    ensures var s := Run(c, st, Checks(ps)[..k]);
            s.lastSequenceId == st.lastSequenceId && s.lastTimestamp == Dragged(st, ps, k)
    ensures k > 0 ==> var v := VerdictAt(c, st, Checks(ps), k - 1);
              && v.value.Rejected?
              && (!NotBefore(st.lastTimestamp, Some(ps[k - 1].ts)) ==> v == Some(Rejected(TimestampReversal)))
    decreases k
  {
    var es := Checks(ps);
    if k == 0 {
      assert es[..0] == [];
    } else {
      BlockedPrefix(c, st, ps, k - 1);
      RunSplit(c, st, es, k);
      assert !ResumesAfter(st, ps[k - 1]);
    }
  }

  lemma {:induction false} RunConcat(c: Limits, st: ContinuityState, a: seq<Event>, b: seq<Event>)
    ensures Run(c, st, a + b) == Run(c, Run(c, st, a), b)
  {
    if b == [] {
      assert a + b == a;
    } else {
      RunConcat(c, st, a, b[..|b| - 1]);
      assert (a + b)[..|a + b| - 1] == a + b[..|b| - 1];
    }
  }

  lemma VerdictFrom(c: Limits, st: ContinuityState, ps: seq<Packet>, f: nat, i: nat)
    requires f <= i < |ps|
    ensures VerdictAt(c, st, Checks(ps), i) == VerdictAt(c, Run(c, st, Checks(ps)[..f]), Checks(ps[f..]), i - f)
  {
    var es := Checks(ps);
    RunConcat(c, st, es[..f], Checks(ps[f..])[..i - f]);
    assert es[..i] == es[..f] + Checks(ps[f..])[..i - f];
  }

  lemma SteadySuffix(c: Limits, ps: seq<Packet>, f: nat)
    requires Steady(c, ps) && f <= |ps|
    ensures Steady(c, ps[f..])
  {
  }

  /** What is lost and where a stream resumes depend on the two baselines alone. */
  lemma SameBaselines(c: Limits, s: ContinuityState, t: ContinuityState, p: Packet)
    requires p.sequenceId.Some? && s.lastSequenceId == t.lastSequenceId && s.lastTimestamp == t.lastTimestamp
    ensures Lost(c, s, p) == Lost(c, t, p) && ResumesAfter(s, p) == ResumesAfter(t, p)
  {
  }

  /** The timestamp the blocked packets leave behind does not hold back the first packet past both baselines. */
  lemma DraggedResumes(c: Limits, st: ContinuityState, ps: seq<Packet>, f: nat)
    requires Steady(c, ps) && f < |ps| && ResumesAfter(st, ps[f])
    ensures ResumesAfter(st.(lastTimestamp := Dragged(st, ps, f)), ps[f])
  {
    assert f > 0 ==> ps[f - 1].ts <= ps[f - 1 + 1].ts;
  }

  lemma AcceptedPast(c: Limits, st: ContinuityState, ps: seq<Packet>, f: nat, i: nat)
    requires c.Valid() && Steady(c, ps) && f == FirstPast(st, ps) <= i < |ps|
    ensures VerdictAt(c, st, Checks(ps), i) == Some(Accepted)
       <==> i - f >= Lost(c, st.(lastTimestamp := Dragged(st, ps, f)), ps[f])
  {
    var s := Run(c, st, Checks(ps)[..f]);
    BlockedPrefix(c, st, ps, f);
    DraggedResumes(c, st, ps, f);
    SameBaselines(c, s, st.(lastTimestamp := Dragged(st, ps, f)), ps[f]);
    SteadySuffix(c, ps, f);
    VerdictFrom(c, st, ps, f, i);
    RejectedOnlyAtTheStart(c, s, ps[f..], i - f);
  }

  /**
   * From any state, a steady stream is accepted exactly from its first packet past both baselines, plus the lost prefix
   * counted there; a stream that never gets past both is never accepted.
   */
  lemma AcceptedExactlyFrom(c: Limits, st: ContinuityState, ps: seq<Packet>, i: nat)
    requires c.Valid() && Steady(c, ps) && i < |ps|
    ensures var f := FirstPast(st, ps);
            VerdictAt(c, st, Checks(ps), i) == Some(Accepted)
            <==> f < |ps| && i >= f + Lost(c, st.(lastTimestamp := Dragged(st, ps, f)), ps[f])
  {
    var f := FirstPast(st, ps);
    if i < f {
      BlockedPrefix(c, st, ps, i + 1);
    } else {
      AcceptedPast(c, st, ps, f, i);
    }
  }

  /**
   * One packet from the future passes staleness and takes the baseline; every steady packet before its time is
   * refused.
   */
  lemma FuturePacketBlocks(c: Limits, st: ContinuityState, p: Packet, ps: seq<Packet>, i: nat)
    requires c.Valid() && p.ts > p.now && NotBefore(st.lastTimestamp, Some(p.ts))
    requires Steady(c, ps) && i < |ps| && ps[i].ts < p.ts
    ensures var after := Validate(c, st, p).0;
            after.lastTimestamp == Some(p.ts) && VerdictAt(c, after, Checks(ps), i) == Some(Rejected(TimestampReversal))
  {
    FutureTakesBaseline(c, st, p);
    BlockedBefore(c, Validate(c, st, p).0, ps, i);
  }

  lemma FutureTakesBaseline(c: Limits, st: ContinuityState, p: Packet)
    requires c.Valid() && p.ts > p.now && NotBefore(st.lastTimestamp, Some(p.ts))
    ensures Validate(c, st, p).0.lastTimestamp == Some(p.ts)
  {
  }

  lemma BlockedBefore(c: Limits, st: ContinuityState, ps: seq<Packet>, i: nat)
    requires c.Valid() && Steady(c, ps) && i < |ps| && st.lastTimestamp.Some? && ps[i].ts < st.lastTimestamp.value
    ensures VerdictAt(c, st, Checks(ps), i) == Some(Rejected(TimestampReversal))
  {
    SteadyRises(c, ps, i);
    NonePast(c, st, ps, i);
    BlockedPrefix(c, st, ps, i + 1);
  }

  lemma {:induction false} NonePast(c: Limits, st: ContinuityState, ps: seq<Packet>, i: nat)
    requires Steady(c, ps) && i < |ps| && forall j :: 0 <= j <= i ==> !ResumesAfter(st, ps[j])
    ensures i < FirstPast(st, ps)
    decreases i
  {
    if i > 0 {
      SteadySuffix(c, ps, 1);
      NonePast(c, st, ps[1..], i - 1);
    }
  }

  lemma {:induction false} SteadyRises(c: Limits, ps: seq<Packet>, i: nat)
    requires Steady(c, ps) && i < |ps|
    ensures forall j :: 0 <= j <= i ==> ps[j].ts <= ps[i].ts
  {
    if i > 0 {
      SteadyRises(c, ps, i - 1);
    }
  }

  // ---- What one packet comes to ----

  /** Not stale, and not before the last timestamp nor too far after it. */
  predicate InTime(c: Limits, st: ContinuityState, p: Packet) {
    && p.now - p.ts <= c.maxStaleAge
    && (st.lastTimestamp.Some? ==> 0 <= p.ts - st.lastTimestamp.value <= c.maxTimestampGap)
  }

  /** Absent, or positive, above the last id and not too far above it. */
  predicate InSequence(c: Limits, st: ContinuityState, id: Option<int>) {
    id.Some? ==> id.value > 0 && (st.lastSequenceId.Some? ==>
                                    0 < id.value - st.lastSequenceId.value <= c.maxSequenceGap)
  }

  /** A packet is accepted exactly in time and, if it has an id, in sequence; so without an id exactly in time. */
  lemma AcceptedIff(c: Limits, st: ContinuityState, p: Packet)
    ensures Validate(c, st, p).1 == Accepted <==> InTime(c, st, p) && InSequence(c, st, p.sequenceId)
    ensures p.sequenceId == None ==> (Validate(c, st, p).1 == Accepted <==> InTime(c, st, p))
  {
  }

  /** Why a packet is refused: the first of the checks that fails, staleness before time before sequence. */
  lemma RefusedExactly(c: Limits, st: ContinuityState, p: Packet)
    ensures var v, last, id := Validate(c, st, p).1, st.lastSequenceId, p.sequenceId;
            var step := if st.lastTimestamp.Some? then p.ts - st.lastTimestamp.value else 0;
            && (v == Rejected(Stale) <==> p.now - p.ts > c.maxStaleAge)
            && (v == Rejected(TimestampReversal) <==> p.now - p.ts <= c.maxStaleAge && step < 0)
            && (v == Rejected(TimestampGap)
                <==> p.now - p.ts <= c.maxStaleAge && st.lastTimestamp.Some? && step >= 0 && step > c.maxTimestampGap)
            && (InTime(c, st, p) ==>
                  && (v == Rejected(BadSequence) <==> id.Some? && id.value <= 0)
                  && (v == Rejected(SequenceNotIncreasing)
                      <==> id.Some? && id.value > 0 && last.Some? && id.value <= last.value)
                  && (v == Rejected(SequenceGap)
                      <==> id.Some? && id.value > 0 && last.Some? && id.value > last.value
                           && id.value - last.value > c.maxSequenceGap))
  {
  }

  /** What a packet leaves: its own time and id as baselines unless refused for them, and gaps noted where it stands. */
  lemma AfterPacket(c: Limits, st: ContinuityState, p: Packet)
    ensures var (after, v) := Validate(c, st, p);
            && (after.lastTimestamp
                == if v == Rejected(Stale) || v == Rejected(TimestampReversal) then st.lastTimestamp else Some(p.ts))
            && (after.lastSequenceId
                == if p.sequenceId.Some? && (v == Accepted || v == Rejected(SequenceGap)) then p.sequenceId
                   else st.lastSequenceId)
            && (after.gapStart
                == if v == Rejected(TimestampGap) || v == Rejected(SequenceGap) then Some(p.ts) else st.gapStart)
            && (after.lastValidData == if v == Accepted then Some(p.ts) else st.lastValidData)
  {
  }

  // ---- Streams without ids ----

  /** No ids, timestamps that neither reverse nor jump, no stale packet. */
  ghost predicate SteadyTimes(c: Limits, ps: seq<Packet>) {
    && (forall i :: 0 <= i < |ps| ==> ps[i].sequenceId == None)
    && (forall i :: 0 <= i < |ps| ==> ps[i].now - ps[i].ts <= c.maxStaleAge)
    && (forall i :: 0 <= i < |ps| - 1 ==> 0 <= ps[i + 1].ts - ps[i].ts <= c.maxTimestampGap)
  }

  /** The first packet alone is lost, and only when it jumps. */
  function LostWithoutId(c: Limits, st: ContinuityState, first: Packet): nat {
    if JumpsInTime(c, st, first) then 1 else 0
  }

  lemma {:induction false} TimesSync(c: Limits, st: ContinuityState, ps: seq<Packet>, k: nat)
    requires c.Valid() && SteadyTimes(c, ps) && 0 < k <= |ps| && NotBefore(st.lastTimestamp, Some(ps[0].ts))
    ensures Run(c, st, Checks(ps)[..k]).lastTimestamp == Some(ps[k - 1].ts)
    decreases k
  {
    var es := Checks(ps);
    RunSplit(c, st, es, k);
    if k == 1 {
      assert es[..0] == [];
    } else {
      TimesSync(c, st, ps, k - 1);
      assert ps[k - 2 + 1].ts - ps[k - 2].ts >= 0;
    }
  }

  lemma RefusedOnlyFirst(c: Limits, st: ContinuityState, ps: seq<Packet>, i: nat)
    requires c.Valid() && SteadyTimes(c, ps) && i < |ps| && NotBefore(st.lastTimestamp, Some(ps[0].ts))
    ensures VerdictAt(c, st, Checks(ps), i) == Some(Accepted) <==> i >= LostWithoutId(c, st, ps[0])
    ensures i < LostWithoutId(c, st, ps[0]) ==> VerdictAt(c, st, Checks(ps), i).value.Gap()
  {
    if i == 0 {
      assert Checks(ps)[..0] == [];
    } else {
      TimesSync(c, st, ps, i);
      assert ps[i - 1 + 1].ts - ps[i - 1].ts >= 0;
      AcceptedIff(c, Run(c, st, Checks(ps)[..i]), ps[i]);
    }
  }

  lemma {:induction false} FlagWithoutIds(c: Limits, st: ContinuityState, ps: seq<Packet>, k: nat)
    requires c.Valid() && Inv(c, st) && SteadyTimes(c, ps) && ps != [] && NotBefore(st.lastTimestamp, Some(ps[0].ts))
    requires LostWithoutId(c, st, ps[0]) <= k <= |ps|
    ensures var lost := LostWithoutId(c, st, ps[0]);
            Counted(c, Run(c, st, Checks(ps)[..k]), lost > 0 || st.gapDetected,
                    (if lost > 0 then 0 else st.consecutiveGood) + k - lost)
    decreases k
  {
    var lost := LostWithoutId(c, st, ps[0]);
    var es := Checks(ps);
    if k == 0 {
      assert es[..0] == [];
    } else {
      var before := Run(c, st, es[..k - 1]);
      RunSplit(c, st, es, k);
      RefusedOnlyFirst(c, st, ps, k - 1);
      if k > lost {
        FlagWithoutIds(c, st, ps, k - 1);
        AcceptedCounts(c, before, ps[k - 1], lost > 0 || st.gapDetected,
                       (if lost > 0 then 0 else st.consecutiveGood) + k - 1 - lost);
      } else {
        VerdictEffect(c, before, ps[k - 1]);
      }
    }
  }

  /**
   * The same promise for streams without ids, as order books come: from any reachable state, unless time runs
   * backwards, at most the first packet is lost and the flag is down within one packet more than are required.
   */
  lemma RecoveryWithoutIds(c: Limits, st: ContinuityState, ps: seq<Packet>)
    requires c.Valid() && Inv(c, st) && SteadyTimes(c, ps) && ps != [] && NotBefore(st.lastTimestamp, Some(ps[0].ts))
    ensures forall i :: 0 <= i < |ps| ==>
              (VerdictAt(c, st, Checks(ps), i) == Some(Accepted) <==> i > 0 || InTime(c, st, ps[0]))
    ensures forall k :: 1 + c.recoveryRequired <= k <= |ps| ==> !Run(c, st, Checks(ps)[..k]).gapDetected
  {
    forall i | 0 <= i < |ps|
      ensures VerdictAt(c, st, Checks(ps), i) == Some(Accepted) <==> i > 0 || InTime(c, st, ps[0])
    {
      RefusedOnlyFirst(c, st, ps, i);
    }
    forall k | 1 + c.recoveryRequired <= k <= |ps|
      ensures !Run(c, st, Checks(ps)[..k]).gapDetected
    {
      FlagWithoutIds(c, st, ps, k);
    }
  }
}
