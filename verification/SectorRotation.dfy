/**
 * Whole-run safety of the SectorRotation lane: strict candle admission, producer, classifier, consumer and stale-
 * clear together.
 */
module SectorRotation {
  import opened Options
  import opened ObservedPairs
  import opened CandleAdmission

  /**
   * One `on_candle` call: what the strategy and adapter produce if the candle is admitted, and how often
   * dispatch then evaluates the SectorRotation branch.
   */
  datatype CandleCall = CandleCall(candle: Candle, entry: Option<Produced>, exit: Option<Produced>, looks: nat)

  /** A pair handed to dispatch: the call that admitted it and the observation numbers of its two halves. */
  datatype Admission = Admission(call: nat, symbol: string, signalTag: nat, voteTag: nat)

  datatype World = World(ingress: Ingress, pairs: map<string, Pair>, calls: nat, admitted: seq<Admission>)

  const START := World(EMPTY_INGRESS, map[], 0, [])

  function PairOf(w: World, s: string): Pair {
    if s in w.pairs then w.pairs[s] else EMPTY_PAIR
  }

  function Look(paper: bool, w: World, c: Candle, call: nat): World {
    var (p, taken) := ConsumeSector(paper, c.symbol, PairOf(w, c.symbol), c.ts);
    var w' := w.(pairs := w.pairs[c.symbol := p]);
    if taken.None? then w'
    else w'.(admitted := w.admitted + [Admission(call, c.symbol, taken.value.0.tag, taken.value.1.tag)])
  }

  function LookMany(paper: bool, w: World, c: Candle, call: nat, n: nat): World {
    if n == 0 then w else Look(paper, LookMany(paper, w, c, call, n - 1), c, call)
  }

  /**
   * The state after the producer ran in an admitted call; observation numbers are twice the call number, plus one for
   * the exit.
   */
  function Observe(w: World, call: CandleCall): World {
    var s := call.candle.symbol;
    w.(pairs := w.pairs[s := ObserveSector(PairOf(w, s), 2 * w.calls, call.entry, call.exit)])
  }

  function Step(active: set<string>, paper: bool, w: World, call: CandleCall): World {
    var (ingress, outcome) := Offer(active, w.ingress, call.candle);
    var next := w.(ingress := ingress, calls := w.calls + 1);
    if !outcome.Admitted? then next
    else LookMany(paper, Observe(w, call), call.candle, w.calls, call.looks).(ingress := ingress, calls := w.calls + 1)
  }

  function Run(active: set<string>, paper: bool, calls: seq<CandleCall>): World {
    if calls == [] then START else Step(active, paper, Run(active, paper, calls[..|calls| - 1]), calls[|calls| - 1])
  }

  /** The adapter's contract: a vote carries the timestamp the adapter was given. */
  predicate StampedVote(p: Option<Produced>, ts: int) {
    p.Some? && p.value.vote.Some? ==> p.value.vote.value.ts == Some(ts)
  }

  predicate Stamped(call: CandleCall) {
    StampedVote(call.entry, call.candle.ts) && StampedVote(call.exit, call.candle.ts)
  }

  // ---- The invariant ----

  /** Both halves or neither, from one earlier observation, the vote not newer than the symbol's last candle. */
  ghost predicate Coherent(p: Pair, calls: nat, lastTs: int) {
    && (p.signal.None? <==> p.vote.None?)
    && (p.vote.Some? ==> p.signal.value.tag == p.vote.value.tag && p.vote.value.tag < 2 * calls
                         && p.vote.value.item.ts.Some? && p.vote.value.item.ts.value <= lastTs)
  }

  /** Each admission is of one observation made by the admitting call, and there is at most one per call. */
  ghost predicate Sound(w: World) {
    && (forall s :: Coherent(PairOf(w, s), w.calls, LastTs(w.ingress, s)))
    && (forall i :: 0 <= i < |w.admitted| ==>
          w.admitted[i].signalTag == w.admitted[i].voteTag && w.admitted[i].voteTag / 2 == w.admitted[i].call < w.calls)
    && (forall i, j :: 0 <= i < j < |w.admitted| ==> w.admitted[i].call < w.admitted[j].call)
  }

  /** What the pair of the candle's symbol may be while the call is in progress. */
  ghost predicate InCall(p: Pair, call: nat, lastTs: int, ts: int) {
    || Coherent(p, call, lastTs)
    || (p.signal.Some? && p.vote.Some? && p.signal.value.tag == p.vote.value.tag
        && p.vote.value.tag / 2 == call && p.vote.value.item.ts == Some(ts))
  }

  lemma ObserveInCall(p: Pair, call: nat, lastTs: int, c: CandleCall)
    requires Stamped(c) && Coherent(p, call, lastTs)
    ensures InCall(ObserveSector(p, 2 * call, c.entry, c.exit), call, lastTs, c.candle.ts)
  {
    assert 2 * call / 2 == call && (2 * call + 1) / 2 == call;
  }

  /** During an admitted call only the pair observed by this call can be taken, and then nothing is left. */
  lemma ConsumeInCall(paper: bool, symbol: string, p: Pair, call: nat, lastTs: int, ts: int)
    requires InCall(p, call, lastTs, ts) && lastTs < ts
    ensures var (p', taken) := ConsumeSector(paper, symbol, p, ts);
            && InCall(p', call, lastTs, ts)
            && (taken.Some? ==>
                  p' == EMPTY_PAIR && taken.value.0.tag == taken.value.1.tag && taken.value.1.tag / 2 == call)
  {
  }

  /** The world after some looks of one call: other symbols untouched, at most one new admission, of this call. */
  ghost predicate AfterLooks(w0: World, w: World, c: Candle) {
    && w.ingress == w0.ingress && w.calls == w0.calls
    && (forall s :: s != c.symbol ==> PairOf(w, s) == PairOf(w0, s))
    && InCall(PairOf(w, c.symbol), w0.calls, LastTs(w0.ingress, c.symbol), c.ts)
    && (w.admitted == w0.admitted
        || (|w.admitted| == |w0.admitted| + 1 && w.admitted[..|w0.admitted|] == w0.admitted
            && PairOf(w, c.symbol) == EMPTY_PAIR
            && (var a := w.admitted[|w0.admitted|];
                a.call == w0.calls && a.signalTag == a.voteTag && a.voteTag / 2 == w0.calls)))
  }

  lemma {:induction false} LooksPreserve(paper: bool, w0: World, w1: World, c: Candle, n: nat)
    requires AfterLooks(w0, w1, c) && w1.admitted == w0.admitted && LastTs(w0.ingress, c.symbol) < c.ts
    ensures AfterLooks(w0, LookMany(paper, w1, c, w0.calls, n), c)
    decreases n
  {
    if n > 0 {
      LooksPreserve(paper, w0, w1, c, n - 1);
      var w := LookMany(paper, w1, c, w0.calls, n - 1);
      ConsumeInCall(paper, c.symbol, PairOf(w, c.symbol), w0.calls, LastTs(w0.ingress, c.symbol), c.ts);
    }
  }

  lemma StepSound(active: set<string>, paper: bool, w: World, call: CandleCall)
    requires Sound(w) && Stamped(call)
    ensures Sound(Step(active, paper, w, call))
  {
    var c := call.candle;
    if Offer(active, w.ingress, c).1.Admitted? {
      ObserveInCall(PairOf(w, c.symbol), w.calls, LastTs(w.ingress, c.symbol), call);
      LooksPreserve(paper, w, Observe(w, call), c, call.looks);
    }
    var w' := Step(active, paper, w, call);
    forall s ensures Coherent(PairOf(w', s), w'.calls, LastTs(w'.ingress, s)) {
      assert Coherent(PairOf(w, s), w.calls, LastTs(w.ingress, s));
    }
  }

  lemma {:induction false} RunSound(active: set<string>, paper: bool, calls: seq<CandleCall>)
    requires forall i :: 0 <= i < |calls| ==> Stamped(calls[i])
    ensures Sound(Run(active, paper, calls)) && Run(active, paper, calls).calls == |calls|
  {
    if calls != [] {
      var k := |calls| - 1;
      RunSound(active, paper, calls[..k]);
      StepSound(active, paper, Run(active, paper, calls[..k]), calls[k]);
      CallsCounted(active, paper, Run(active, paper, calls[..k]), calls[k]);
    }
  }

  lemma CallsCounted(active: set<string>, paper: bool, w: World, call: CandleCall)
    ensures Step(active, paper, w, call).calls == w.calls + 1
  {
  }

  /**
   * In every run: a symbol's buffered halves are both absent or from one observation; every admitted pair was
   * observed by the very call that admits it; no observation is admitted twice.
   */
  lemma WholeRunSafety(active: set<string>, paper: bool, calls: seq<CandleCall>)
    requires forall i :: 0 <= i < |calls| ==> Stamped(calls[i])
    ensures var w := Run(active, paper, calls);
            && (forall s :: (PairOf(w, s).signal.None? && PairOf(w, s).vote.None?)
                            || (PairOf(w, s).signal.Some? && PairOf(w, s).vote.Some?
                                && PairOf(w, s).signal.value.tag == PairOf(w, s).vote.value.tag))
            && (forall i :: 0 <= i < |w.admitted| ==>
                  w.admitted[i].signalTag == w.admitted[i].voteTag
                  && w.admitted[i].voteTag / 2 == w.admitted[i].call < |calls|)
            && (forall i, j :: 0 <= i < j < |w.admitted| ==> w.admitted[i].voteTag != w.admitted[j].voteTag)
  {
    RunSound(active, paper, calls);
    var w := Run(active, paper, calls);
    forall s
      ensures (PairOf(w, s).signal.None? && PairOf(w, s).vote.None?)
           || (PairOf(w, s).signal.Some? && PairOf(w, s).vote.Some?
               && PairOf(w, s).signal.value.tag == PairOf(w, s).vote.value.tag)
    {
      assert Coherent(PairOf(w, s), w.calls, LastTs(w.ingress, s));
    }
  }

  // ---- Exactly when a call admits ----

  /** The observation a call leaves in the buffer: the exit's if its adapter succeeded, else the entry's. */
  function Kept(call: CandleCall): Option<Produced> {
    if call.exit.Some? && call.exit.value.vote.Some? then call.exit
    else if call.entry.Some? && call.entry.value.vote.Some? then call.entry
    else None
  }

  lemma {:induction false} LooksAfterTaken(paper: bool, w: World, c: Candle, call: nat, n: nat)
    requires PairOf(w, c.symbol) == EMPTY_PAIR
    ensures LookMany(paper, w, c, call, n).admitted == w.admitted
    ensures PairOf(LookMany(paper, w, c, call, n), c.symbol) == EMPTY_PAIR
  {
    if n > 0 {
      LooksAfterTaken(paper, w, c, call, n - 1);
    }
  }

  lemma {:induction false} LookFirst(paper: bool, w: World, c: Candle, call: nat, n: nat)
    requires n > 0
    ensures LookMany(paper, w, c, call, n) == LookMany(paper, Look(paper, w, c, call), c, call, n - 1)
  {
    if n > 1 {
      LookFirst(paper, w, c, call, n - 1);
    } else {
      assert LookMany(paper, w, c, call, 0) == w;
    }
  }

  lemma {:induction false} LooksWithoutTaking(paper: bool, w: World, c: Candle, call: nat, n: nat)
    requires !paper || !ClassifyPair(c.symbol, PairOf(w, c.symbol), c.ts).Ready?
    ensures LookMany(paper, w, c, call, n).admitted == w.admitted
    ensures !paper || !ClassifyPair(c.symbol, PairOf(LookMany(paper, w, c, call, n), c.symbol), c.ts).Ready?
  {
    if n > 0 {
      LooksWithoutTaking(paper, w, c, call, n - 1);
    }
  }

  /** The producer leaves what the call kept, or else the pair of before, which is not stamped with this candle. */
  lemma KeptPair(w: World, call: CandleCall, p: Pair)
    requires Coherent(PairOf(w, call.candle.symbol), w.calls, LastTs(w.ingress, call.candle.symbol)) && Stamped(call)
    requires LastTs(w.ingress, call.candle.symbol) < call.candle.ts
    requires p == PairOf(Observe(w, call), call.candle.symbol)
    ensures Kept(call).Some? ==>
              p.signal.Some? && p.vote.Some? && p.signal.value.item == Kept(call).value.signal
              && Some(p.vote.value.item) == Kept(call).value.vote && p.vote.value.item.ts == Some(call.candle.ts)
    ensures Kept(call).None? ==> !OneStamp(p, call.candle.ts)
  {
  }

  /**
   * A call in a sound state adds an admission exactly when its candle is admitted, trading is paper, dispatch looks,
   * and the observation the call itself kept is stamped with the candle and names no other symbol.
   */
  lemma CallAdmitsIff(active: set<string>, paper: bool, w: World, call: CandleCall)
    requires Sound(w) && Stamped(call)
    ensures |Step(active, paper, w, call).admitted| > |w.admitted|
       <==> Offer(active, w.ingress, call.candle).1.Admitted? && paper && call.looks > 0
            && Kept(call).Some? && Kept(call).value.signal.ts == Some(call.candle.ts)
            && MayBeFor(Kept(call).value.signal.symbol, call.candle.symbol)
            && MayBeFor(Kept(call).value.vote.value.symbol, call.candle.symbol)
  {
    var c := call.candle;
    if Offer(active, w.ingress, c).1.Admitted? {
      var w1 := Observe(w, call);
      assert Coherent(PairOf(w, c.symbol), w.calls, LastTs(w.ingress, c.symbol));
      var ready := ClassifyPair(c.symbol, PairOf(w1, c.symbol), c.ts).Ready?;
      ClassifiedExactly(c.symbol, PairOf(w1, c.symbol), c.ts);
      KeptPair(w, call, PairOf(w1, c.symbol));
      if paper && ready && call.looks > 0 {
        LookFirst(paper, w1, c, w.calls, call.looks);
        LooksAfterTaken(paper, Look(paper, w1, c, w.calls), c, w.calls, call.looks - 1);
      } else if call.looks > 0 {
        LooksWithoutTaking(paper, w1, c, w.calls, call.looks);
      }
    }
  }
}
