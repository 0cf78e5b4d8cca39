/** The candidates of a dispatch, their order, and the winning sleeve. */
module SleeveSelection {
  import opened Options

  datatype Sleeve = ShadowFront | GammaFront | SectorRotation | Flv | Other(name: string)

  /** What evaluating one candidate gives: nothing, or a signal with or without a vote. */
  datatype Answer = Declined | Produced(vote: bool)

  /** What compiling the scorecard frame of a dispatch without a trade comes to. */
  datatype NoSubmitCompile = EmptyFrame | CompileFails | Compiles

  /** The stages of a dispatch that has a signal and a vote. */
  datatype Stage = Arming | Compiling | Counting | Routing | Booking | Cancelling | Finished | Raised

  /**
   * At which stage such a dispatch raises, if it does: before what the stage does, so after all of the stage before.
   */
  datatype Fault = NoFault | At(stage: Stage)

  /** What one dispatch finds around it. Candidates answer by position: a sleeve listed twice is asked twice. */
  datatype Request = Request(
    fusionPresent: bool, routed: Option<Sleeve>, profileEnabled: bool, installed: set<Sleeve>, eligible: seq<Sleeve>,
    movingFloorPair: bool, answer: nat -> Answer, scorecard: NoSubmitCompile, fault: Fault,
    candleTruth: bool, metadataRequiresCanonical: bool, frameOutput: string, frameStatus: string, accepted: bool)

  const REGISTRY: seq<Sleeve> := [ShadowFront, GammaFront, SectorRotation, Flv]

  // ---- Candidates ----

  /** In the registry with a strategy behind it. */
  predicate Registered(r: Request, s: Sleeve) { s in REGISTRY && s in r.installed }

  /** The router's choice, or ShadowFront when an active profile continues without one. */
  function Preferred(r: Request): Option<Sleeve> {
    if r.routed.None? && r.profileEnabled then Some(ShadowFront) else r.routed
  }

  function Fallbacks(r: Request, preferred: Sleeve, eligible: seq<Sleeve>): seq<Sleeve> {
    if eligible == [] then []
    else
      var rest, s := Fallbacks(r, preferred, eligible[..|eligible| - 1]), eligible[|eligible| - 1];
      if s != preferred && Registered(r, s) then rest + [s] else rest
  }

  function AppendMissing(r: Request, candidates: seq<Sleeve>, order: seq<Sleeve>): seq<Sleeve> {
    if order == [] then candidates
    else
      var so, s := AppendMissing(r, candidates, order[..|order| - 1]), order[|order| - 1];
      if Registered(r, s) && s !in so then so + [s] else so
  }

  function Candidates(r: Request): seq<Sleeve> {
    if !r.fusionPresent || Preferred(r).None? then []
    else
      var p := Preferred(r).value;
      var ranked := (if Registered(r, p) then [p] else []) + Fallbacks(r, p, r.eligible);
      if r.profileEnabled then AppendMissing(r, ranked, REGISTRY) else ranked
  }

  // ---- Selection ----

  datatype Winner = MovingFloor | Ranked(sleeve: Sleeve)

  datatype Selection = NoSignal | Chosen(winner: Winner, vote: bool)

  /** The first position from `from` on that produces a signal, or the end. */
  function FirstProducer(c: seq<Sleeve>, answer: nat -> Answer, from: nat): (i: nat)
    requires from <= |c|
    ensures from <= i <= |c|
    ensures i < |c| ==> answer(i).Produced?
    ensures forall j: nat :: from <= j < i ==> answer(j).Declined?
    decreases |c| - from
  {
    if from == |c| || answer(from).Produced? then from else FirstProducer(c, answer, from + 1)
  }

  function SelectAmong(c: seq<Sleeve>, answer: nat -> Answer): Selection {
    var i := FirstProducer(c, answer, 0);
    if i == |c| then NoSignal else Chosen(Ranked(c[i]), answer(i).vote)
  }

  function AskedAmong(c: seq<Sleeve>, answer: nat -> Answer): seq<Sleeve> {
    var i := FirstProducer(c, answer, 0);
    if i == |c| then c else c[..i + 1]
  }

  function Select(r: Request): Selection {
    if r.movingFloorPair then Chosen(MovingFloor, true) else SelectAmong(Candidates(r), r.answer)
  }

  /** The sleeves asked, in order. */
  function Asked(r: Request): seq<Sleeve> {
    if r.movingFloorPair then [] else AskedAmong(Candidates(r), r.answer)
  }

  // ---- The order of candidates ----

  lemma {:induction false} FallbackFacts(r: Request, p: Sleeve, eligible: seq<Sleeve>)
    ensures forall s :: s in Fallbacks(r, p, eligible) <==> s in eligible && s != p && Registered(r, s)
  {
    if eligible != [] {
      var k := |eligible| - 1;
      FallbackFacts(r, p, eligible[..k]);
      assert eligible == eligible[..k] + [eligible[k]];
    }
  }

  lemma {:induction false} AppendFacts(r: Request, c: seq<Sleeve>, order: seq<Sleeve>)
    requires forall s :: s in order ==> s in REGISTRY
    ensures c <= AppendMissing(r, c, order)
    ensures forall s :: s in AppendMissing(r, c, order) <==> s in c || (s in order && Registered(r, s))
    ensures var all := AppendMissing(r, c, order);
            forall i, j :: 0 <= i < j < |all| && |c| <= j ==> all[i] != all[j]
  {
    if order != [] {
      var k := |order| - 1;
      assert order == order[..k] + [order[k]];
      AppendFacts(r, c, order[..k]);
    }
  }

  /** Fallbacks keep the router's order, repeats included: filtering a list in two parts is filtering it whole. */
  lemma {:induction false} FallbacksKeepOrder(r: Request, p: Sleeve, a: seq<Sleeve>, b: seq<Sleeve>)
    ensures Fallbacks(r, p, a + b) == Fallbacks(r, p, a) + Fallbacks(r, p, b)
  {
    if b == [] {
      assert a + b == a;
    } else {
      FallbacksKeepOrder(r, p, a, b[..|b| - 1]);
      assert (a + b)[..|a + b| - 1] == a + b[..|b| - 1];
    }
  }

  /** What an active profile adds comes in registry order. */
  lemma {:induction false} AddedInOrder(r: Request, c: seq<Sleeve>, order: seq<Sleeve>, i: nat, j: nat)
    returns (x: nat, y: nat)
    requires forall s :: s in order ==> s in REGISTRY
    requires |c| <= i < j < |AppendMissing(r, c, order)|
    ensures x < y < |order| && order[x] == AppendMissing(r, c, order)[i] && order[y] == AppendMissing(r, c, order)[j]
  {
    var k := |order| - 1;
    AppendFacts(r, c, order[..k]);
    AppendFacts(r, c, order);
    var so, all := AppendMissing(r, c, order[..k]), AppendMissing(r, c, order);
    if j < |so| {
      x, y := AddedInOrder(r, c, order[..k], i, j);
    } else {
      y := k;
      x := AddedFrom(r, c, order[..k], i);
    }
  }

  lemma {:induction false} AddedFrom(r: Request, c: seq<Sleeve>, order: seq<Sleeve>, i: nat) returns (x: nat)
    requires |c| <= i < |AppendMissing(r, c, order)|
    ensures x < |order| && order[x] == AppendMissing(r, c, order)[i]
  {
    var k := |order| - 1;
    if i < |AppendMissing(r, c, order[..k])| {
      x := AddedFrom(r, c, order[..k], i);
    } else {
      x := k;
    }
  }

  /** Where a sleeve stands: the preferred one, an eligible one, or one only an active profile brings in. */
  function Rank(r: Request, s: Sleeve, p: Sleeve): nat {
    if s == p then 0 else if s in r.eligible then 1 else 2
  }

  /** One of the four sleeves, with a strategy installed for it. */
  predicate Runs(r: Request, s: Sleeve) {
    (s == ShadowFront || s == GammaFront || s == SectorRotation || s == Flv) && s in r.installed
  }

  /** Without a fusion, or without a routed sleeve or a profile to go on, there are no candidates. */
  lemma NoCandidates(r: Request)
    requires !r.fusionPresent || (r.routed == None && !r.profileEnabled)
    ensures Candidates(r) == []
  {
  }

  /** The preferred sleeve first and once, then the eligible ones, then the rest. */
  ghost predicate InRank(r: Request, p: Sleeve, c: seq<Sleeve>) {
    forall i, j :: 0 <= i < j < |c| ==> Rank(r, c[i], p) <= Rank(r, c[j], p) && c[j] != p
  }

  /** The preferred sleeve and the fallbacks, before a profile adds any. */
  function Head(r: Request, p: Sleeve): seq<Sleeve> {
    (if Registered(r, p) then [p] else []) + Fallbacks(r, p, r.eligible)
  }

  lemma CandidatesFromHead(r: Request, p: Sleeve)
    requires r.fusionPresent && Preferred(r) == Some(p)
    ensures Candidates(r) == if r.profileEnabled then AppendMissing(r, Head(r, p), REGISTRY) else Head(r, p)
  {
  }

  lemma HeadMembers(r: Request, p: Sleeve)
    ensures forall s :: s in Head(r, p) <==> Registered(r, s) && (s == p || s in r.eligible)
  {
    FallbackFacts(r, p, r.eligible);
  }

  lemma HeadRanks(r: Request, p: Sleeve)
    ensures InRank(r, p, Head(r, p)) && forall i :: 0 <= i < |Head(r, p)| ==> Rank(r, Head(r, p)[i], p) <= 1
  {
    FallbackFacts(r, p, r.eligible);
    RankedHead(r, p, if Registered(r, p) then [p] else [], Fallbacks(r, p, r.eligible));
  }

  lemma TailRanks(r: Request, p: Sleeve, head: seq<Sleeve>)
    requires InRank(r, p, head) && forall i :: 0 <= i < |head| ==> Rank(r, head[i], p) <= 1
    requires forall s :: s in head <==> Registered(r, s) && (s == p || s in r.eligible)
    ensures InRank(r, p, AppendMissing(r, head, REGISTRY))
  {
    var c := AppendMissing(r, head, REGISTRY);
    AppendFacts(r, head, REGISTRY);
    ProfileTail(r, head);
    forall j | |head| <= j < |c| ensures Rank(r, c[j], p) == 2 && c[j] != p {
      assert c[j] in c;
    }
    RankedTail(r, p, head, c);
  }

  lemma RankedTail(r: Request, p: Sleeve, head: seq<Sleeve>, c: seq<Sleeve>)
    requires InRank(r, p, head) && head <= c && forall i :: 0 <= i < |head| ==> Rank(r, head[i], p) <= 1
    requires forall j :: |head| <= j < |c| ==> Rank(r, c[j], p) == 2 && c[j] != p
    ensures InRank(r, p, c)
  {
    forall i, j | 0 <= i < j < |c| ensures Rank(r, c[i], p) <= Rank(r, c[j], p) && c[j] != p {
      if j < |head| {
        assert c[i] == head[i] && c[j] == head[j];
      } else {
        assert i < |head| ==> c[i] == head[i];
      }
    }
  }

  lemma RankedCandidates(r: Request, p: Sleeve)
    requires r.fusionPresent && Preferred(r) == Some(p)
    ensures forall s :: s in Candidates(r) <==> Registered(r, s) && (s == p || s in r.eligible || r.profileEnabled)
    ensures InRank(r, p, Candidates(r))
  {
    CandidatesFromHead(r, p);
    HeadMembers(r, p);
    HeadRanks(r, p);
    if r.profileEnabled {
      AppendFacts(r, Head(r, p), REGISTRY);
      TailRanks(r, p, Head(r, p));
    }
  }

  lemma RunsExactly(r: Request, s: Sleeve)
    ensures Registered(r, s) <==> Runs(r, s)
  {
  }

  /**
   * Otherwise the candidates are exactly the sleeves that run and are preferred, eligible, or, under an active profile,
   * any; the preferred one, the routed sleeve or else ShadowFront, comes first and once, then the eligible ones, then
   * the rest.
   */
  lemma CandidatesExactly(r: Request, p: Sleeve)
    requires r.fusionPresent && (r.routed == Some(p) || (r.routed == None && r.profileEnabled && p == ShadowFront))
    ensures forall s :: s in Candidates(r) <==> Runs(r, s) && (s == p || s in r.eligible || r.profileEnabled)
    ensures InRank(r, p, Candidates(r))
  {
    RankedCandidates(r, p);
    RunningMembers(r, p, Candidates(r));
  }

  lemma RunningMembers(r: Request, p: Sleeve, c: seq<Sleeve>)
    requires forall s :: s in c <==> Registered(r, s) && (s == p || s in r.eligible || r.profileEnabled)
    ensures forall s :: s in c <==> Runs(r, s) && (s == p || s in r.eligible || r.profileEnabled)
  {
    forall s ensures s in c <==> Runs(r, s) && (s == p || s in r.eligible || r.profileEnabled) {
      RunsExactly(r, s);
    }
  }

  /** The order in which a profile adds sleeves. */
  function Turn(s: Sleeve): nat {
    match s
    case ShadowFront => 0
    case GammaFront => 1
    case SectorRotation => 2
    case Flv => 3
    case Other(_) => 4
  }

  /** The sleeves only a profile brings in come in their turn. */
  lemma AddedInTurn(r: Request, c: seq<Sleeve>, i: nat, j: nat)
    requires |c| <= i < j < |AppendMissing(r, c, REGISTRY)|
    ensures Turn(AppendMissing(r, c, REGISTRY)[i]) < Turn(AppendMissing(r, c, REGISTRY)[j])
  {
    var x, y := AddedInOrder(r, c, REGISTRY, i, j);
    assert forall k :: 0 <= k < |REGISTRY| ==> Turn(REGISTRY[k]) == k;
  }

  lemma ProfileTail(r: Request, ranked: seq<Sleeve>)
    requires forall s :: s in REGISTRY && s in ranked ==> Registered(r, s)
    ensures var c := AppendMissing(r, ranked, REGISTRY);
            forall j :: |ranked| <= j < |c| ==> c[j] !in ranked
  {
    AppendFacts(r, ranked, REGISTRY);
    var c := AppendMissing(r, ranked, REGISTRY);
    forall j | |ranked| <= j < |c| ensures c[j] !in ranked {
      assert forall i :: 0 <= i < |ranked| ==> c[i] == ranked[i] && c[i] != c[j];
    }
  }

  lemma RankedHead(r: Request, p: Sleeve, first: seq<Sleeve>, fallbacks: seq<Sleeve>)
    requires first == [] || first == [p]
    requires forall s :: s in fallbacks ==> s in r.eligible && s != p
    ensures var ranked := first + fallbacks;
            forall i :: 0 <= i < |ranked| ==> Rank(r, ranked[i], p) == if i < |first| then 0 else 1
  {
    forall i | 0 <= i < |first + fallbacks|
      ensures Rank(r, (first + fallbacks)[i], p) == if i < |first| then 0 else 1
    {
      if i >= |first| {
        assert (first + fallbacks)[i] == fallbacks[i - |first|];
        assert fallbacks[i - |first|] in fallbacks;
      }
    }
  }

  // ---- The winner ----

  /** A MovingFloor pair pre-empts every sleeve; otherwise the winner is the first candidate that produces a signal. */
  lemma WinnerIsFirstProducer(r: Request, i: nat)
    requires i < |Candidates(r)|
    ensures r.movingFloorPair ==> Select(r) == Chosen(MovingFloor, true) && Asked(r) == []
    ensures !r.movingFloorPair && r.answer(i).Produced? && (forall j: nat :: j < i ==> r.answer(j).Declined?)
            ==> Select(r) == Chosen(Ranked(Candidates(r)[i]), r.answer(i).vote) && Asked(r) == Candidates(r)[..i + 1]
    ensures !r.movingFloorPair ==>
              (Select(r) == NoSignal <==> forall j: nat :: j < |Candidates(r)| ==> r.answer(j).Declined?)
  {
    var n := FirstProducer(Candidates(r), r.answer, 0);
    if !r.movingFloorPair && r.answer(i).Produced? && (forall j: nat :: j < i ==> r.answer(j).Declined?) {
      assert n == i;
    }
  }
}
