/** Dispatch of a fusion decision: compile and submit, their accounting, and the stall watchdog around them. */
module Dispatch {
  import opened Options
  import opened SleeveSelection

  // ---- What a dispatch does ----

  /** A signal and a vote were chosen: the dispatch goes on to compile. */
  predicate Voted(r: Request) {
    Candidates(r) != [] && Select(r).Chosen? && Select(r).vote
  }

  /** What a dispatch does, one by one; `Submit` is the call, `Accept`, `Refuse` and `Block` book its outcome. */
  datatype Act =
    | Ask(sleeve: Sleeve) | Arm | Compile | CompileNoSubmit | CountCycle | Block | Submit | Accept | Refuse | Cancel

  /**
   * BLOCK and NO_TRADE frames bind only with candle truth behind the dispatch, or when the signal's metadata says so.
   */
  predicate Enforced(r: Request) {
    (r.candleTruth || r.metadataRequiresCanonical) && (r.frameStatus == "BLOCK" || r.frameOutput == "NO_TRADE")
  }

  datatype Progress = Progress(stage: Stage, acts: seq<Act>)

  predicate Going(s: Stage) { !s.Finished? && !s.Raised? }

  /** What a stage does. */
  function ActAt(r: Request, s: Stage): Act {
    match s
    case Arming => Arm
    case Compiling => Compile
    case Counting => CountCycle
    case Routing => if Enforced(r) then Block else Submit
    case Booking => if r.accepted then Accept else Refuse
    case _ => Cancel
  }

  /** The stage after it; a blocked dispatch has nothing to book. */
  function StageAfter(r: Request, s: Stage): Stage {
    match s
    case Arming => Compiling
    case Compiling => Counting
    case Counting => Routing
    case Routing => if Enforced(r) then Cancelling else Booking
    case Booking => Cancelling
    case _ => Finished
  }

  /** One step of a dispatch with a vote: raise, or do what the stage does and go on. */
  function Next(r: Request, v: Progress): Progress {
    if !Going(v.stage) then v
    else if r.fault == At(v.stage) then v.(stage := Raised)
    else Progress(StageAfter(r, v.stage), v.acts + [ActAt(r, v.stage)])
  }

  function Place(s: Stage): nat {
    match s
    case Arming => 1
    case Compiling => 2
    case Counting => 3
    case Routing => 4
    case Booking => 5
    case Cancelling => 6
    case _ => 7
  }

  /** Steps until the dispatch finishes or raises. */
  function Exec(r: Request, v: Progress): Progress
    decreases 7 - Place(v.stage)
  {
    if !Going(v.stage) then v else Exec(r, Next(r, v))
  }

  const BEGIN := Progress(Arming, [])

  function Asks(sleeves: seq<Sleeve>): seq<Act> {
    if sleeves == [] then [] else Asks(sleeves[..|sleeves| - 1]) + [Ask(sleeves[|sleeves| - 1])]
  }

  /** Without a signal and a vote. */
  function QuietActs(r: Request): seq<Act> {
    if r.scorecard.Compiles? then [CompileNoSubmit] else []
  }

  function Ending(r: Request): seq<Act> {
    if Voted(r) then Exec(r, BEGIN).acts else QuietActs(r)
  }

  /** Everything one dispatch does, in order. */
  function Acts(r: Request): seq<Act> {
    if Candidates(r) == [] then [] else Asks(Asked(r)) + Ending(r)
  }

  // ---- What the acts do to metrics and watchdog ----

  datatype Metrics = Metrics(cycles: nat, submitted: nat, rejected: nat)

  /** `arm` replaces any earlier arm; `cancel` works only for the latest one. */
  datatype Watchdog = Watchdog(enabled: bool, token: nat, armed: bool)

  function Armed(w: Watchdog): Watchdog {
    if w.enabled then w.(token := w.token + 1, armed := true) else w
  }

  /** The token `arm` returns. */
  function ArmToken(w: Watchdog): nat {
    if w.enabled then w.token + 1 else 0
  }

  function Cancelled(w: Watchdog, token: nat): Watchdog {
    if w.enabled && token == w.token then w.(token := w.token + 1, armed := false) else w
  }

  /** The metrics, the watchdog and the token of the latest arming. */
  datatype Effects = Effects(metrics: Metrics, watchdog: Watchdog, token: nat)

  function Apply(e: Effects, a: Act): Effects {
    match a
    case Arm => e.(watchdog := Armed(e.watchdog), token := ArmToken(e.watchdog))
    case CompileNoSubmit => e.(metrics := e.metrics.(cycles := e.metrics.cycles + 1))
    case CountCycle => e.(metrics := e.metrics.(cycles := e.metrics.cycles + 1))
    case Block => e.(metrics := e.metrics.(rejected := e.metrics.rejected + 1))
    case Accept => e.(metrics := e.metrics.(submitted := e.metrics.submitted + 1))
    case Refuse => e.(metrics := e.metrics.(rejected := e.metrics.rejected + 1))
    case Cancel => if e.token == 0 then e else e.(watchdog := Cancelled(e.watchdog, e.token))
    case _ => e
  }

  function ApplyAll(e: Effects, acts: seq<Act>): Effects {
    if acts == [] then e else Apply(ApplyAll(e, acts[..|acts| - 1]), acts[|acts| - 1])
  }

  datatype DispatchState = DispatchState(effects: Effects, acts: seq<Act>)

  function Step(s: DispatchState, r: Request): DispatchState {
    DispatchState(ApplyAll(s.effects, Acts(r)), s.acts + Acts(r))
  }

  function Initial(enabled: bool): DispatchState {
    DispatchState(Effects(Metrics(0, 0, 0), Watchdog(enabled, 0, false), 0), [])
  }

  function Run(enabled: bool, rs: seq<Request>): DispatchState {
    if rs == [] then Initial(enabled) else Step(Run(enabled, rs[..|rs| - 1]), rs[|rs| - 1])
  }

  // ---- What every step keeps ----

  /** The place of an act; acts that exclude each other share one. */
  function Order(a: Act): nat {
    match a
    case Ask(_) => 0
    case Arm => 1
    case Compile => 2
    case CompileNoSubmit => 2
    case CountCycle => 3
    case Block => 4
    case Submit => 4
    case Accept => 5
    case Refuse => 5
    case Cancel => 6
  }

  /**
   * Each kind of act at most once and in the order of the stages; only sleeves are asked repeatedly, before all else.
   */
  ghost predicate InOrder(acts: seq<Act>) {
    forall i, j :: 0 <= i < j < |acts| ==> Order(acts[i]) < Order(acts[j]) || (acts[i].Ask? && acts[j].Ask?)
  }

  /** How far a dispatch got: the stage it stands at, or where it raised. */
  function Reached(r: Request, s: Stage): Stage {
    if s.Raised? && r.fault.At? then r.fault.stage else s
  }

  /** The stage has been done; a blocked dispatch has no booking. */
  predicate Done(r: Request, at: Stage, s: Stage) {
    Place(s) < Place(Reached(r, at)) && !(s.Booking? && Enforced(r))
  }

  /** Which acts a dispatch standing at stage `at` has done. */
  predicate Expected(r: Request, at: Stage, a: Act) {
    match a
    case Arm => Done(r, at, Arming)
    case Compile => Done(r, at, Compiling)
    case CountCycle => Done(r, at, Counting)
    case Block => Done(r, at, Routing) && Enforced(r)
    case Submit => Done(r, at, Routing) && !Enforced(r)
    case Accept => Done(r, at, Booking) && r.accepted
    case Refuse => Done(r, at, Booking) && !r.accepted
    case Cancel => Done(r, at, Cancelling)
    case _ => false
  }

  /** The stages a dispatch can stand at, the fault still ahead or, once raised, at one of the stages it reaches. */
  predicate Reachable(r: Request, at: Stage) {
    if at.Raised? then r.fault.At? && Place(r.fault.stage) < 7 && !(r.fault.stage.Booking? && Enforced(r))
    else (r.fault.At? ==> !Done(r, at, r.fault.stage)) && !(at.Booking? && Enforced(r))
  }

  ghost predicate Sound(r: Request, v: Progress) {
    && Reachable(r, v.stage)
    && InOrder(v.acts)
    && (forall a :: a in v.acts ==> 0 < Order(a) < Place(v.stage))
    && (forall a :: a in v.acts <==> Expected(r, v.stage, a))
  }

  lemma OneMoreAct(acts: seq<Act>, a: Act, bound: nat)
    requires InOrder(acts) && (forall b :: b in acts ==> 0 < Order(b) < bound) && Order(a) == bound
    ensures InOrder(acts + [a])
    ensures forall b :: b in acts + [a] <==> b in acts || b == a
  {
    var all := acts + [a];
    forall i, j | 0 <= i < j < |all| ensures Order(all[i]) < Order(all[j]) || (all[i].Ask? && all[j].Ask?) {
      if j == |acts| {
        assert acts[i] in acts;
      }
    }
  }

  /** Doing a stage adds its act to those expected and no other. */
  lemma StageDone(r: Request, at: Stage)
    requires Reachable(r, at) && Going(at) && r.fault != At(at)
    ensures Reachable(r, StageAfter(r, at)) && Place(at) < Place(StageAfter(r, at)) && Order(ActAt(r, at)) == Place(at)
    ensures forall a :: Expected(r, StageAfter(r, at), a) <==> Expected(r, at, a) || a == ActAt(r, at)
  {
  }

  lemma StageRaises(r: Request, at: Stage)
    requires Reachable(r, at) && Going(at) && r.fault == At(at)
    ensures Reachable(r, Raised)
    ensures forall a :: Expected(r, Raised, a) <==> Expected(r, at, a)
  {
  }

  lemma NextSound(r: Request, v: Progress)
    requires Sound(r, v) && Going(v.stage)
    ensures Sound(r, Next(r, v))
  {
    if r.fault == At(v.stage) {
      StageRaises(r, v.stage);
    } else {
      StageDone(r, v.stage);
      OneMoreAct(v.acts, ActAt(r, v.stage), Place(v.stage));
    }
  }

  lemma {:induction false} ExecSound(r: Request, v: Progress)
    requires Sound(r, v)
    ensures Sound(r, Exec(r, v)) && (Exec(r, v).stage.Finished? || Exec(r, v).stage.Raised?)
    decreases 7 - Place(v.stage)
  {
    if Going(v.stage) {
      NextSound(r, v);
      ExecSound(r, Next(r, v));
    }
  }

  // ---- How a dispatch with a vote ends ----

  /** The fault lies at a stage that is reached: any but booking when the frame is enforced. */
  predicate Faulty(r: Request) {
    r.fault.At? && Place(r.fault.stage) < 7 && !(r.fault.stage.Booking? && Enforced(r))
  }

  predicate Raises(r: Request) { Voted(r) && Faulty(r) }

  /** It arms the watchdog. */
  predicate Arms(r: Request) { Voted(r) && r.fault != At(Arming) }

  /** It raises after arming, or between the count of its cycle and the booking of its outcome. */
  predicate LeavesArmed(r: Request) { Raises(r) && !r.fault.stage.Arming? }

  predicate LosesCycle(r: Request) { Raises(r) && (r.fault.stage.Routing? || r.fault.stage.Booking?) }

  function EndStage(r: Request): Stage { if Faulty(r) then Raised else Finished }

  lemma BeginSound(r: Request)
    ensures Sound(r, BEGIN)
  {
  }

  lemma EndIsDecided(r: Request, at: Stage)
    requires Reachable(r, at) && (at.Finished? || at.Raised?)
    ensures at == EndStage(r)
  {
  }

  lemma ExecEnds(r: Request)
    ensures Sound(r, Exec(r, BEGIN)) && Exec(r, BEGIN).stage == EndStage(r)
  {
    BeginSound(r);
    ExecSound(r, BEGIN);
    EndIsDecided(r, Exec(r, BEGIN).stage);
  }

  /** Which acts a dispatch does, by its request alone. */
  lemma EndingExactly(r: Request, a: Act)
    requires Voted(r)
    ensures InOrder(Ending(r))
    ensures a in Ending(r) <==> Expected(r, EndStage(r), a)
  {
    ExecEnds(r);
  }

  lemma {:induction false} AsksOnlyAsk(sleeves: seq<Sleeve>)
    ensures |Asks(sleeves)| == |sleeves|
    ensures forall i :: 0 <= i < |sleeves| ==> Asks(sleeves)[i] == Ask(sleeves[i])
  {
    if sleeves != [] {
      AsksOnlyAsk(sleeves[..|sleeves| - 1]);
    }
  }

  lemma AsksFirst(asked: seq<Sleeve>, ending: seq<Act>)
    requires InOrder(ending) && forall a :: a in ending ==> Order(a) > 0
    ensures InOrder(Asks(asked) + ending)
  {
    AsksOnlyAsk(asked);
    var asks := Asks(asked);
    assert forall i :: 0 <= i < |asks| ==> asks[i].Ask?;
    assert forall j :: 0 <= j < |ending| ==> ending[j] in ending;
  }

  /**
   * A dispatch does each kind of act at most once and in order: one compile of either kind, and one of block and
   * submit.
   */
  lemma ActsInOrder(r: Request)
    ensures InOrder(Acts(r))
  {
    if Candidates(r) != [] {
      if Voted(r) {
        ExecEnds(r);
      }
      AsksFirst(Asked(r), Ending(r));
    }
  }

  /** Position `i` of the candidates is the first to produce a signal, and it comes with a vote. */
  ghost predicate VotesFirst(r: Request, i: nat) {
    i < |Candidates(r)| && r.answer(i) == Produced(true) && forall j: nat :: j < i ==> r.answer(j) == Declined
  }

  /** A MovingFloor pair or the first sleeve with a signal brings a vote. */
  ghost predicate BringsVote(r: Request) {
    Candidates(r) != [] && (r.movingFloorPair || exists i :: VotesFirst(r, i))
  }

  lemma VotedExactly(r: Request)
    ensures Voted(r) <==> BringsVote(r)
  {
    if !r.movingFloorPair {
      var n := FirstProducer(Candidates(r), r.answer, 0);
      if BringsVote(r) {
        var i :| VotesFirst(r, i);
        assert n == i;
      }
      if Voted(r) {
        assert VotesFirst(r, n);
      }
    }
  }

  /** Something raises before the dispatch has routed its decision. */
  predicate RaisesByRouting(r: Request) {
    r.fault == At(Arming) || r.fault == At(Compiling) || r.fault == At(Counting) || r.fault == At(Routing)
  }

  lemma RoutedExactly(r: Request, a: Act)
    requires a == Submit || a == Block
    ensures a in Acts(r) <==> Voted(r) && (a == Block <==> Enforced(r)) && !RaisesByRouting(r)
  {
    AsksOnlyAsk(Asked(r));
    if Voted(r) {
      EndingExactly(r, a);
      assert a in Acts(r) <==> a in Ending(r);
    }
  }

  /**
   * A dispatch with a vote blocks exactly when its frame says BLOCK or NO_TRADE and binds, because of candle truth or
   * of the signal's metadata, and it submits exactly when not; in both cases only if nothing raises up to there.
   */
  lemma SubmitsIff(r: Request)
    ensures var binds := r.candleTruth || r.metadataRequiresCanonical;
            var stops := r.frameStatus == "BLOCK" || r.frameOutput == "NO_TRADE";
            && (Submit in Acts(r) <==> BringsVote(r) && !RaisesByRouting(r) && !(binds && stops))
            && (Block in Acts(r) <==> BringsVote(r) && !RaisesByRouting(r) && binds && stops)
  {
    VotedExactly(r);
    RoutedExactly(r, Submit);
    RoutedExactly(r, Block);
  }

  /** In an ordered list nothing else has the place of an act other than asking, and lower places come before it. */
  lemma OnlyPlace(acts: seq<Act>, i: nat)
    requires InOrder(acts) && i < |acts| && !acts[i].Ask?
    ensures forall j :: 0 <= j < |acts| && j != i ==> Order(acts[j]) != Order(acts[i])
    ensures forall j :: 0 <= j < |acts| && Order(acts[j]) < Order(acts[i]) ==> j < i
  {
  }

  lemma CompileBeforeSubmit(acts: seq<Act>, i: nat) returns (k: nat)
    requires InOrder(acts) && Compile in acts && i < |acts| && acts[i] == Submit
    ensures k < i && acts[k] == Compile
    ensures forall j :: 0 <= j < |acts| && j != i ==> Order(acts[j]) != Order(Submit)
    ensures forall j :: 0 <= j < |acts| && j != k ==> Order(acts[j]) != Order(Compile)
  {
    k :| 0 <= k < |acts| && acts[k] == Compile;
    OnlyPlace(acts, i);
    OnlyPlace(acts, k);
  }

  lemma SubmitNeedsCompile(r: Request)
    requires Submit in Acts(r)
    ensures Compile in Acts(r)
  {
    RoutedExactly(r, Submit);
    EndingExactly(r, Compile);
  }

  /** When it submits, it has compiled before, once, and it neither blocks nor compiles anything else. */
  lemma SubmitsOnceAfterCompile(r: Request, i: nat) returns (k: nat)
    requires i < |Acts(r)| && Acts(r)[i] == Submit
    ensures k < i && Acts(r)[k] == Compile
    ensures forall j :: 0 <= j < |Acts(r)| && j != i ==> Order(Acts(r)[j]) != Order(Submit)
    ensures forall j :: 0 <= j < |Acts(r)| && j != k ==> Order(Acts(r)[j]) != Order(Compile)
  {
    var acts := Acts(r);
    assert acts[i] in acts;
    SubmitNeedsCompile(r);
    ActsInOrder(r);
    k := CompileBeforeSubmit(acts, i);
  }

  // ---- Accounting over runs ----

  function Count(acts: seq<Act>, a: Act): nat { multiset(acts)[a] }

  lemma CountConcat(x: seq<Act>, y: seq<Act>, a: Act)
    ensures Count(x + y, a) == Count(x, a) + Count(y, a)
  {
  }

  lemma {:induction false} CountOnce(acts: seq<Act>, a: Act)
    requires InOrder(acts) && !a.Ask?
    ensures Count(acts, a) == if a in acts then 1 else 0
  {
    if acts != [] {
      var init, last := acts[..|acts| - 1], acts[|acts| - 1];
      assert acts == init + [last];
      CountOnce(init, a);
      if last == a {
        assert forall i :: 0 <= i < |init| ==> init[i] == acts[i];
        OnlyPlace(acts, |acts| - 1);
      }
    }
  }

  lemma ApplyConcat(e: Effects, x: seq<Act>, y: seq<Act>)
    ensures ApplyAll(e, x + y) == ApplyAll(ApplyAll(e, x), y)
  {
    if y == [] {
      assert x + y == x;
    } else {
      ApplyConcat(e, x, y[..|y| - 1]);
      assert (x + y)[..|x + y| - 1] == x + y[..|y| - 1];
    }
  }

  lemma ApplySnoc(e: Effects, acts: seq<Act>, a: Act)
    ensures ApplyAll(e, acts + [a]) == Apply(ApplyAll(e, acts), a)
  {
    assert (acts + [a])[..|acts|] == acts;
  }

  /** The metrics move by the numbers of the acts that book something. */
  ghost predicate Booked(m: Metrics, n: Metrics, acts: seq<Act>) {
    && n.cycles == m.cycles + Count(acts, CountCycle) + Count(acts, CompileNoSubmit)
    && n.submitted == m.submitted + Count(acts, Accept)
    && n.rejected == m.rejected + Count(acts, Refuse) + Count(acts, Block)
  }

  lemma {:induction false} ActsAreBooked(e: Effects, acts: seq<Act>)
    ensures Booked(e.metrics, ApplyAll(e, acts).metrics, acts)
  {
    if acts != [] {
      var init, last := acts[..|acts| - 1], acts[|acts| - 1];
      assert acts == init + [last];
      ActsAreBooked(e, init);
      BookedStep(e.metrics, ApplyAll(e, init), init, last);
    }
  }

  lemma BookedStep(m: Metrics, e: Effects, acts: seq<Act>, a: Act)
    requires Booked(m, e.metrics, acts)
    ensures Booked(m, Apply(e, a).metrics, acts + [a])
  {
    assert forall b :: Count(acts + [a], b) == Count(acts, b) + if a == b then 1 else 0;
  }

  lemma {:induction false} RunIsItsActs(enabled: bool, rs: seq<Request>)
    ensures Run(enabled, rs).effects == ApplyAll(Initial(enabled).effects, Run(enabled, rs).acts)
  {
    if rs != [] {
      var s := Run(enabled, rs[..|rs| - 1]);
      RunIsItsActs(enabled, rs[..|rs| - 1]);
      ApplyConcat(Initial(enabled).effects, s.acts, Acts(rs[|rs| - 1]));
    }
  }

  lemma CountActs(r: Request, a: Act)
    requires !a.Ask?
    ensures Count(Acts(r), a) == if a in Acts(r) then 1 else 0
    ensures a in Acts(r) <==>
              if Voted(r) then Expected(r, EndStage(r), a)
              else Candidates(r) != [] && a == CompileNoSubmit && r.scorecard.Compiles?
  {
    ActsInOrder(r);
    CountOnce(Acts(r), a);
    AsksOnlyAsk(Asked(r));
    if Voted(r) {
      EndingExactly(r, a);
    }
    if Candidates(r) != [] {
      assert a in Acts(r) <==> a in Ending(r);
    }
  }

  function Ones(b: bool): nat { if b then 1 else 0 }

  /** A counted cycle is submitted, rejected, or lost when the fault lies between count and booking. */
  lemma ExpectedCycle(r: Request)
    ensures var end := EndStage(r);
            Ones(Expected(r, end, CountCycle))
            == Ones(Expected(r, end, Accept)) + Ones(Expected(r, end, Refuse)) + Ones(Expected(r, end, Block))
               + Ones(Faulty(r) && (r.fault.stage.Routing? || r.fault.stage.Booking?))
  {
  }

  lemma CyclesOfDispatch(r: Request)
    ensures var acts := Acts(r);
            Count(acts, CountCycle)
            == Count(acts, Accept) + Count(acts, Refuse) + Count(acts, Block) + Ones(LosesCycle(r))
  {
    CountActs(r, CountCycle);
    CountActs(r, Accept);
    CountActs(r, Refuse);
    CountActs(r, Block);
    ExpectedCycle(r);
  }

  function CountIf<T>(xs: seq<T>, p: T -> bool): nat {
    if xs == [] then 0 else CountIf(xs[..|xs| - 1], p) + Ones(p(xs[|xs| - 1]))
  }

  lemma {:induction false} CountIfZero<T>(xs: seq<T>, p: T -> bool)
    ensures CountIf(xs, p) == 0 <==> forall i :: 0 <= i < |xs| ==> !p(xs[i])
  {
    if xs != [] {
      var k := |xs| - 1;
      CountIfZero(xs[..k], p);
      assert forall i :: 0 <= i < k ==> xs[..k][i] == xs[i];
    }
  }

  lemma {:induction false} CyclesOfRun(enabled: bool, rs: seq<Request>)
    ensures var acts := Run(enabled, rs).acts;
            Count(acts, CountCycle)
            == Count(acts, Accept) + Count(acts, Refuse) + Count(acts, Block) + CountIf(rs, LosesCycle)
  {
    if rs != [] {
      var k := |rs| - 1;
      var s := Run(enabled, rs[..k]);
      CyclesOfRun(enabled, rs[..k]);
      CyclesOfDispatch(rs[k]);
      CountConcat(s.acts, Acts(rs[k]), CountCycle);
      CountConcat(s.acts, Acts(rs[k]), Accept);
      CountConcat(s.acts, Acts(rs[k]), Refuse);
      CountConcat(s.acts, Acts(rs[k]), Block);
    }
  }

  /**
   * In every run, compilation cycles are the orders submitted, rejected and compiled without submitting, and the cycles
   * lost to a raise between their count and the booking of the outcome.
   */
  lemma RunAccounting(enabled: bool, rs: seq<Request>)
    ensures var s := Run(enabled, rs);
            && Booked(Metrics(0, 0, 0), s.effects.metrics, s.acts)
            && s.effects.metrics.cycles
               == s.effects.metrics.submitted + s.effects.metrics.rejected + Count(s.acts, CompileNoSubmit)
                  + CountIf(rs, LosesCycle)
  {
    RunIsItsActs(enabled, rs);
    ActsAreBooked(Initial(enabled).effects, Run(enabled, rs).acts);
    CyclesOfRun(enabled, rs);
  }

  /** So the plain law holds exactly when no dispatch raises between counting its cycle and booking the outcome. */
  lemma PlainAccountingIff(enabled: bool, rs: seq<Request>)
    ensures var s := Run(enabled, rs);
            s.effects.metrics.cycles
            == s.effects.metrics.submitted + s.effects.metrics.rejected + Count(s.acts, CompileNoSubmit)
            <==> forall i :: 0 <= i < |rs| ==> !LosesCycle(rs[i])
  {
    RunAccounting(enabled, rs);
    CountIfZero(rs, LosesCycle);
  }

  // ---- The watchdog over runs ----

  /** The watchdog while a dispatch with a vote goes on: untouched, armed by it, or disarmed again. */
  ghost predicate Watched(r: Request, e: Effects, f: Effects, at: Stage) {
    if !Done(r, at, Arming) then f.watchdog == e.watchdog
    else if Done(r, at, Cancelling) then f.watchdog.enabled == e.watchdog.enabled && !f.watchdog.armed
    else f.watchdog == Armed(e.watchdog) && f.token == ArmToken(e.watchdog)
  }

  lemma StageWatched(r: Request, e: Effects, f: Effects, at: Stage)
    requires Reachable(r, at) && Going(at) && r.fault != At(at)
    requires Watched(r, e, f, at) && (e.watchdog.armed ==> e.watchdog.enabled)
    ensures Watched(r, e, Apply(f, ActAt(r, at)), StageAfter(r, at))
  {
  }

  lemma {:induction false} ExecWatched(r: Request, e: Effects, v: Progress)
    requires Reachable(r, v.stage) && Watched(r, e, ApplyAll(e, v.acts), v.stage)
    requires e.watchdog.armed ==> e.watchdog.enabled
    ensures Watched(r, e, ApplyAll(e, Exec(r, v).acts), Exec(r, v).stage)
    decreases 7 - Place(v.stage)
  {
    if Going(v.stage) {
      if r.fault == At(v.stage) {
        StageRaises(r, v.stage);
      } else {
        StageDone(r, v.stage);
        StageWatched(r, e, ApplyAll(e, v.acts), v.stage);
        ApplySnoc(e, v.acts, ActAt(r, v.stage));
      }
      ExecWatched(r, e, Next(r, v));
    }
  }

  lemma {:induction false} AsksDoNothing(e: Effects, sleeves: seq<Sleeve>)
    ensures ApplyAll(e, Asks(sleeves)) == e
  {
    if sleeves != [] {
      AsksDoNothing(e, sleeves[..|sleeves| - 1]);
      ApplySnoc(e, Asks(sleeves[..|sleeves| - 1]), Ask(sleeves[|sleeves| - 1]));
    }
  }

  /** After one dispatch the watchdog is armed when the dispatch left it so, or did not touch it. */
  lemma WatchdogAfter(e: Effects, r: Request)
    requires e.watchdog.armed ==> e.watchdog.enabled
    ensures var w := ApplyAll(e, Acts(r)).watchdog;
            && w.enabled == e.watchdog.enabled
            && w.armed == if Arms(r) then w.enabled && LeavesArmed(r) else e.watchdog.armed
  {
    if Candidates(r) != [] {
      ApplyConcat(e, Asks(Asked(r)), Ending(r));
      AsksDoNothing(e, Asked(r));
      if Voted(r) {
        VotedWatchdog(e, r);
      } else {
        QuietWatchdog(e, r);
      }
    }
  }

  lemma QuietWatchdog(e: Effects, r: Request)
    ensures ApplyAll(e, QuietActs(r)).watchdog == e.watchdog
  {
    ApplySnoc(e, [], CompileNoSubmit);
    assert [] + [CompileNoSubmit] == [CompileNoSubmit];
  }

  lemma VotedWatchdog(e: Effects, r: Request)
    requires Voted(r) && (e.watchdog.armed ==> e.watchdog.enabled)
    ensures var w := ApplyAll(e, Ending(r)).watchdog;
            && w.enabled == e.watchdog.enabled
            && w.armed == if Arms(r) then w.enabled && LeavesArmed(r) else e.watchdog.armed
  {
    BeginSound(r);
    ExecWatched(r, e, BEGIN);
    ExecEnds(r);
    EndWatched(r, e, Exec(r, BEGIN));
  }

  lemma EndWatched(r: Request, e: Effects, v: Progress)
    requires v.stage == EndStage(r) && Watched(r, e, ApplyAll(e, v.acts), v.stage)
             && (e.watchdog.armed ==> e.watchdog.enabled)
    ensures var w := ApplyAll(e, v.acts).watchdog;
            && w.enabled == e.watchdog.enabled
            && w.armed == if r.fault == At(Arming) then e.watchdog.armed else w.enabled && Faulty(r)
  {
  }

  /** Some element opens and none after it touches. */
  ghost predicate LeftOpen<T(!new)>(xs: seq<T>, opens: T -> bool, touches: T -> bool) {
    exists i :: 0 <= i < |xs| && opens(xs[i]) && forall j :: i < j < |xs| ==> !touches(xs[j])
  }

  lemma LeftOpenStep<T(!new)>(xs: seq<T>, opens: T -> bool, touches: T -> bool)
    requires xs != []
    ensures var k := |xs| - 1;
            LeftOpen(xs, opens, touches) <==> opens(xs[k]) || (LeftOpen(xs[..k], opens, touches) && !touches(xs[k]))
  {
    var k := |xs| - 1;
    if LeftOpen(xs[..k], opens, touches) && !touches(xs[k]) {
      var i :| 0 <= i < k && opens(xs[..k][i]) && forall j :: i < j < k ==> !touches(xs[..k][j]);
      assert forall j :: i < j < k ==> xs[..k][j] == xs[j];
      assert opens(xs[i]);
    }
    if LeftOpen(xs, opens, touches) && !opens(xs[k]) {
      var i :| 0 <= i < |xs| && opens(xs[i]) && forall j :: i < j < |xs| ==> !touches(xs[j]);
      assert opens(xs[..k][i]);
    }
  }

  /** Some dispatch left the watchdog armed by raising and none armed it since. */
  ghost predicate LeftArmedBy(rs: seq<Request>) {
    LeftOpen(rs, LeavesArmed, Arms)
  }

  /** After any run the watchdog is armed exactly when a raise left it so: every normal exit cancels what it armed. */
  lemma {:induction false} ArmedExactly(enabled: bool, rs: seq<Request>)
    ensures var w := Run(enabled, rs).effects.watchdog;
            w.enabled == enabled && (w.armed <==> enabled && LeftArmedBy(rs))
  {
    if rs != [] {
      ArmedExactly(enabled, rs[..|rs| - 1]);
      LeftOpenStep(rs, LeavesArmed, Arms);
      WatchdogAfter(Run(enabled, rs[..|rs| - 1]).effects, rs[|rs| - 1]);
    }
  }

  lemma CancelIsLast(acts: seq<Act>, i: nat)
    requires InOrder(acts) && i < |acts| && acts[i] == Cancel
    ensures i == |acts| - 1
  {
    assert i < |acts| - 1 ==> Order(acts[i]) < Order(acts[|acts| - 1]);
  }

  lemma ExpectedCancel(r: Request)
    requires r.fault != At(Arming)
    ensures Expected(r, EndStage(r), Arm) && (Expected(r, EndStage(r), Cancel) <==> !Faulty(r))
  {
  }

  lemma ArmsAndCancels(r: Request)
    requires Arms(r)
    ensures Arm in Acts(r) && (Cancel in Acts(r) <==> !Raises(r))
  {
    CountActs(r, Arm);
    CountActs(r, Cancel);
    ExpectedCancel(r);
  }

  /** A dispatch that arms cancels, as its last act, exactly when it does not raise. */
  lemma CancelsIff(r: Request)
    requires Arms(r)
    ensures Acts(r) != [] && (Acts(r)[|Acts(r)| - 1] == Cancel <==> !Raises(r))
  {
    ArmsAndCancels(r);
    ActsInOrder(r);
    LastCancels(Acts(r));
  }

  lemma LastCancels(acts: seq<Act>)
    requires InOrder(acts) && acts != []
    ensures Cancel in acts <==> acts[|acts| - 1] == Cancel
  {
    if Cancel in acts {
      var i :| 0 <= i < |acts| && acts[i] == Cancel;
      CancelIsLast(acts, i);
    }
  }

  lemma Assoc(a: seq<Act>, b: seq<Act>, c: seq<Act>)
    ensures a + (b + c) == a + b + c
  {
  }

  /** One act of a dispatch with a vote, done for real. */
  lemma Advance(r: Request, e: Effects, before: seq<Act>, v: Progress, a: Act)
    requires Going(v.stage) && r.fault != At(v.stage) && a == ActAt(r, v.stage)
    ensures before + Next(r, v).acts == before + v.acts + [a]
    ensures ApplyAll(e, Next(r, v).acts) == Apply(ApplyAll(e, v.acts), a)
    ensures Exec(r, v) == Exec(r, Next(r, v))
  {
    ApplySnoc(e, v.acts, a);
    Assoc(before, v.acts, [a]);
  }

  /** After the sleeves are asked only the ending is left to do. */
  lemma StepAfterAsking(s: DispatchState, r: Request)
    requires Candidates(r) != []
    ensures Step(s, r) == DispatchState(ApplyAll(s.effects, Ending(r)), s.acts + Asks(Asked(r)) + Ending(r))
  {
    AsksDoNothing(s.effects, Asked(r));
    ApplyConcat(s.effects, Asks(Asked(r)), Ending(r));
    Assoc(s.acts, Asks(Asked(r)), Ending(r));
  }

  lemma Stop(r: Request, v: Progress)
    requires Going(v.stage) && r.fault == At(v.stage)
    ensures Exec(r, v) == v.(stage := Raised)
  {
  }

  // ---- The watchdog on its own ----

  /** What callers do with the watchdog. */
  datatype WatchdogCall = ArmCall | CancelCall(token: nat)

  function WatchdogStep(w: Watchdog, c: WatchdogCall): Watchdog {
    match c
    case ArmCall => Armed(w)
    case CancelCall(token) => Cancelled(w, token)
  }

  function WatchdogRun(enabled: bool, cs: seq<WatchdogCall>): Watchdog {
    if cs == [] then Watchdog(enabled, 0, false)
    else WatchdogStep(WatchdogRun(enabled, cs[..|cs| - 1]), cs[|cs| - 1])
  }

  /** The token call `i` got for arming. */
  function TokenOf(enabled: bool, cs: seq<WatchdogCall>, i: nat): nat
    requires i < |cs|
  {
    ArmToken(WatchdogRun(enabled, cs[..i]))
  }

  /** Call `i` armed, and since then nobody has armed or cancelled with its token. */
  ghost predicate LiveArm(enabled: bool, cs: seq<WatchdogCall>, i: nat) {
    && i < |cs| && cs[i] == ArmCall
    && forall j :: i < j < |cs| ==> cs[j].CancelCall? && cs[j].token != TokenOf(enabled, cs, i)
  }

  lemma WatchdogPrefix(enabled: bool, cs: seq<WatchdogCall>, c: WatchdogCall, i: nat)
    requires i < |cs|
    ensures TokenOf(enabled, cs + [c], i) == TokenOf(enabled, cs, i)
  {
    assert (cs + [c])[..i] == cs[..i];
  }

  lemma TokenOfLast(enabled: bool, cs: seq<WatchdogCall>, c: WatchdogCall)
    ensures WatchdogRun(enabled, cs + [c]) == WatchdogStep(WatchdogRun(enabled, cs), c)
    ensures TokenOf(enabled, cs + [c], |cs|) == ArmToken(WatchdogRun(enabled, cs))
  {
    assert (cs + [c])[..|cs|] == cs;
  }

  /** An arming gets a token above all earlier ones, or zero when the watchdog is disabled. */
  lemma {:induction false} TokensAreFresh(enabled: bool, cs: seq<WatchdogCall>)
    ensures var w := WatchdogRun(enabled, cs);
            && w.enabled == enabled && (!enabled ==> w.token == 0 && !w.armed)
            && forall i :: 0 <= i < |cs| && cs[i].ArmCall? ==>
                 if enabled then 0 < TokenOf(enabled, cs, i) <= w.token else TokenOf(enabled, cs, i) == 0
  {
    if cs != [] {
      var k := |cs| - 1;
      assert cs == cs[..k] + [cs[k]];
      TokensAreFresh(enabled, cs[..k]);
      TokenOfLast(enabled, cs[..k], cs[k]);
      forall i | 0 <= i < k ensures TokenOf(enabled, cs, i) == TokenOf(enabled, cs[..k], i) {
        WatchdogPrefix(enabled, cs[..k], cs[k], i);
      }
    }
  }

  lemma LiveArmStep(enabled: bool, cs: seq<WatchdogCall>, c: WatchdogCall, i: nat)
    requires i < |cs|
    ensures LiveArm(enabled, cs + [c], i)
       <==> LiveArm(enabled, cs, i) && c.CancelCall? && c.token != TokenOf(enabled, cs, i)
  {
    WatchdogPrefix(enabled, cs, c, i);
    var all := cs + [c];
    assert all[|cs|] == c && forall j :: 0 <= j < |cs| ==> all[j] == cs[j];
  }

  lemma LiveArmLast(enabled: bool, cs: seq<WatchdogCall>, c: WatchdogCall)
    ensures LiveArm(enabled, cs + [c], |cs|) <==> c == ArmCall
  {
  }

  /** In any run the watchdog is armed exactly while some arming is live, and then that one's token is current. */
  lemma {:induction false} ArmedByLiveArm(enabled: bool, cs: seq<WatchdogCall>)
    ensures var w := WatchdogRun(enabled, cs);
            && (w.armed <==> enabled && exists i :: LiveArm(enabled, cs, i))
            && (enabled ==> forall i :: LiveArm(enabled, cs, i) ==> TokenOf(enabled, cs, i) == w.token)
  {
    TokensAreFresh(enabled, cs);
    if cs != [] && enabled {
      var k := |cs| - 1;
      var init, c := cs[..k], cs[k];
      assert cs == init + [c];
      ArmedByLiveArm(enabled, init);
      TokenOfLast(enabled, init, c);
      LiveArmLast(enabled, init, c);
      forall i: nat | i < k
        ensures TokenOf(enabled, cs, i) == TokenOf(enabled, init, i)
        ensures LiveArm(enabled, cs, i)
                <==> LiveArm(enabled, init, i) && c.CancelCall? && c.token != TokenOf(enabled, init, i)
      {
        WatchdogPrefix(enabled, init, c, i);
        LiveArmStep(enabled, init, c, i);
      }
      if WatchdogRun(enabled, cs).armed {
        if c.ArmCall? {
          assert LiveArm(enabled, cs, k);
        } else {
          var i :| LiveArm(enabled, init, i);
          assert LiveArm(enabled, cs, i);
        }
      }
    }
  }

  // ---- The code that does it ----

  class StallWatchdog {
    const enabled: bool
    var token: nat
    var armed: bool

    function State(): Watchdog
      reads this
    {
      Watchdog(enabled, token, armed)
    }

    constructor (enabled: bool)
      ensures State() == Watchdog(enabled, 0, false)
    {
      this.enabled := enabled;
      token, armed := 0, false;
    }

    method Arm() returns (t: nat)
      modifies this
      ensures State() == Armed(old(State()))
      ensures t == if enabled then token else 0
    {
      if !enabled {
        return 0;
      }
      armed := false;
      token := token + 1;
      armed := true;
      return token;
    }

    method Cancel(t: nat)
      modifies this
      ensures State() == Cancelled(old(State()), t)
    {
      if !enabled || t != token {
        return;
      }
      armed := false;
      token := token + 1;
    }
  }

  class MainLoop {
    const watchdog: StallWatchdog
    var cycles: nat
    var submitted: nat
    var rejected: nat
    /** What has been done, in order, and the token of the latest arming. */
    var acts: seq<Act>
    var stallToken: nat

    function Effect(): Effects
      reads this, watchdog
    {
      Effects(Metrics(cycles, submitted, rejected), watchdog.State(), stallToken)
    }

    function State(): DispatchState
      reads this, watchdog
    {
      DispatchState(Effect(), acts)
    }

    constructor (enabled: bool)
      ensures State() == Initial(enabled) && fresh(watchdog)
    {
      watchdog := new StallWatchdog(enabled);
      cycles, submitted, rejected, acts, stallToken := 0, 0, 0, [], 0;
    }

    method CollectCandidates(r: Request) returns (candidates: seq<Sleeve>)
      ensures candidates == Candidates(r)
    {
      if !r.fusionPresent {
        return [];
      }
      var preferred := r.routed;
      if preferred.None? {
        if r.profileEnabled {
          preferred := Some(ShadowFront);
        } else {
          return [];
        }
      }
      var fallbacks := [];
      for i := 0 to |r.eligible|
        invariant fallbacks == Fallbacks(r, preferred.value, r.eligible[..i])
      {
        assert r.eligible[..i + 1][..i] == r.eligible[..i];
        if r.eligible[i] != preferred.value && Registered(r, r.eligible[i]) {
          fallbacks := fallbacks + [r.eligible[i]];
        }
      }
      assert r.eligible[..|r.eligible|] == r.eligible;
      candidates := [];
      if Registered(r, preferred.value) {
        candidates := [preferred.value];
      }
      candidates := candidates + fallbacks;
      if r.profileEnabled {
        ghost var ranked := candidates;
        for i := 0 to |REGISTRY|
          invariant candidates == AppendMissing(r, ranked, REGISTRY[..i])
        {
          assert REGISTRY[..i + 1][..i] == REGISTRY[..i];
          if Registered(r, REGISTRY[i]) && REGISTRY[i] !in candidates {
            candidates := candidates + [REGISTRY[i]];
          }
        }
        assert REGISTRY[..|REGISTRY|] == REGISTRY;
      }
    }

    /** The sleeve loop. */
    method AskSleeves(candidates: seq<Sleeve>, answer: nat -> Answer) returns (chosen: Selection)
      modifies `acts
      ensures chosen == SelectAmong(candidates, answer)
      ensures acts == old(acts) + Asks(AskedAmong(candidates, answer))
    {
      var i := 0;
      while i < |candidates|
        invariant i <= |candidates| && forall j: nat :: j < i ==> answer(j).Declined?
        invariant acts == old(acts) + Asks(candidates[..i])
      {
        assert candidates[..i + 1][..i] == candidates[..i];
        acts := acts + [Ask(candidates[i])];
        if answer(i).Produced? {
          assert FirstProducer(candidates, answer, 0) == i;
          return Chosen(Ranked(candidates[i]), answer(i).vote);
        }
        i := i + 1;
      }
      assert candidates[..i] == candidates;
      return NoSignal;
    }

    /** The object has done exactly the acts of `v`, after those in `before`. */
    ghost predicate Follows(e: Effects, before: seq<Act>, v: Progress)
      reads this, watchdog
    {
      acts == before + v.acts && Effect() == ApplyAll(e, v.acts)
    }

    /** Log an act whose effect has just happened. */
    method Note(r: Request, ghost e: Effects, ghost before: seq<Act>, ghost v: Progress, a: Act)
      requires Going(v.stage) && r.fault != At(v.stage) && a == ActAt(r, v.stage)
      requires acts == before + v.acts && Effect() == Apply(ApplyAll(e, v.acts), a)
      modifies `acts
      ensures Follows(e, before, Next(r, v)) && Exec(r, v) == Exec(r, Next(r, v))
    {
      acts := acts + [a];
      Advance(r, e, before, v, a);
    }

    /** What follows a signal with a vote; `raised` stands for an exception leaving the method at any stage. */
    method ArmAndCompile(r: Request, ghost e: Effects, ghost before: seq<Act>, ghost v: Progress, ghost end: Progress)
      returns (raised: bool)
      requires v.stage.Arming? && Follows(e, before, v) && end == Exec(r, v)
      modifies this`cycles, this`submitted, this`rejected, this`acts, this`stallToken, watchdog
      ensures raised == end.stage.Raised? && Follows(e, before, end)
    {
      if r.fault == At(Arming) {
        Stop(r, v);
        return true;
      }
      stallToken := watchdog.Arm();
      Note(r, e, before, v, Arm);
      raised := CompileVote(r, e, before, Next(r, v), end);
    }

    method CompileVote(r: Request, ghost e: Effects, ghost before: seq<Act>, ghost v: Progress, ghost end: Progress)
      returns (raised: bool)
      requires v.stage.Compiling? && Follows(e, before, v) && end == Exec(r, v)
      modifies this`cycles, this`submitted, this`rejected, this`acts, watchdog
      ensures raised == end.stage.Raised? && Follows(e, before, end)
    {
      if r.fault == At(Compiling) {
        Stop(r, v);
        return true;
      }
      Note(r, e, before, v, Compile);
      raised := CountCompile(r, e, before, Next(r, v), end);
    }

    method CountCompile(r: Request, ghost e: Effects, ghost before: seq<Act>, ghost v: Progress, ghost end: Progress)
      returns (raised: bool)
      requires v.stage.Counting? && Follows(e, before, v) && end == Exec(r, v)
      modifies this`cycles, this`submitted, this`rejected, this`acts, watchdog
      ensures raised == end.stage.Raised? && Follows(e, before, end)
    {
      if r.fault == At(Counting) {
        Stop(r, v);
        return true;
      }
      cycles := cycles + 1;
      Note(r, e, before, v, CountCycle);
      raised := Route(r, e, before, Next(r, v), end);
    }

    /** Block under an enforced frame, else submit. */
    method Route(r: Request, ghost e: Effects, ghost before: seq<Act>, ghost v: Progress, ghost end: Progress)
      returns (raised: bool)
      requires v.stage.Routing? && Follows(e, before, v) && end == Exec(r, v)
      modifies this`cycles, this`submitted, this`rejected, this`acts, watchdog
      ensures raised == end.stage.Raised? && Follows(e, before, end)
    {
      if r.fault == At(Routing) {
        Stop(r, v);
        return true;
      }
      if (r.candleTruth || r.metadataRequiresCanonical) && (r.frameStatus == "BLOCK" || r.frameOutput == "NO_TRADE") {
        rejected := rejected + 1;
        Note(r, e, before, v, Block);
        raised := CancelWatchdog(r, e, before, Next(r, v), end);
      } else {
        Note(r, e, before, v, Submit);
        raised := Book(r, e, before, Next(r, v), end);
      }
    }

    method Book(r: Request, ghost e: Effects, ghost before: seq<Act>, ghost v: Progress, ghost end: Progress)
      returns (raised: bool)
      requires v.stage.Booking? && Follows(e, before, v) && end == Exec(r, v)
      modifies this`submitted, this`rejected, this`acts, watchdog
      ensures raised == end.stage.Raised? && Follows(e, before, end)
    {
      if r.fault == At(Booking) {
        Stop(r, v);
        return true;
      }
      if r.accepted {
        submitted := submitted + 1;
        Note(r, e, before, v, Accept);
      } else {
        rejected := rejected + 1;
        Note(r, e, before, v, Refuse);
      }
      raised := CancelWatchdog(r, e, before, Next(r, v), end);
    }

    method CancelWatchdog(r: Request, ghost e: Effects, ghost before: seq<Act>, ghost v: Progress, ghost end: Progress)
      returns (raised: bool)
      requires v.stage.Cancelling? && Follows(e, before, v) && end == Exec(r, v)
      modifies this`acts, watchdog
      ensures raised == end.stage.Raised? && Follows(e, before, end)
    {
      if r.fault == At(Cancelling) {
        Stop(r, v);
        return true;
      }
      if stallToken != 0 {
        watchdog.Cancel(stallToken);
      }
      Note(r, e, before, v, Cancel);
      return false;
    }

    /** `_compile_scorecard_frame_no_submit`. */
    method CompileNoSubmitFrame(r: Request)
      modifies this`cycles, this`acts
      ensures acts == old(acts) + QuietActs(r) && Effect() == ApplyAll(old(Effect()), QuietActs(r))
    {
      if r.scorecard.Compiles? {
        cycles := cycles + 1;
        acts := acts + [CompileNoSubmit];
        ApplySnoc(old(Effect()), [], CompileNoSubmit);
        assert [] + [CompileNoSubmit] == [CompileNoSubmit];
      } else {
        assert acts == acts + [];
      }
    }

    /** `_dispatch_fusion`. */
    method DispatchFusion(r: Request) returns (raised: bool)
      modifies this`cycles, this`submitted, this`rejected, this`acts, this`stallToken, watchdog
      ensures State() == Step(old(State()), r)
      ensures raised == Raises(r)
    {
      var candidates := CollectCandidates(r);
      if candidates == [] {
        assert acts == acts + [];
        return false;
      }
      var chosen := Chosen(MovingFloor, true);
      if r.movingFloorPair {
        assert acts == acts + [];
      } else {
        chosen := AskSleeves(candidates, r.answer);
      }
      StepAfterAsking(old(State()), r);
      if chosen.NoSignal? || !chosen.vote {
        CompileNoSubmitFrame(r);
        return false;
      }
      ghost var e, before := Effect(), acts;
      assert before == before + [];
      raised := ArmAndCompile(r, e, before, BEGIN, Exec(r, BEGIN));
      ExecEnds(r);
    }
  }
}
