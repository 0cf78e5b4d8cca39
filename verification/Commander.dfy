/** The commander's attack switch: sequential methods and every interleaving of its lock regions. */
module Commander {
  import opened Options
  import opened Text

  const ATTACK_MODE_MAX_DRAWDOWN := 0.15

  datatype AttackState = AttackState(
    attack: bool, initialEquity: real, currentEquity: real, peakEquity: real, targetEquity: real,
    reason: string, lastToggle: Option<int>)

  /** The constructor's guards. */
  predicate ValidStart(initial: real, target: real) {
    0.0 < initial <= target
  }

  function Start(initial: real, target: real): AttackState {
    AttackState(false, initial, initial, initial, target, "", None)
  }

  predicate TargetReached(s: AttackState) { s.currentEquity >= s.targetEquity }

  /** More than 15% below the peak. */
  predicate DrawdownExceeded(s: AttackState) {
    s.peakEquity > 0.0 && (s.peakEquity - s.currentEquity) / s.peakEquity > ATTACK_MODE_MAX_DRAWDOWN
  }

  /** `_set_attack_mode` without its callbacks. */
  function SetMode(s: AttackState, enabled: bool, reason: string, ts: int): AttackState {
    if s.attack == enabled then s else s.(attack := enabled, reason := reason, lastToggle := Some(ts))
  }

  /** `update_equity`, one lock region. */
  function Update(s: AttackState, equity: real, ts: int): AttackState {
    var recorded := s.(currentEquity := equity, peakEquity := if equity > s.peakEquity then equity else s.peakEquity);
    var capped :=
      if TargetReached(recorded) && recorded.attack then SetMode(recorded, false, "target_hit", ts) else recorded;
    if capped.attack && DrawdownExceeded(capped) then SetMode(capped, false, "drawdown_protection", ts) else capped
  }

  // ---- The aggression contract ----

  datatype Veto = SafeMode | TargetEquityReached | AttackDrawdownProtection

  datatype Contract = Contract(attack: bool, executionIsAttack: bool, targetReached: bool, drawdownVeto: bool,
                               vetoes: seq<Veto>)

  function GetContract(s: AttackState): Contract {
    var drawdown := if s.peakEquity > 0.0 then (s.peakEquity - s.currentEquity) / s.peakEquity else 0.0;
    var drawdownVeto := s.attack && drawdown > ATTACK_MODE_MAX_DRAWDOWN;
    Contract(s.attack, s.attack && !TargetReached(s) && !drawdownVeto, TargetReached(s), drawdownVeto,
             (if !s.attack then [SafeMode] else []) + (if TargetReached(s) then [TargetEquityReached] else [])
             + (if drawdownVeto then [AttackDrawdownProtection] else []))
  }

  /** The current equity has fallen more than 15% below a positive peak. */
  predicate Fallen(s: AttackState) {
    s.peakEquity > 0.0 && s.currentEquity < 0.85 * s.peakEquity
  }

  lemma Quotient(x: real, p: real)
    requires p > 0.0
    ensures x / p > 0.15 <==> x > 0.15 * p
  {
    var q := x / p;
    assert q * p == x;
    if q > 0.15 {
      ProductRises(0.15, q, p);
    } else if q < 0.15 {
      ProductRises(q, 0.15, p);
    }
  }

  lemma ProductRises(a: real, b: real, p: real)
    requires a < b && p > 0.0
    ensures a * p < b * p
  {
    assert (b - a) * p > 0.0;
  }

  lemma FallenExactly(s: AttackState)
    ensures DrawdownExceeded(s) <==> Fallen(s)
  {
    if s.peakEquity > 0.0 {
      Quotient(s.peakEquity - s.currentEquity, s.peakEquity);
    }
  }

  /**
   * Execution may attack exactly in attack mode, below target and within the drawdown; and exactly then nothing
   * vetoes, each veto standing for its own reason.
   */
  lemma ContractExactly(s: AttackState)
    ensures var c := GetContract(s);
            && (c.attack <==> s.attack) && (c.targetReached <==> s.currentEquity >= s.targetEquity)
            && (c.drawdownVeto <==> s.attack && Fallen(s))
            && (c.executionIsAttack <==> s.attack && s.currentEquity < s.targetEquity && !Fallen(s))
            && (c.vetoes == [] <==> c.executionIsAttack)
            && (SafeMode in c.vetoes <==> !s.attack)
            && (TargetEquityReached in c.vetoes <==> s.currentEquity >= s.targetEquity)
            && (AttackDrawdownProtection in c.vetoes <==> s.attack && Fallen(s))
  {
    FallenExactly(s);
  }

  /** An update records the equity and takes attack mode away at the target or after a fall, the target first. */
  lemma UpdateExactly(s: AttackState, equity: real, ts: int)
    ensures var after := Update(s, equity, ts);
            var hit, fell := equity >= s.targetEquity, Fallen(after);
            && after.currentEquity == equity && after.targetEquity == s.targetEquity
            && after.initialEquity == s.initialEquity
            && after.peakEquity == (if equity <= s.peakEquity then s.peakEquity else equity)
            && (after.attack <==> s.attack && !hit && !fell)
            && (s.attack && !after.attack ==>
                  after.reason == (if hit then "target_hit" else "drawdown_protection") && after.lastToggle == Some(ts))
            && (after.attack == s.attack ==> after.reason == s.reason && after.lastToggle == s.lastToggle)
  {
    FallenExactly(Update(s, equity, ts));
  }

  // ---- Lock-level interleavings ----

  /**
   * One lock region. `enable_attack_mode` takes two: its target check, then the set; `thread` names the caller between
   * them. Every other call is one region.
   */
  datatype Region =
    | UpdateEquity(equity: real, ts: int)
    | EnableCheck(thread: nat)
    | EnableSet(thread: nat, reason: string, ts: int)
    | Disable(reason: string, ts: int)

  /** The shared state and the threads whose enable check has passed but whose set has not run. */
  datatype World = World(state: AttackState, passed: set<nat>)

  /** A thread reaches its set only after its own check passed. */
  predicate Enabled(w: World, r: Region) {
    match r
    case UpdateEquity(e, _) => e >= 0.0
    case EnableCheck(t) => t !in w.passed
    case EnableSet(t, _, _) => t in w.passed
    case Disable(_, _) => true
  }

  function Step(w: World, r: Region): World {
    match r
    case UpdateEquity(e, ts) => w.(state := Update(w.state, e, ts))
    case EnableCheck(t) => if TargetReached(w.state) then w else w.(passed := w.passed + {t})
    case EnableSet(t, reason, ts) => World(SetMode(w.state, true, reason, ts), w.passed - {t})
    case Disable(reason, ts) => w.(state := SetMode(w.state, false, reason, ts))
  }

  function Run(initial: real, target: real, rs: seq<Region>): World {
    if rs == [] then World(Start(initial, target), {}) else Step(Run(initial, target, rs[..|rs| - 1]), rs[|rs| - 1])
  }

  ghost predicate Execution(initial: real, target: real, rs: seq<Region>) {
    forall i :: 0 <= i < |rs| ==> Enabled(Run(initial, target, rs[..i]), rs[i])
  }

  lemma RunSplit(initial: real, target: real, rs: seq<Region>, n: nat)
    requires n < |rs|
    ensures Run(initial, target, rs[..n + 1]) == Step(Run(initial, target, rs[..n]), rs[n])
  {
    assert rs[..n + 1][..n] == rs[..n];
  }

  lemma ExecutionUpTo(initial: real, target: real, rs: seq<Region>, n: nat)
    requires Execution(initial, target, rs) && n <= |rs|
    ensures Execution(initial, target, rs[..n])
  {
    forall i {:trigger rs[..n][i]} | 0 <= i < n ensures Enabled(Run(initial, target, rs[..n][..i]), rs[..n][i]) {
      assert rs[..n][..i] == rs[..i];
    }
  }

  /** The initial equity and every equity reported since. */
  function Equities(initial: real, rs: seq<Region>): seq<real> {
    if rs == [] then [initial]
    else
      var before := Equities(initial, rs[..|rs| - 1]);
      if rs[|rs| - 1].UpdateEquity? then before + [rs[|rs| - 1].equity] else before
  }

  /** In every interleaving the peak is the running maximum of all equities and the current equity is the last one. */
  lemma {:induction false} PeakIsRunningMaximum(initial: real, target: real, rs: seq<Region>)
    ensures var s, es := Run(initial, target, rs).state, Equities(initial, rs);
            && es != [] && s.currentEquity == es[|es| - 1]
            && s.peakEquity in es && (forall i :: 0 <= i < |es| ==> es[i] <= s.peakEquity)
            && s.targetEquity == target
  {
    if rs != [] {
      PeakIsRunningMaximum(initial, target, rs[..|rs| - 1]);
      var before := Equities(initial, rs[..|rs| - 1]);
      if rs[|rs| - 1].UpdateEquity? {
        assert (before + [rs[|rs| - 1].equity])[|before|] == rs[|rs| - 1].equity;
      }
    }
  }

  /**
   * Right after any equity update, in any interleaving, attack mode implies below target and a drawdown of at most
   * 15%.
   */
  lemma AfterUpdateAttackIsSafe(s: AttackState, equity: real, ts: int)
    ensures var after := Update(s, equity, ts);
            after.attack ==> s.attack && after.currentEquity < after.targetEquity && !Fallen(after)
  {
    FallenExactly(Update(s, equity, ts));
  }

  /**
   * A live race: the last equity update reached the target, an enable whose check passed before that update ran its set
   * after it, and nothing has disabled attack mode since that set.
   */
  ghost predicate LiveRace(initial: real, target: real, rs: seq<Region>) {
    exists c: nat, u: nat, e: nat :: c < u < e < |rs| && IsRace(initial, target, rs, c, u, e) && NoDisableAfter(rs, e)
  }

  ghost predicate NoDisableAfter(rs: seq<Region>, e: int) {
    forall k :: e < k < |rs| && 0 <= k ==> !rs[k].Disable?
  }

  ghost predicate IsRace(initial: real, target: real, rs: seq<Region>, c: nat, u: nat, e: nat)
    requires c < u < e < |rs|
  {
    && rs[u].UpdateEquity? && TargetReached(Run(initial, target, rs[..u + 1]).state)
    && rs[e].EnableSet? && rs[c] == EnableCheck(rs[e].thread) && !TargetReached(Run(initial, target, rs[..c]).state)
    && forall k :: u < k < |rs| ==> !rs[k].UpdateEquity?
  }

  /** Position `c` is thread `t`'s check, and it passed. */
  ghost predicate PassedAt(initial: real, target: real, rs: seq<Region>, c: int, t: nat) {
    0 <= c < |rs| && rs[c] == EnableCheck(t) && !TargetReached(Run(initial, target, rs[..c]).state)
  }

  lemma PassedAtPrefix(initial: real, target: real, rs: seq<Region>, n: nat, c: int, t: nat)
    requires n <= |rs| && PassedAt(initial, target, rs[..n], c, t)
    ensures c < n && PassedAt(initial, target, rs, c, t)
  {
    assert rs[..n][..c] == rs[..c];
  }

  /** A thread whose check counts as passed has a passed check. */
  lemma {:induction false} PassedCheckExists(initial: real, target: real, rs: seq<Region>, t: nat) returns (c: int)
    requires t in Run(initial, target, rs).passed
    ensures PassedAt(initial, target, rs, c, t)
  {
    var k := |rs| - 1;
    if t in Run(initial, target, rs[..k]).passed {
      c := PassedCheckExists(initial, target, rs[..k], t);
      PassedAtPrefix(initial, target, rs, k, c, t);
    } else {
      c := k;
    }
  }

  /** Every enable set has its own thread's passed check before it. */
  lemma SetHasCheck(initial: real, target: real, rs: seq<Region>, e: nat) returns (c: int)
    requires Execution(initial, target, rs) && e < |rs| && rs[e].EnableSet?
    ensures c < e && PassedAt(initial, target, rs, c, rs[e].thread)
  {
    assert Enabled(Run(initial, target, rs[..e]), rs[e]);
    c := PassedCheckExists(initial, target, rs[..e], rs[e].thread);
    PassedAtPrefix(initial, target, rs, e, c, rs[e].thread);
  }

  lemma {:induction false} TargetFixedSince(initial: real, target: real, rs: seq<Region>, u: nat)
    requires u < |rs| && forall k :: u < k < |rs| ==> !rs[k].UpdateEquity?
    ensures TargetReached(Run(initial, target, rs).state) == TargetReached(Run(initial, target, rs[..u + 1]).state)
  {
    if u + 1 < |rs| {
      var k := |rs| - 1;
      TargetFixedSince(initial, target, rs[..k], u);
      assert rs[..k][..u + 1] == rs[..u + 1];
    } else {
      assert rs[..u + 1] == rs;
    }
  }

  /** Before any update the target is reached only if the commander started on it. */
  lemma {:induction false} NoUpdateNoChange(initial: real, target: real, rs: seq<Region>)
    requires forall k :: 0 <= k < |rs| ==> !rs[k].UpdateEquity?
    ensures Run(initial, target, rs).state.currentEquity == initial
            && Run(initial, target, rs).state.targetEquity == target
    ensures initial >= target ==> Run(initial, target, rs).passed == {}
    ensures initial >= target && Execution(initial, target, rs) ==> !Run(initial, target, rs).state.attack
  {
    if rs != [] {
      var k := |rs| - 1;
      NoUpdateNoChange(initial, target, rs[..k]);
      if Execution(initial, target, rs) {
        ExecutionUpTo(initial, target, rs, k);
        assert Enabled(Run(initial, target, rs[..k]), rs[k]);
      }
    }
  }

  lemma {:induction false} LastUpdate(rs: seq<Region>) returns (u: int)
    ensures -1 <= u < |rs|
    ensures u >= 0 ==> rs[u].UpdateEquity?
    ensures forall k :: u < k < |rs| ==> !rs[k].UpdateEquity?
  {
    u := |rs| - 1;
    while u >= 0 && !rs[u].UpdateEquity?
      invariant -1 <= u < |rs|
      invariant forall k :: u < k < |rs| ==> !rs[k].UpdateEquity?
    {
      u := u - 1;
    }
  }

  lemma UpdateIsSafe(initial: real, target: real, rs: seq<Region>, u: nat)
    requires u < |rs| && rs[u].UpdateEquity?
    ensures !(Run(initial, target, rs[..u + 1]).state.attack && TargetReached(Run(initial, target, rs[..u + 1]).state))
  {
    RunSplit(initial, target, rs, u);
    AfterUpdateAttackIsSafe(Run(initial, target, rs[..u]).state, rs[u].equity, rs[u].ts);
  }

  /**
   * When attack mode is on and the last update left the target reached, an enable set ran since, with no disable
   * after it.
   */
  lemma {:induction false} SetAfterUpdate(initial: real, target: real, rs: seq<Region>, u: nat, n: nat) returns (e: nat)
    requires u < n <= |rs| && rs[u].UpdateEquity? && forall k :: u < k < n ==> !rs[k].UpdateEquity?
    requires Run(initial, target, rs[..n]).state.attack && TargetReached(Run(initial, target, rs[..u + 1]).state)
    ensures u < e < n && rs[e].EnableSet? && NoDisableAfter(rs[..n], e)
    decreases n
  {
    UpdateIsSafe(initial, target, rs, u);
    RunSplit(initial, target, rs, n - 1);
    if rs[n - 1].EnableSet? {
      e := n - 1;
    } else {
      AttackNeedsSet(Run(initial, target, rs[..n - 1]), rs[n - 1]);
      e := SetAfterUpdate(initial, target, rs, u, n - 1);
      assert forall k :: e < k < n ==> rs[..n][k] == rs[k] && (k < n - 1 ==> rs[..n - 1][k] == rs[k]);
    }
  }

  lemma AttackNeedsSet(w: World, r: Region)
    requires Step(w, r).state.attack
    ensures r.EnableSet? || (w.state.attack && !r.Disable?)
  {
  }

  /** After the last update reached the target no new check passes. */
  lemma CheckBeforeUpdate(initial: real, target: real, rs: seq<Region>, u: nat, c: nat)
    requires u < |rs| && rs[u].UpdateEquity? && c < |rs| && rs[c].EnableCheck?
    requires forall k :: u < k < |rs| ==> !rs[k].UpdateEquity?
    requires TargetReached(Run(initial, target, rs[..u + 1]).state)
             && !TargetReached(Run(initial, target, rs[..c]).state)
    ensures c < u
  {
    if c > u {
      assert rs[..c][..u + 1] == rs[..u + 1];
      TargetFixedSince(initial, target, rs[..c], u);
    }
  }

  /** Attack mode at or above target comes from a live race. */
  lemma RaceBehindAttack(initial: real, target: real, rs: seq<Region>)
    requires ValidStart(initial, target) && Execution(initial, target, rs)
    requires Run(initial, target, rs).state.attack && TargetReached(Run(initial, target, rs).state)
    ensures LiveRace(initial, target, rs)
  {
    var u := LastUpdate(rs);
    if u < 0 {
      NoUpdateNoChange(initial, target, rs);
    } else {
      TargetFixedSince(initial, target, rs, u);
      assert rs[..|rs|] == rs;
      var e := SetAfterUpdate(initial, target, rs, u, |rs|);
      var c := SetHasCheck(initial, target, rs, e);
      CheckBeforeUpdate(initial, target, rs, u, c);
      assert IsRace(initial, target, rs, c, u, e);
    }
  }

  /** After a set, attack mode lasts while no update and no disable comes. */
  lemma {:induction false} AttackLasts(initial: real, target: real, rs: seq<Region>, e: nat, n: nat)
    requires e < n <= |rs| && rs[e].EnableSet?
    requires forall k :: e < k < n ==> !rs[k].UpdateEquity? && !rs[k].Disable?
    ensures Run(initial, target, rs[..n]).state.attack
    decreases n
  {
    RunSplit(initial, target, rs, n - 1);
    if e < n - 1 {
      AttackLasts(initial, target, rs, e, n - 1);
    }
  }

  /** In every interleaving, attack mode is on at or above target exactly when a race is live. */
  lemma AttackAboveTargetIffRace(initial: real, target: real, rs: seq<Region>)
    requires ValidStart(initial, target) && Execution(initial, target, rs)
    ensures Run(initial, target, rs).state.attack && TargetReached(Run(initial, target, rs).state)
       <==> LiveRace(initial, target, rs)
  {
    if Run(initial, target, rs).state.attack && TargetReached(Run(initial, target, rs).state) {
      RaceBehindAttack(initial, target, rs);
    }
    if LiveRace(initial, target, rs) {
      var c: nat, u: nat, e: nat :|
        c < u < e < |rs| && IsRace(initial, target, rs, c, u, e) && NoDisableAfter(rs, e);
      assert rs[..|rs|] == rs;
      AttackLasts(initial, target, rs, e, |rs|);
      TargetFixedSince(initial, target, rs, u);
    }
  }

  /** The race does happen, and the contract still refuses to attack. */
  lemma RaceHappens(initial: real, target: real, reason: string)
    requires ValidStart(initial, target) && initial < target
    ensures var rs := [EnableCheck(0), UpdateEquity(target, 1), EnableSet(0, reason, 2)];
            var s := Run(initial, target, rs).state;
            Execution(initial, target, rs) && s.attack && TargetReached(s) && !GetContract(s).executionIsAttack
  {
    var rs := [EnableCheck(0), UpdateEquity(target, 1), EnableSet(0, reason, 2)];
    var w0, w1 := World(Start(initial, target), {}), World(Start(initial, target), {0});
    var w2 := World(Update(w1.state, target, 1), {0});
    assert rs[..0] == [] && rs[..3] == rs;
    RunSplit(initial, target, rs, 0);
    RunSplit(initial, target, rs, 1);
    RunSplit(initial, target, rs, 2);
    assert Step(w0, rs[0]) == w1;
    assert Run(initial, target, rs[..2]) == w2;
    forall i {:trigger rs[i]} | 0 <= i < |rs| ensures Enabled(Run(initial, target, rs[..i]), rs[i]) {
    }
  }

  // ---- Sequential runs ----

  /** Each enable's set immediately follows its own passed check. */
  ghost predicate Sequential(rs: seq<Region>) {
    forall i :: 0 <= i < |rs| && rs[i].EnableSet? ==> i > 0 && rs[i - 1] == EnableCheck(rs[i].thread)
  }

  /** In a sequential run attack mode always means below target. */
  lemma SequentialAttackIsBelowTarget(initial: real, target: real, rs: seq<Region>)
    requires ValidStart(initial, target) && Execution(initial, target, rs) && Sequential(rs)
    ensures Run(initial, target, rs).state.attack ==> !TargetReached(Run(initial, target, rs).state)
  {
    if Run(initial, target, rs).state.attack && TargetReached(Run(initial, target, rs).state) {
      var u := LastUpdate(rs);
      if u < 0 {
        NoUpdateNoChange(initial, target, rs);
      } else {
        TargetFixedSince(initial, target, rs, u);
        assert rs[..|rs|] == rs;
        var e := SetAfterUpdate(initial, target, rs, u, |rs|);
        assert Enabled(Run(initial, target, rs[..e]), rs[e]);
        ExecutionUpTo(initial, target, rs, e);
        SequentialSetBlocked(initial, target, rs, u, e);
      }
    }
  }

  /** A set right after its check cannot run once the target is reached: the check did not pass. */
  lemma SequentialSetBlocked(initial: real, target: real, rs: seq<Region>, u: nat, e: nat)
    requires u < e < |rs| && Execution(initial, target, rs[..e]) && Sequential(rs) && rs[e].EnableSet?
    requires rs[u].UpdateEquity? && forall k :: u < k < |rs| ==> !rs[k].UpdateEquity?
    requires TargetReached(Run(initial, target, rs[..u + 1]).state)
    ensures rs[e].thread !in Run(initial, target, rs[..e]).passed
  {
    assert rs[e - 1] == EnableCheck(rs[e].thread);
    var before := rs[..e - 1];
    RunSplit(initial, target, rs, e - 1);
    assert rs[..e][..e - 1] == before;
    assert Enabled(Run(initial, target, before), rs[..e][e - 1]);
    assert before[..u + 1] == rs[..u + 1];
    TargetFixedSince(initial, target, before, u);
  }

  // ---- The object ----

  /** What a call reports: done, refused, or one of the validation errors. */
  datatype Reply = Done | Refused | InvalidEquity | InvalidTimestamp | BlankReason

  class Commander {
    var state: AttackState

    constructor (initial: real, target: real)
      requires ValidStart(initial, target)
      ensures state == Start(initial, target)
    {
      state := AttackState(false, initial, initial, initial, target, "", None);
    }

    method UpdateEquity(equity: real, ts: int) returns (r: Reply)
      modifies this
      ensures r == if equity < 0.0 then InvalidEquity else if ts <= 0 then InvalidTimestamp else Done
      ensures state == if r.Done? then Update(old(state), equity, ts) else old(state)
    {
      if equity < 0.0 {
        return InvalidEquity;
      }
      if ts <= 0 {
        return InvalidTimestamp;
      }
      state := state.(currentEquity := equity);
      if equity > state.peakEquity {
        state := state.(peakEquity := equity);
      }
      if equity >= state.targetEquity && state.attack {
        SetAttackMode(false, "target_hit", ts);
      }
      if state.attack && state.peakEquity > 0.0 {
        var drawdown := (state.peakEquity - equity) / state.peakEquity;
        if drawdown > ATTACK_MODE_MAX_DRAWDOWN {
          SetAttackMode(false, "drawdown_protection", ts);
        }
      }
      return Done;
    }

    method SetAttackMode(enabled: bool, reason: string, ts: int)
      modifies this
      ensures state == SetMode(old(state), enabled, reason, ts)
    {
      if state.attack == enabled {
        return;
      }
      state := state.(attack := enabled, reason := reason, lastToggle := Some(ts));
    }

    /** The two lock regions run back to back: check the target, then set. */
    method EnableAttackMode(reason: string, ts: int) returns (r: Reply)
      modifies this
      ensures r == if Strip(reason) == "" then BlankReason else if ts <= 0 then InvalidTimestamp
                   else if TargetReached(old(state)) then Refused else Done
      ensures state == if r.Done? then SetMode(old(state), true, Strip(reason), ts) else old(state)
    {
      if Strip(reason) == "" {
        return BlankReason;
      }
      if ts <= 0 {
        return InvalidTimestamp;
      }
      if state.currentEquity >= state.targetEquity {
        return Refused;
      }
      SetAttackMode(true, Strip(reason), ts);
      return Done;
    }

    method DisableAttackMode(reason: string, ts: int) returns (r: Reply)
      modifies this
      ensures r == if Strip(reason) == "" then BlankReason else if ts <= 0 then InvalidTimestamp else Done
      ensures state == if r.Done? then SetMode(old(state), false, Strip(reason), ts) else old(state)
    {
      if Strip(reason) == "" {
        return BlankReason;
      }
      if ts <= 0 {
        return InvalidTimestamp;
      }
      SetAttackMode(false, Strip(reason), ts);
      return Done;
    }

    /** A read-only query. */
    method GetAggressionContract(ts: int) returns (c: Option<Contract>)
      ensures c == if ts <= 0 then None else Some(GetContract(state))
    {
      if ts <= 0 {
        return None;
      }
      var targetReached := state.currentEquity >= state.targetEquity;
      var drawdown := 0.0;
      if state.peakEquity > 0.0 {
        drawdown := (state.peakEquity - state.currentEquity) / state.peakEquity;
      }
      var drawdownVeto := state.attack && drawdown > ATTACK_MODE_MAX_DRAWDOWN;
      var vetoes := [];
      if !state.attack {
        vetoes := vetoes + [SafeMode];
      }
      if targetReached {
        vetoes := vetoes + [TargetEquityReached];
      }
      if drawdownVeto {
        vetoes := vetoes + [AttackDrawdownProtection];
      }
      assert vetoes == GetContract(state).vetoes;
      var executionIsAttack := state.attack && !targetReached && !drawdownVeto;
      return Some(Contract(state.attack, executionIsAttack, targetReached, drawdownVeto, vetoes));
    }
  }
}
