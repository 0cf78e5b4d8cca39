/** The validator object over many symbols, and the two health answers it gives. */
module DataValidator {
  import opened Options
  import opened Continuity
  import Text

  predicate SymbolChar(c: char) {
    'A' <= c <= 'Z' || 'a' <= c <= 'z' || '0' <= c <= '9' || c == '-' || c == '.' || c == '_' || c == '/'
  }

  /** `$` also matches before one trailing newline. */
  function WithoutNewline(s: string): string {
    if s != [] && s[|s| - 1] == '\n' then s[..|s| - 1] else s
  }

  /** The symbol pattern. */
  predicate ValidSymbol(s: string) {
    var body := WithoutNewline(s);
    body != [] && (forall i :: 0 <= i < |body| ==> SymbolChar(body[i])) && |s| <= 32
  }

  /** A symbol character is a letter, a digit or one of four marks. */
  lemma SymbolCharExactly(c: char)
    ensures SymbolChar(c)
       <==> c in Text.UPPER_LETTERS || c in Text.LOWER_LETTERS || c in "0123456789" || c in "-._/"
  {
    Text.InAlphabet(c);
    assert c in "0123456789" <==> '0' <= c <= '9';
  }

  /** `body` is one or more symbol characters. */
  predicate SymbolBody(body: string) {
    |body| > 0 && forall i :: 0 <= i < |body| ==> SymbolChar(body[i])
  }

  /** A symbol has from one to 32 characters, all of them symbol characters but for a newline that may come last. */
  lemma ValidSymbolExactly(s: string)
    ensures ValidSymbol(s)
       <==> |s| <= 32 && (SymbolBody(s) || (|s| > 1 && s[|s| - 1] == '\n' && SymbolBody(s[..|s| - 1])))
  {
    if s != [] && s[|s| - 1] == '\n' {
      assert SymbolBody(s) ==> SymbolChar(s[|s| - 1]);
      assert ValidSymbol(s) <==> |s| <= 32 && SymbolBody(s[..|s| - 1]);
    }
  }

  type States = map<string, ContinuityState>

  function StateOf(m: States, s: string): ContinuityState {
    if s in m then m[s] else FRESH
  }

  datatype Call = Call(symbol: string, event: Event)

  function StepAll(c: Limits, m: States, call: Call): States {
    if !ValidSymbol(call.symbol) then m
    else m[call.symbol := Step(c, StateOf(m, call.symbol), call.event)]
  }

  function RunAll(c: Limits, m: States, calls: seq<Call>): States {
    if calls == [] then m else StepAll(c, RunAll(c, m, calls[..|calls| - 1]), calls[|calls| - 1])
  }

  function Project(calls: seq<Call>, s: string): seq<Event> {
    if calls == [] then []
    else
      var k := |calls| - 1;
      if calls[k].symbol == s then Project(calls[..k], s) + [calls[k].event] else Project(calls[..k], s)
  }

  /** Symbols do not interfere: a symbol's state depends only on its own calls, in order. */
  lemma {:induction false} SymbolsDoNotInterfere(c: Limits, m: States, calls: seq<Call>, s: string)
    requires ValidSymbol(s)
    ensures StateOf(RunAll(c, m, calls), s) == Run(c, StateOf(m, s), Project(calls, s))
  {
    if calls != [] {
      var k := |calls| - 1;
      SymbolsDoNotInterfere(c, m, calls[..k], s);
      var before := Project(calls[..k], s);
      if calls[k].symbol == s {
        assert (before + [calls[k].event])[..|before|] == before;
      }
    }
  }

  /** Where a call of a symbol stands among that symbol's calls. */
  lemma {:induction false} ProjectAt(calls: seq<Call>, s: string, k: nat)
    requires k < |calls| && calls[k].symbol == s
    ensures var i := |Project(calls[..k], s)|;
            i < |Project(calls, s)| && Project(calls, s)[i] == calls[k].event
            && Project(calls, s)[..i] == Project(calls[..k], s)
  {
    var n := |calls| - 1;
    if k < n {
      ProjectAt(calls[..n], s, k);
      assert calls[..n][..k] == calls[..k];
    }
  }

  /** What the validator answers to call `k` of an interleaved run. */
  function AnswerAt(c: Limits, m: States, calls: seq<Call>, k: nat): Option<Verdict>
    requires k < |calls|
  {
    if calls[k].event.Check?
    then Some(Validate(c, StateOf(RunAll(c, m, calls[..k]), calls[k].symbol), calls[k].event.p).1) else None
  }

  /** The answer to a symbol's call is the one in that symbol's own run. */
  lemma AnswerIsOwn(c: Limits, m: States, calls: seq<Call>, s: string, k: nat)
    requires ValidSymbol(s) && k < |calls| && calls[k].symbol == s
    ensures var i := |Project(calls[..k], s)|;
            i < |Project(calls, s)| && AnswerAt(c, m, calls, k) == VerdictAt(c, StateOf(m, s), Project(calls, s), i)
  {
    ProjectAt(calls, s, k);
    SymbolsDoNotInterfere(c, m, calls[..k], s);
  }

  /**
   * Bounded recovery under interleaving: whatever other symbols do meanwhile, of the symbol's own calls exactly the
   * lost first ones, at most two, are rejected, and the flag falls within the bound.
   */
  lemma InterleavedRecovery(c: Limits, history: seq<Call>, calls: seq<Call>, s: string, ps: seq<Packet>)
    requires c.Valid() && ValidSymbol(s) && Project(calls, s) == Checks(ps)
    requires Steady(c, ps) && ps != []
    requires ResumesAfter(StateOf(RunAll(c, map[], history), s), ps[0])
    ensures var m := RunAll(c, map[], history);
            && Lost(c, StateOf(m, s), ps[0]) <= 2
            && (forall k :: 0 <= k < |calls| && calls[k].symbol == s ==>
                  (AnswerAt(c, m, calls, k) == Some(Accepted)
                   <==> |Project(calls[..k], s)| >= Lost(c, StateOf(m, s), ps[0])))
            && (|ps| >= 2 + c.recoveryRequired ==> !StateOf(RunAll(c, m, calls), s).gapDetected)
  {
    var m := RunAll(c, map[], history);
    ReachedInv(c, history, s);
    RecoveredFlag(c, m, calls, s, ps);
    forall k | 0 <= k < |calls| && calls[k].symbol == s
      ensures AnswerAt(c, m, calls, k) == Some(Accepted) <==> |Project(calls[..k], s)| >= Lost(c, StateOf(m, s), ps[0])
    {
      AnswerIsOwn(c, m, calls, s, k);
      RejectedOnlyAtTheStart(c, StateOf(m, s), ps, |Project(calls[..k], s)|);
    }
  }

  lemma ReachedInv(c: Limits, history: seq<Call>, s: string)
    requires c.Valid() && ValidSymbol(s)
    ensures Inv(c, StateOf(RunAll(c, map[], history), s))
  {
    SymbolsDoNotInterfere(c, map[], history, s);
    RunInv(c, FRESH, Project(history, s));
  }

  lemma RecoveredFlag(c: Limits, m: States, calls: seq<Call>, s: string, ps: seq<Packet>)
    requires c.Valid() && ValidSymbol(s) && Project(calls, s) == Checks(ps) && Steady(c, ps) && ps != []
    requires Inv(c, StateOf(m, s)) && ResumesAfter(StateOf(m, s), ps[0])
    ensures |ps| >= 2 + c.recoveryRequired ==> !StateOf(RunAll(c, m, calls), s).gapDetected
  {
    SymbolsDoNotInterfere(c, m, calls, s);
    BoundedRecovery(c, StateOf(m, s), ps);
    assert Checks(ps)[..|ps|] == Checks(ps);
  }

  /** The same for the books the runtime validates, which carry no ids. */
  lemma InterleavedBooks(c: Limits, history: seq<Call>, calls: seq<Call>, s: string, ps: seq<Packet>)
    requires c.Valid() && ValidSymbol(s) && Project(calls, s) == Checks(ps)
    requires SteadyTimes(c, ps) && ps != []
    requires NotBefore(StateOf(RunAll(c, map[], history), s).lastTimestamp, Some(ps[0].ts))
    ensures var m := RunAll(c, map[], history);
            && (forall k :: 0 <= k < |calls| && calls[k].symbol == s ==>
                  (AnswerAt(c, m, calls, k) == Some(Accepted)
                   <==> Project(calls[..k], s) != [] || InTime(c, StateOf(m, s), ps[0])))
            && (|ps| >= 1 + c.recoveryRequired ==> !StateOf(RunAll(c, m, calls), s).gapDetected)
  {
    var m := RunAll(c, map[], history);
    ReachedInv(c, history, s);
    SymbolsDoNotInterfere(c, m, calls, s);
    RecoveryWithoutIds(c, StateOf(m, s), ps);
    assert Checks(ps)[..|ps|] == Checks(ps);
    forall k | 0 <= k < |calls| && calls[k].symbol == s
      ensures AnswerAt(c, m, calls, k) == Some(Accepted)
         <==> Project(calls[..k], s) != [] || InTime(c, StateOf(m, s), ps[0])
    {
      AnswerIsOwn(c, m, calls, s, k);
    }
  }

  // ---- Health ----

  datatype HealthCode = SymbolMismatch | BackfillObserveOnly | GapActive | TimestampMissing | DataStale | Healthy

  predicate ObserveOnlySource(source: string) {
    var s := Text.Lower(if source == "" then "unknown" else source);
    s == "backfill" || s == "replay" || s == "synthetic" || s == "observe_only"
  }

  /** The reason code of `health_snapshot`; the snapshot is healthy exactly when the code is `Healthy`. */
  function HealthSnapshot(c: Limits, m: States, symbol: string, observed: Option<string>, source: string,
                          now: int): HealthCode {
    if observed.Some? && observed.value != symbol then SymbolMismatch
    else if ObserveOnlySource(source) then BackfillObserveOnly
    else if !ValidSymbol(symbol) then SymbolMismatch
    else
      var st := StateOf(m, symbol);
      if st.gapDetected then GapActive
      else if st.lastValidData.None? then TimestampMissing
      else
        var age := if now - st.lastValidData.value > 0 then now - st.lastValidData.value else 0;
        if age > c.maxStaleAge then DataStale else Healthy
  }

  /** `is_data_healthy`; `None` is the ValueError for a malformed symbol. A last-valid time of zero is falsy. */
  function IsDataHealthy(c: Limits, m: States, symbol: string, now: int): Option<bool> {
    if !ValidSymbol(symbol) then None
    else
      var st := StateOf(m, symbol);
      if st.gapDetected then Some(false)
      else
        var stale := st.lastValidData.Some? && st.lastValidData.value != 0
            && now - st.lastValidData.value > c.maxStaleAge;
        Some(!stale)
  }

  lemma ObserveOnlyExactly(source: string)
    ensures ObserveOnlySource(source)
       <==> Text.Lower(source) in {"backfill", "replay", "synthetic", "observe_only"}
  {
    if source == "" {
      assert Text.Lower(source) == "" && Text.Lower("unknown")[0] == 'u';
    }
  }

  /** The plain answer: no gap, and no last valid time, other than zero, that is too old. */
  lemma PlainHealthExactly(c: Limits, m: States, symbol: string, now: int)
    ensures IsDataHealthy(c, m, symbol, now) == None <==> !ValidSymbol(symbol)
    ensures IsDataHealthy(c, m, symbol, now) == Some(true)
       <==> ValidSymbol(symbol) && !StateOf(m, symbol).gapDetected
            && forall t :: StateOf(m, symbol).lastValidData == Some(t) && now - t > c.maxStaleAge ==> t == 0
  {
  }

  /**
   * The snapshot's reason: another symbol, a source that only observes, a malformed symbol, a gap, no time, or an old
   * one, in that order; and healthy when none applies.
   */
  lemma SnapshotExactly(c: Limits, m: States, symbol: string, observed: Option<string>, source: string, now: int)
    requires c.Valid()
    ensures var code, st := HealthSnapshot(c, m, symbol, observed, source, now), StateOf(m, symbol);
            var other := observed != None && observed != Some(symbol);
            var observes := Text.Lower(source) in {"backfill", "replay", "synthetic", "observe_only"};
            var judged := !other && !observes && ValidSymbol(symbol);
            && (code == SymbolMismatch <==> other || (!observes && !ValidSymbol(symbol)))
            && (code == BackfillObserveOnly <==> !other && observes)
            && (code == GapActive <==> judged && st.gapDetected)
            && (code == TimestampMissing <==> judged && !st.gapDetected && st.lastValidData == None)
            && (code == DataStale
                <==> judged && !st.gapDetected
                     && exists t :: st.lastValidData == Some(t) && now - t > c.maxStaleAge)
  {
    ObserveOnlyExactly(source);
  }

  /**
   * The snapshot is healthy exactly when the plain answer is, the request is for live data of this symbol, and there
   * is a fresh timestamp.
   */
  lemma SnapshotHealthyIff(c: Limits, m: States, symbol: string, observed: Option<string>, source: string, now: int)
    requires c.Valid()
    ensures HealthSnapshot(c, m, symbol, observed, source, now) == Healthy
       <==> IsDataHealthy(c, m, symbol, now) == Some(true)
            && (observed.Some? ==> observed.value == symbol) && !ObserveOnlySource(source)
            && StateOf(m, symbol).lastValidData.Some?
            && (StateOf(m, symbol).lastValidData.value == 0 ==> now <= c.maxStaleAge)
  {
  }

  /**
   * Right after an accepted packet that is not from the future, both answers at the packet's clock are what the gap
   * flag says.
   */
  lemma HealthAfterAcceptance(c: Limits, m: States, s: string, p: Packet)
    requires c.Valid() && ValidSymbol(s) && Validate(c, StateOf(m, s), p).1.Accepted?
    ensures var m' := StepAll(c, m, Call(s, Check(p)));
            && IsDataHealthy(c, m', s, p.now) == Some(!StateOf(m', s).gapDetected)
            && HealthSnapshot(c, m', s, None, "live", p.now)
               == if StateOf(m', s).gapDetected then GapActive else Healthy
  {
    assert Text.Lower("live")[0] == 'l';
  }

  /** What a call to the validator returned. */
  datatype Outcome = Returned(verdict: Verdict) | SymbolError

  class DataContinuityValidator {
    const limits: Limits
    var state: States

    constructor (limits: Limits)
      requires limits.Valid()
      ensures this.limits == limits && state == map[]
    {
      this.limits := limits;
      state := map[];
    }

    /** Every symbol but `s` keeps its state, and `s` has `st`. */
    ghost predicate Becomes(before: States, s: string, st: ContinuityState)
      reads this
    {
      forall t :: StateOf(state, t) == if t == s then st else StateOf(before, t)
    }

    method GetState(symbol: string) returns (st: Option<ContinuityState>)
      modifies this
      ensures st == if ValidSymbol(symbol) then Some(StateOf(old(state), symbol)) else None
      ensures Becomes(old(state), symbol, StateOf(old(state), symbol))
    {
      if !ValidSymbol(symbol) {
        return None;
      }
      if symbol !in state {
        state := state[symbol := FRESH];
      }
      return Some(state[symbol]);
    }

    method ValidateTimestamp(symbol: string, ts: int) returns (o: Outcome)
      modifies this
      ensures !ValidSymbol(symbol) ==> o == SymbolError && Becomes(old(state), symbol, StateOf(old(state), symbol))
      ensures ValidSymbol(symbol) ==>
                var (st, v) := CheckTimestamp(limits, StateOf(old(state), symbol), ts);
                o == Returned(v) && Becomes(old(state), symbol, st)
    {
      var found := GetState(symbol);
      if found.None? {
        return SymbolError;
      }
      var st := found.value;
      if st.lastTimestamp.Some? {
        if ts < st.lastTimestamp.value {
          return Returned(Rejected(TimestampReversal));
        }
        if ts - st.lastTimestamp.value > limits.maxTimestampGap {
          state := state[symbol := st.(gapDetected := true, gapStart := Some(ts), consecutiveGood := 0,
                                       lastTimestamp := Some(ts))];
          return Returned(Rejected(TimestampGap));
        }
      }
      state := state[symbol := st.(lastTimestamp := Some(ts))];
      return Returned(Accepted);
    }

    method ValidateSequence(symbol: string, sequenceId: Option<int>, ts: int) returns (o: Outcome)
      modifies this
      ensures !ValidSymbol(symbol) ==> o == SymbolError && Becomes(old(state), symbol, StateOf(old(state), symbol))
      ensures ValidSymbol(symbol) ==>
                var (st, v) := CheckSequence(limits, StateOf(old(state), symbol), sequenceId, ts);
                o == Returned(v) && Becomes(old(state), symbol, st)
    {
      var found := GetState(symbol);
      if found.None? {
        return SymbolError;
      }
      var st := found.value;
      if sequenceId.None? {
        return Returned(Accepted);
      }
      if sequenceId.value <= 0 {
        return Returned(Rejected(BadSequence));
      }
      if st.lastSequenceId.Some? {
        if sequenceId.value <= st.lastSequenceId.value {
          return Returned(Rejected(SequenceNotIncreasing));
        }
        if sequenceId.value - st.lastSequenceId.value > limits.maxSequenceGap {
          state := state[symbol := st.(gapDetected := true, gapStart := Some(ts), consecutiveGood := 0,
                                       lastSequenceId := sequenceId)];
          return Returned(Rejected(SequenceGap));
        }
      }
      state := state[symbol := st.(lastSequenceId := sequenceId)];
      return Returned(Accepted);
    }

    method MarkGoodPacket(symbol: string) returns (ok: bool)
      modifies this
      ensures ok == ValidSymbol(symbol)
      ensures Becomes(old(state), symbol,
                      if ok then MarkGood(limits, StateOf(old(state), symbol)) else StateOf(old(state), symbol))
    {
      var found := GetState(symbol);
      if found.None? {
        return false;
      }
      var st := found.value;
      if st.gapDetected {
        st := st.(consecutiveGood := st.consecutiveGood + 1);
        if st.consecutiveGood >= limits.recoveryRequired {
          st := st.(gapDetected := false);
        }
      } else {
        st := st.(consecutiveGood := 0);
      }
      state := state[symbol := st];
      return true;
    }

    method RecordData(symbol: string, ts: int) returns (ok: bool)
      modifies this
      ensures ok == ValidSymbol(symbol)
      ensures Becomes(old(state), symbol,
                      if ok then StateOf(old(state), symbol).(lastValidData := Some(ts))
                         else StateOf(old(state), symbol))
    {
      var found := GetState(symbol);
      if found.None? {
        return false;
      }
      state := state[symbol := found.value.(lastValidData := Some(ts))];
      return true;
    }

    /** The full pipeline; a malformed symbol surfaces only when the packet is not stale. */
    method ValidatePacket(symbol: string, p: Packet) returns (o: Outcome)
      modifies this
      ensures o == if CheckStaleness(limits, p).Rejected? then Returned(Rejected(Stale))
                   else if !ValidSymbol(symbol) then SymbolError
                   else Returned(Validate(limits, StateOf(old(state), symbol), p).1)
      ensures Becomes(old(state), symbol,
                      if ValidSymbol(symbol) then Step(limits, StateOf(old(state), symbol), Check(p))
                         else StateOf(old(state), symbol))
    {
      var stale := CheckStaleness(limits, p);
      if stale.Rejected? {
        return Returned(stale);
      }
      o := ValidateTimestamp(symbol, p.ts);
      if o.SymbolError? || o.verdict.Rejected? {
        return;
      }
      o := ValidateSequence(symbol, p.sequenceId, p.ts);
      if o.SymbolError? || o.verdict.Rejected? {
        return;
      }
      var marked := MarkGoodPacket(symbol);
      var recorded := RecordData(symbol, p.ts);
      return Returned(Accepted);
    }

    method ResetSymbol(symbol: string)
      modifies this
      ensures Becomes(old(state), symbol, FRESH)
    {
      if symbol in state {
        state := state - {symbol};
      }
    }
  }
}
