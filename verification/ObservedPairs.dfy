/** Buffered (signal, vote) observations of one symbol and the two consumers that may admit them. */
module ObservedPairs {
  import opened Options
  import opened Text

  /** A strategy's signal; the strategy is free to leave out or misstate symbol and time. */
  datatype Signal = Signal(symbol: Option<string>, ts: Option<int>)

  /** The adapter's vote; an absent id is the empty string. */
  datatype Vote = Vote(symbol: Option<string>, ts: Option<int>, uuid: string)

  /** An item with the number of the observation that stored it (bookkeeping of the model, not of the source). */
  datatype Stored<T> = Stored(tag: nat, item: T)

  datatype Pair = Pair(signal: Option<Stored<Signal>>, vote: Option<Stored<Vote>>)

  const EMPTY_PAIR := Pair(None, None)

  /** What one producer call yields for one signal; no vote means the adapter raised. */
  datatype Produced = Produced(signal: Signal, vote: Option<Vote>)

  // ---- SectorRotation ----

  datatype PairCode = SignalMissing | VoteMissing | SymbolMismatch | CandleMismatch | PairStale | Ready

  function NormalizedSymbol(s: Option<string>): Option<string> {
    if s.None? || Upper(Strip(s.value)) == "" then None else Some(Upper(Strip(s.value)))
  }

  predicate SymbolsConflict(a: Option<string>, b: Option<string>) {
    a.Some? && b.Some? && a != b
  }

  function ClassifyPair(symbol: string, p: Pair, ts: int): PairCode {
    if p.signal.None? then SignalMissing
    else if p.vote.None? then VoteMissing
    else
      var s, v := p.signal.value.item, p.vote.value.item;
      var consumer := NormalizedSymbol(Some(symbol));
      if SymbolsConflict(NormalizedSymbol(s.symbol), consumer) || SymbolsConflict(NormalizedSymbol(v.symbol), consumer)
      then SymbolMismatch
      else if s.ts.None? || v.ts.None? || s.ts != v.ts then CandleMismatch
      else if s.ts.value != ts then (if s.ts.value < ts && v.ts.value < ts then PairStale else CandleMismatch)
      else Ready
  }

  /** Drop a pair all of whose timestamps are older than the candle. */
  function ClearStale(p: Pair, ts: int): Pair {
    if p.signal.None? || p.vote.None? then p
    else
      var s, v := p.signal.value.item.ts, p.vote.value.item.ts;
      if (s.None? && v.None?) || (s.Some? && s.value >= ts) || (v.Some? && v.value >= ts) then p else EMPTY_PAIR
  }

  /** `_consume_observed_pair_sector_rotation`: the pair left behind and the pair admitted. */
  function ConsumeSector(paper: bool, symbol: string, p: Pair, ts: int)
    : (Pair, Option<(Stored<Signal>, Stored<Vote>)>)
  {
    if !paper then (p, None)
    else if ClassifyPair(symbol, p, ts).Ready? then (EMPTY_PAIR, Some((p.signal.value, p.vote.value)))
    else if ClassifyPair(symbol, p, ts).PairStale? then (ClearStale(p, ts), None)
    else (p, None)
  }

  /** Store one produced signal with its vote; nothing is stored when the adapter raised. */
  function StoreOne(p: Pair, tag: nat, produced: Option<Produced>): Pair {
    if produced.None? || produced.value.vote.None? then p
    else Pair(Some(Stored(tag, produced.value.signal)), Some(Stored(tag, produced.value.vote.value)))
  }

  /** `_observe_sector_rotation`: the entry signal, then the exit signal. */
  function ObserveSector(p: Pair, tag: nat, entry: Option<Produced>, exit: Option<Produced>): Pair {
    StoreOne(StoreOne(p, tag, entry), tag + 1, exit)
  }

  // ---- LiquidityVoid ----

  datatype VoidState = VoidState(signal: Option<Signal>, vote: Option<Vote>, consumed: Option<string>)

  const EMPTY_VOID := VoidState(None, None, None)

  /** `_observe_liquidity_void`: the signal is stored before the adapter runs. */
  function ObserveVoid(st: VoidState, produced: Option<Produced>): VoidState {
    if produced.None? then st
    else
      var withSignal := st.(signal := Some(produced.value.signal));
      if produced.value.vote.None? then withSignal else withSignal.(vote := produced.value.vote)
  }

  /** Every gate of `_consume_observed_pair_liquidity_void`. */
  predicate VoidAdmissible(paper: bool, symbol: string, st: VoidState, ts: int) {
    && paper && st.signal.Some? && st.vote.Some?
    && (st.signal.value.symbol.Some? ==> st.signal.value.symbol.value == symbol)
    && st.vote.value.ts.Some? && st.vote.value.ts.value <= ts
    && st.vote.value.uuid != "" && st.consumed != Some(st.vote.value.uuid)
  }

  function ConsumeVoid(paper: bool, symbol: string, st: VoidState, ts: int): (VoidState, Option<(Signal, Vote)>) {
    if VoidAdmissible(paper, symbol, st, ts)
    then (st.(consumed := Some(st.vote.value.uuid)), Some((st.signal.value, st.vote.value)))
    else (st, None)
  }

  // ---- What the rules come to ----

  /** A half may be the consumer's: one of them has no name, or both have the same, blanks and case aside. */
  predicate MayBeFor(named: Option<string>, consumer: string) {
    || named.None? || Upper(Strip(named.value)) == "" || Upper(Strip(consumer)) == ""
    || Upper(Strip(named.value)) == Upper(Strip(consumer))
  }

  predicate NamesFit(p: Pair, consumer: string)
    requires p.signal.Some? && p.vote.Some?
  {
    MayBeFor(p.signal.value.item.symbol, consumer) && MayBeFor(p.vote.value.item.symbol, consumer)
  }

  /** The timestamps a pair carries. */
  function Stamps(p: Pair): set<int> {
    (if p.signal.Some? && p.signal.value.item.ts.Some? then {p.signal.value.item.ts.value} else {})
    + (if p.vote.Some? && p.vote.value.item.ts.Some? then {p.vote.value.item.ts.value} else {})
  }

  /** Both halves are there and carry the same timestamp. */
  predicate OneStamp(p: Pair, ts: int) {
    p.signal.Some? && p.vote.Some? && p.signal.value.item.ts == Some(ts) && p.vote.value.item.ts == Some(ts)
  }

  /** The code of a whole pair by its names and stamps; a missing half is reported first, the signal before the vote. */
  lemma ClassifiedExactly(symbol: string, p: Pair, ts: int)
    ensures var code := ClassifyPair(symbol, p, ts);
            && (code == SignalMissing <==> p.signal == None)
            && (code == VoteMissing <==> p.signal != None && p.vote == None)
            && (p.signal != None && p.vote != None ==>
                  && (code == SymbolMismatch <==> !NamesFit(p, symbol))
                  && (code == Ready <==> NamesFit(p, symbol) && OneStamp(p, ts))
                  && (code == PairStale <==> NamesFit(p, symbol) && exists t :: t < ts && OneStamp(p, t))
                  && (code == CandleMismatch
                      <==> NamesFit(p, symbol) && forall t :: OneStamp(p, t) ==> t > ts))
  {
    if p.signal.Some? && p.vote.Some? && p.signal.value.item.ts.Some? {
      assert p.vote.value.item.ts == p.signal.value.item.ts ==> OneStamp(p, p.signal.value.item.ts.value);
    }
  }

  /** A pair is dropped as stale exactly when it has a stamp and every stamp is older than the candle. */
  lemma ClearedExactly(p: Pair, ts: int)
    ensures ClearStale(p, ts)
            == if p.signal != None && p.vote != None && Stamps(p) != {} && (forall t :: t in Stamps(p) ==> t < ts)
               then EMPTY_PAIR else p
  {
    if p.signal.Some? && p.vote.Some? {
      var s, v := p.signal.value.item.ts, p.vote.value.item.ts;
      assert s.Some? ==> s.value in Stamps(p);
      assert v.Some? ==> v.value in Stamps(p);
    }
  }

  /** In paper mode a look takes a pair stamped with the candle, drops one stamped before it, and leaves any other. */
  lemma ConsumedExactly(paper: bool, symbol: string, p: Pair, ts: int)
    ensures var (left, taken) := ConsumeSector(paper, symbol, p, ts);
            var fits := paper && p.signal != None && p.vote != None && NamesFit(p, symbol);
            && (taken.Some? <==> fits && OneStamp(p, ts))
            && (taken.Some? ==> taken.value == (p.signal.value, p.vote.value))
            && left == if fits && exists t :: t <= ts && OneStamp(p, t) then EMPTY_PAIR else p
  {
    ClassifiedExactly(symbol, p, ts);
    ClearedExactly(p, ts);
  }

  // ---- The runtime object and the methods that update it ----

  datatype Sleeve = LiquidityVoid | SectorRotation | MovingFloor

  class SymbolRuntime {
    const symbol: string
    var sectorSignal: Option<Stored<Signal>>
    var sectorVote: Option<Stored<Vote>>
    var voidSignal: Option<Stored<Signal>>
    var voidVote: Option<Stored<Vote>>
    var floorSignal: Option<Stored<Signal>>
    var floorVote: Option<Stored<Vote>>
    var voidConsumed: Option<string>

    function Sector(): Pair
      reads this
    {
      Pair(sectorSignal, sectorVote)
    }

    function Floor(): Pair
      reads this
    {
      Pair(floorSignal, floorVote)
    }

    function Void(): VoidState
      reads this
    {
      VoidState(if voidSignal.Some? then Some(voidSignal.value.item) else None,
                if voidVote.Some? then Some(voidVote.value.item) else None, voidConsumed)
    }

    constructor (symbol: string)
      ensures this.symbol == symbol && Sector() == EMPTY_PAIR && Floor() == EMPTY_PAIR && Void() == EMPTY_VOID
    {
      this.symbol := symbol;
      sectorSignal, sectorVote, voidSignal, voidVote, floorSignal, floorVote := None, None, None, None, None, None;
      voidConsumed := None;
    }

    method RecordObservedSignal(sleeve: Sleeve, s: Stored<Signal>)
      modifies this
      ensures Sector() == if sleeve.SectorRotation? then old(Sector()).(signal := Some(s)) else old(Sector())
      ensures Floor() == if sleeve.MovingFloor? then old(Floor()).(signal := Some(s)) else old(Floor())
      ensures Void() == if sleeve.LiquidityVoid? then old(Void()).(signal := Some(s.item)) else old(Void())
    {
      match sleeve {
        case LiquidityVoid => voidSignal := Some(s);
        case SectorRotation => sectorSignal := Some(s);
        case MovingFloor => floorSignal := Some(s);
      }
    }

    method RecordObservedVote(sleeve: Sleeve, v: Stored<Vote>)
      modifies this
      ensures Sector() == if sleeve.SectorRotation? then old(Sector()).(vote := Some(v)) else old(Sector())
      ensures Floor() == if sleeve.MovingFloor? then old(Floor()).(vote := Some(v)) else old(Floor())
      ensures Void() == if sleeve.LiquidityVoid? then old(Void()).(vote := Some(v.item)) else old(Void())
    {
      match sleeve {
        case LiquidityVoid => voidVote := Some(v);
        case SectorRotation => sectorVote := Some(v);
        case MovingFloor => floorVote := Some(v);
      }
    }
  }

  /** The producer loop over the entry and exit signals. */
  method ObserveSectorRotation(runtime: SymbolRuntime, tag: nat, entry: Option<Produced>, exit: Option<Produced>)
    modifies runtime
    ensures runtime.Sector() == ObserveSector(old(runtime.Sector()), tag, entry, exit)
    ensures runtime.Void() == old(runtime.Void()) && runtime.Floor() == old(runtime.Floor())
  {
    var signals := [entry, exit];
    for i := 0 to 2
      invariant runtime.Void() == old(runtime.Void()) && runtime.Floor() == old(runtime.Floor())
      invariant runtime.Sector() == if i == 0 then old(runtime.Sector())
                                    else if i == 1 then StoreOne(old(runtime.Sector()), tag, entry)
                                    else ObserveSector(old(runtime.Sector()), tag, entry, exit)
    {
      if signals[i].Some? {
        var produced := signals[i].value;
        if produced.vote.Some? {
          runtime.RecordObservedSignal(SectorRotation, Stored(tag + i, produced.signal));
          runtime.RecordObservedVote(SectorRotation, Stored(tag + i, produced.vote.value));
        }
      }
    }
  }

  method ClearStaleSectorPair(runtime: SymbolRuntime, ts: int) returns (cleared: bool)
    modifies runtime
    ensures runtime.Sector() == ClearStale(old(runtime.Sector()), ts)
    ensures cleared ==> runtime.Sector() == EMPTY_PAIR
    ensures !cleared ==> runtime.Sector() == old(runtime.Sector())
    ensures runtime.Void() == old(runtime.Void()) && runtime.Floor() == old(runtime.Floor())
  {
    if runtime.sectorSignal.None? || runtime.sectorVote.None? {
      return false;
    }
    var v, s := runtime.sectorVote.value.item.ts, runtime.sectorSignal.value.item.ts;
    var stamps := (if v.Some? then [v.value] else []) + (if s.Some? then [s.value] else []);
    if stamps == [] || stamps[0] >= ts || stamps[|stamps| - 1] >= ts {
      return false;
    }
    runtime.sectorSignal := None;
    runtime.sectorVote := None;
    return true;
  }

  method ConsumeSectorRotation(paper: bool, symbol: string, runtime: SymbolRuntime, ts: int)
    returns (admitted: Option<(Stored<Signal>, Stored<Vote>)>)
    modifies runtime
    ensures (runtime.Sector(), admitted) == ConsumeSector(paper, symbol, old(runtime.Sector()), ts)
    ensures runtime.Void() == old(runtime.Void()) && runtime.Floor() == old(runtime.Floor())
  {
    if !paper {
      return None;
    }
    var code := ClassifyPair(symbol, runtime.Sector(), ts);
    if !code.Ready? {
      if code.PairStale? {
        var cleared := ClearStaleSectorPair(runtime, ts);
      }
      return None;
    }
    admitted := Some((runtime.sectorSignal.value, runtime.sectorVote.value));
    runtime.sectorSignal := None;
    runtime.sectorVote := None;
  }

  method ObserveLiquidityVoid(runtime: SymbolRuntime, tag: nat, produced: Option<Produced>)
    modifies runtime
    ensures runtime.Void() == ObserveVoid(old(runtime.Void()), produced)
    ensures runtime.Sector() == old(runtime.Sector()) && runtime.Floor() == old(runtime.Floor())
  {
    if produced.None? {
      return;
    }
    runtime.RecordObservedSignal(LiquidityVoid, Stored(tag, produced.value.signal));
    if produced.value.vote.None? {
      return;
    }
    runtime.RecordObservedVote(LiquidityVoid, Stored(tag, produced.value.vote.value));
  }

  method ConsumeLiquidityVoid(paper: bool, symbol: string, runtime: SymbolRuntime, ts: int)
    returns (admitted: Option<(Signal, Vote)>)
    modifies runtime
    ensures (runtime.Void(), admitted) == ConsumeVoid(paper, symbol, old(runtime.Void()), ts)
    ensures runtime.Sector() == old(runtime.Sector()) && runtime.Floor() == old(runtime.Floor())
  {
    if !paper || runtime.voidSignal.None? || runtime.voidVote.None? {
      return None;
    }
    var s, v := runtime.voidSignal.value.item, runtime.voidVote.value.item;
    if s.symbol.Some? && s.symbol.value != symbol {
      return None;
    }
    if v.ts.None? || v.ts.value > ts {
      return None;
    }
    if v.uuid == "" || runtime.voidConsumed == Some(v.uuid) {
      return None;
    }
    runtime.voidConsumed := Some(v.uuid);
    return Some((s, v));
  }
}
