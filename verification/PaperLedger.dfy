/** The simulated portfolio of the paper trader: cash, fees, positions and marked equity over any run of trades. */
module PaperLedger {
  import opened Options

  datatype Position = Position(symbol: string, quantity: real, avgPrice: real, totalCost: real)

  datatype Trade = Trade(symbol: string, side: string, size: real, price: real, fees: real)

  /** The positions dictionary keeps insertion order. */
  datatype Ledger = Ledger(cash: real, feesPaid: real, equity: real, positions: seq<Position>)

  type Mark = string -> real

  predicate IsBuy(t: Trade) { t.side == "buy" }

  function Notional(t: Trade): real { t.size * t.price }

  function IndexOf(ps: seq<Position>, symbol: string): (i: nat)
    ensures i <= |ps|
    ensures i < |ps| ==> ps[i].symbol == symbol
    ensures forall j :: 0 <= j < i ==> ps[j].symbol != symbol
  {
    if ps == [] then 0 else if ps[0].symbol == symbol then 0 else 1 + IndexOf(ps[1..], symbol)
  }

  function Entry(ps: seq<Position>, symbol: string): Option<Position> {
    var i := IndexOf(ps, symbol);
    if i < |ps| then Some(ps[i]) else None
  }

  /** The quantity held, zero when the symbol has no position. */
  function Held(ps: seq<Position>, symbol: string): real {
    if Entry(ps, symbol).Some? then Entry(ps, symbol).value.quantity else 0.0
  }

  function Without(ps: seq<Position>, i: nat): seq<Position>
    requires i < |ps|
  {
    ps[..i] + ps[i + 1..]
  }

  function Bought(p: Position, t: Trade): Position
    requires p.quantity + t.size != 0.0
  {
    var quantity := p.quantity + t.size;
    var cost := p.totalCost + Notional(t) + t.fees;
    p.(quantity := quantity, avgPrice := cost / quantity, totalCost := cost)
  }

  function Sold(ps: seq<Position>, i: nat, t: Trade): seq<Position>
    requires i < |ps|
  {
    var p := ps[i].(quantity := ps[i].quantity - t.size);
    if p.quantity <= 0.0 then Without(ps, i) else ps[i := p]
  }

  /** A buy that brings a held quantity to zero divides by it. */
  predicate Raises(ps: seq<Position>, t: Trade) {
    var i := IndexOf(ps, t.symbol);
    IsBuy(t) && i < |ps| && ps[i].quantity + t.size == 0.0
  }

  /** A call raises exactly when a buy brings what is held of the symbol to zero; sales never do. */
  lemma RaisesExactly(ps: seq<Position>, t: Trade)
    ensures Raises(ps, t) <==> t.side == "buy" && exists p :: Entry(ps, t.symbol) == Some(p) && p.quantity == -t.size
  {
  }

  function PositionsAfter(ps: seq<Position>, t: Trade): seq<Position> {
    var i := IndexOf(ps, t.symbol);
    if !IsBuy(t) then (if i < |ps| then Sold(ps, i, t) else ps)
    else if i == |ps| then ps + [Position(t.symbol, t.size, t.price, Notional(t) + t.fees)]
    else if ps[i].quantity + t.size == 0.0 then ps[i := ps[i].(quantity := 0.0)]
    else ps[i := Bought(ps[i], t)]
  }

  function CashAfter(cash: real, t: Trade): real {
    if IsBuy(t) then cash - (Notional(t) + t.fees) else cash + (Notional(t) - t.fees)
  }

  function Worth(mark: Mark): Position -> real {
    (p: Position) => p.quantity * mark(p.symbol)
  }

  function Total(ps: seq<Position>, worth: Position -> real): real {
    if ps == [] then 0.0 else Total(ps[..|ps| - 1], worth) + worth(ps[|ps| - 1])
  }

  /** What the positions are worth at the given prices. */
  function Value(ps: seq<Position>, mark: Mark): real {
    Total(ps, Worth(mark))
  }

  /** One call: a raise leaves fees and equity as they were, after cash and quantity have changed. */
  function Step(l: Ledger, t: Trade, mark: Mark): Ledger {
    var cash, ps := CashAfter(l.cash, t), PositionsAfter(l.positions, t);
    if Raises(l.positions, t) then l.(cash := cash, positions := ps)
    else Ledger(cash, l.feesPaid + t.fees, cash + Value(ps, mark), ps)
  }

  function Open(capital: real): Ledger { Ledger(capital, 0.0, capital, []) }

  /** A run: every trade comes with the prices its revaluation saw. */
  function Run(capital: real, ts: seq<(Trade, Mark)>): Ledger {
    if ts == [] then Open(capital)
    else
      var k := |ts| - 1;
      Step(Run(capital, ts[..k]), ts[k].0, ts[k].1)
  }

  // ---- Conservation of cash ----

  function BuyNotional(ts: seq<(Trade, Mark)>): real {
    if ts == [] then 0.0
    else BuyNotional(ts[..|ts| - 1]) + (if ts[|ts| - 1].0.side == "buy" then Notional(ts[|ts| - 1].0) else 0.0)
  }

  function SellNotional(ts: seq<(Trade, Mark)>): real {
    if ts == [] then 0.0
    else SellNotional(ts[..|ts| - 1]) + (if ts[|ts| - 1].0.side == "buy" then 0.0 else Notional(ts[|ts| - 1].0))
  }

  /** Fees of the calls that raised: taken from cash, never booked. */
  function UnbookedFees(capital: real, ts: seq<(Trade, Mark)>): real {
    if ts == [] then 0.0
    else
      var k := |ts| - 1;
      UnbookedFees(capital, ts[..k])
      + (if Raises(Run(capital, ts[..k]).positions, ts[k].0) then ts[k].0.fees else 0.0)
  }

  /** In every run cash is the capital, less what was bought, plus what was sold, less the fees, booked or not. */
  lemma {:induction false} CashIsConserved(capital: real, ts: seq<(Trade, Mark)>)
    ensures var l := Run(capital, ts);
            l.cash == capital - BuyNotional(ts) + SellNotional(ts) - l.feesPaid - UnbookedFees(capital, ts)
  {
    if ts != [] {
      CashIsConserved(capital, ts[..|ts| - 1]);
    }
  }

  // ---- Holdings ----

  ghost predicate Positive(ps: seq<Position>) {
    forall i :: 0 <= i < |ps| ==> ps[i].quantity > 0.0
  }

  ghost predicate OnePerSymbol(ps: seq<Position>) {
    forall i, j :: 0 <= i < j < |ps| ==> ps[i].symbol != ps[j].symbol
  }

  ghost predicate PositiveSizes(ts: seq<(Trade, Mark)>) {
    forall i :: 0 <= i < |ts| ==> ts[i].0.size > 0.0
  }

  lemma ReplaceKeeps(ps: seq<Position>, i: nat, p: Position)
    requires OnePerSymbol(ps) && i < |ps| && p.symbol == ps[i].symbol
    ensures OnePerSymbol(ps[i := p])
    ensures Positive(ps) && p.quantity > 0.0 ==> Positive(ps[i := p])
  {
  }

  lemma WithoutKeeps(ps: seq<Position>, i: nat)
    requires OnePerSymbol(ps) && i < |ps|
    ensures OnePerSymbol(Without(ps, i))
    ensures Positive(ps) ==> Positive(Without(ps, i))
    ensures forall j :: 0 <= j < |Without(ps, i)| ==> Without(ps, i)[j].symbol != ps[i].symbol
  {
  }

  lemma AppendKeeps(ps: seq<Position>, p: Position)
    requires OnePerSymbol(ps) && forall j :: 0 <= j < |ps| ==> ps[j].symbol != p.symbol
    ensures OnePerSymbol(ps + [p])
    ensures Positive(ps) && p.quantity > 0.0 ==> Positive(ps + [p])
  {
  }

  lemma StepKeepsHoldings(ps: seq<Position>, t: Trade)
    requires OnePerSymbol(ps)
    ensures OnePerSymbol(PositionsAfter(ps, t))
    ensures Positive(ps) && t.size > 0.0 ==> Positive(PositionsAfter(ps, t)) && !Raises(ps, t)
  {
    var i := IndexOf(ps, t.symbol);
    if i == |ps| {
      if IsBuy(t) {
        AppendKeeps(ps, PositionsAfter(ps, t)[i]);
      }
    } else if !IsBuy(t) && ps[i].quantity - t.size <= 0.0 {
      WithoutKeeps(ps, i);
    } else {
      ReplaceKeeps(ps, i, PositionsAfter(ps, t)[i]);
    }
  }

  /** The reference: buys add to a symbol's quantity, sells take from it and never below zero. */
  function Net(ts: seq<(Trade, Mark)>, symbol: string): real {
    if ts == [] then 0.0
    else
      var before, t := Net(ts[..|ts| - 1], symbol), ts[|ts| - 1].0;
      if t.symbol != symbol then before
      else if t.side == "buy" then before + t.size
      else if before > t.size then before - t.size else 0.0
  }

  lemma UniqueIndex(ps: seq<Position>, i: nat)
    requires OnePerSymbol(ps) && i < |ps|
    ensures IndexOf(ps, ps[i].symbol) == i
  {
    assert ps[IndexOf(ps, ps[i].symbol)].symbol == ps[i].symbol;
  }

  lemma AbsentIndex(ps: seq<Position>, symbol: string)
    requires forall i :: 0 <= i < |ps| ==> ps[i].symbol != symbol
    ensures IndexOf(ps, symbol) == |ps|
  {
  }

  /** A trade leaves every other symbol's position alone. */
  lemma OtherEntry(ps: seq<Position>, t: Trade, symbol: string)
    requires OnePerSymbol(ps) && t.symbol != symbol
    ensures Entry(PositionsAfter(ps, t), symbol) == Entry(ps, symbol)
  {
    StepKeepsHoldings(ps, t);
    var after := PositionsAfter(ps, t);
    var i, k := IndexOf(ps, symbol), IndexOf(ps, t.symbol);
    if i < |ps| {
      var at := if !IsBuy(t) && k < |ps| && ps[k].quantity - t.size <= 0.0 && k < i then i - 1 else i;
      assert after[at] == ps[i];
      UniqueIndex(after, at);
    } else {
      AbsentIndex(after, symbol);
    }
  }

  /** A sale closes its symbol's position or takes from its quantity alone. */
  lemma SoldEntry(ps: seq<Position>, t: Trade)
    requires OnePerSymbol(ps) && !IsBuy(t)
    ensures Entry(PositionsAfter(ps, t), t.symbol)
            == if Entry(ps, t.symbol).None? || Entry(ps, t.symbol).value.quantity <= t.size then None
               else Some(Entry(ps, t.symbol).value.(quantity := Entry(ps, t.symbol).value.quantity - t.size))
  {
    StepKeepsHoldings(ps, t);
    var after := PositionsAfter(ps, t);
    var i := IndexOf(ps, t.symbol);
    if i < |ps| {
      if ps[i].quantity - t.size <= 0.0 {
        AbsentIndex(after, t.symbol);
      } else {
        UniqueIndex(after, i);
      }
    }
  }

  /** A buy opens its symbol's position at its own price, or tops it up. */
  lemma BoughtEntry(ps: seq<Position>, t: Trade)
    requires OnePerSymbol(ps) && IsBuy(t) && !Raises(ps, t)
    ensures Entry(PositionsAfter(ps, t), t.symbol)
            == Some(if Entry(ps, t.symbol).None? then Position(t.symbol, t.size, t.price, Notional(t) + t.fees)
                    else Bought(Entry(ps, t.symbol).value, t))
  {
    StepKeepsHoldings(ps, t);
    UniqueIndex(PositionsAfter(ps, t), IndexOf(ps, t.symbol));
  }

  /** A trade changes the held quantity of its own symbol as the reference says, and of no other. */
  lemma HeldAfter(ps: seq<Position>, t: Trade, symbol: string)
    requires OnePerSymbol(ps) && Positive(ps) && t.size > 0.0
    ensures Held(PositionsAfter(ps, t), symbol)
            == if t.symbol != symbol then Held(ps, symbol)
               else if IsBuy(t) then Held(ps, symbol) + t.size
               else if Held(ps, symbol) > t.size then Held(ps, symbol) - t.size else 0.0
  {
    if t.symbol != symbol {
      OtherEntry(ps, t, symbol);
    } else if IsBuy(t) {
      BoughtEntry(ps, t);
    } else {
      SoldEntry(ps, t);
    }
  }

  /**
   * With positive sizes no call raises, held quantities stay positive, and each equals its symbol's own clamped net
   * flow.
   */
  lemma {:induction false} HoldingsAreNetFlows(capital: real, ts: seq<(Trade, Mark)>)
    requires PositiveSizes(ts)
    ensures var l := Run(capital, ts);
            && OnePerSymbol(l.positions) && Positive(l.positions)
            && UnbookedFees(capital, ts) == 0.0
            && forall symbol :: Held(l.positions, symbol) == Net(ts, symbol)
  {
    if ts != [] {
      var k := |ts| - 1;
      HoldingsAreNetFlows(capital, ts[..k]);
      var ps := Run(capital, ts[..k]).positions;
      assert ts[k].0.size > 0.0;
      StepKeepsHoldings(ps, ts[k].0);
      forall symbol ensures Held(PositionsAfter(ps, ts[k].0), symbol) == Net(ts, symbol) {
        HeldAfter(ps, ts[k].0, symbol);
      }
    }
  }

  /** So with positive sizes cash obeys the plain conservation law in every run. */
  lemma PlainConservation(capital: real, ts: seq<(Trade, Mark)>)
    requires PositiveSizes(ts)
    ensures Run(capital, ts).cash == capital - BuyNotional(ts) + SellNotional(ts) - Run(capital, ts).feesPaid
  {
    CashIsConserved(capital, ts);
    HoldingsAreNetFlows(capital, ts);
  }

  // ---- Cost ----

  function CostOf(ps: seq<Position>, symbol: string): real {
    if Entry(ps, symbol).Some? then Entry(ps, symbol).value.totalCost else 0.0
  }

  /** The reference: what was spent on a symbol, with fees, since it was last flat. Sells give nothing back. */
  function Spent(ts: seq<(Trade, Mark)>, symbol: string): real {
    if ts == [] then 0.0
    else
      var before, t := Spent(ts[..|ts| - 1], symbol), ts[|ts| - 1].0;
      if t.symbol != symbol then before
      else if t.side == "buy" then before + Notional(t) + t.fees
      else if Net(ts[..|ts| - 1], symbol) > t.size then before else 0.0
  }

  lemma CostAfter(ps: seq<Position>, t: Trade, symbol: string)
    requires OnePerSymbol(ps) && Positive(ps) && t.size > 0.0
    ensures CostOf(PositionsAfter(ps, t), symbol)
            == if t.symbol != symbol then CostOf(ps, symbol)
               else if IsBuy(t) then CostOf(ps, symbol) + Notional(t) + t.fees
               else if Held(ps, symbol) > t.size then CostOf(ps, symbol) else 0.0
  {
    if t.symbol != symbol {
      OtherEntry(ps, t, symbol);
    } else if IsBuy(t) {
      BoughtEntry(ps, t);
    } else {
      SoldEntry(ps, t);
    }
  }

  /**
   * In every run of positive sizes a position's total cost is all that was spent on it since the symbol was last
   * flat.
   */
  lemma {:induction false} CostIsSpent(capital: real, ts: seq<(Trade, Mark)>, symbol: string)
    requires PositiveSizes(ts)
    ensures CostOf(Run(capital, ts).positions, symbol) == Spent(ts, symbol)
  {
    if ts != [] {
      var k := |ts| - 1;
      CostIsSpent(capital, ts[..k], symbol);
      HoldingsAreNetFlows(capital, ts[..k]);
      assert ts[k].0.size > 0.0;
      CostAfter(Run(capital, ts[..k]).positions, ts[k].0, symbol);
    }
  }

  /**
   * The topped-up position averages what was spent before and by this buy over what was held before and is bought
   * now.
   */
  ghost predicate AveragesOver(p: Option<Position>, t: Trade, spent: real, held: real) {
    && held + t.size != 0.0 && p.Some? && p.value.quantity == held + t.size
    && p.value.avgPrice == (spent + Notional(t) + t.fees) / (held + t.size)
  }

  lemma ToppedUp(l: Ledger, t: Trade, mark: Mark, spent: real, held: real)
    requires OnePerSymbol(l.positions) && IsBuy(t) && t.size > 0.0
    requires held == Held(l.positions, t.symbol) > 0.0 && spent == CostOf(l.positions, t.symbol)
    ensures AveragesOver(Entry(Step(l, t, mark).positions, t.symbol), t, spent, held)
  {
    BoughtEntry(l.positions, t);
  }

  lemma HoldingAndCost(capital: real, ts: seq<(Trade, Mark)>, symbol: string)
    requires PositiveSizes(ts)
    ensures OnePerSymbol(Run(capital, ts).positions)
    ensures Held(Run(capital, ts).positions, symbol) == Net(ts, symbol)
    ensures CostOf(Run(capital, ts).positions, symbol) == Spent(ts, symbol)
  {
    HoldingsAreNetFlows(capital, ts);
    CostIsSpent(capital, ts, symbol);
  }

  /**
   * So a top-up averages everything spent since the symbol was last flat over what is now held. With no sale in between
   * this is the mean cost of the held units; after a partial sale it is more.
   */
  lemma TopUpAverage(capital: real, ts: seq<(Trade, Mark)>, t: Trade, mark: Mark)
    requires PositiveSizes(ts) && IsBuy(t) && t.size > 0.0 && Net(ts, t.symbol) > 0.0
    ensures AveragesOver(Entry(Step(Run(capital, ts), t, mark).positions, t.symbol), t, Spent(ts, t.symbol),
                         Net(ts, t.symbol))
  {
    HoldingAndCost(capital, ts, t.symbol);
    ToppedUp(Run(capital, ts), t, mark, Spent(ts, t.symbol), Net(ts, t.symbol));
  }

  // ---- Equity ----

  lemma {:induction false} TotalConcat(a: seq<Position>, b: seq<Position>, worth: Position -> real)
    ensures Total(a + b, worth) == Total(a, worth) + Total(b, worth)
  {
    if b == [] {
      assert a + b == a;
    } else {
      TotalConcat(a, b[..|b| - 1], worth);
      assert (a + b)[..|a + b| - 1] == a + b[..|b| - 1];
    }
  }

  lemma TotalOfThree(a: seq<Position>, p: Position, b: seq<Position>, worth: Position -> real)
    ensures Total(a + [p] + b, worth) == Total(a, worth) + worth(p) + Total(b, worth)
  {
    TotalConcat(a + [p], b, worth);
    assert (a + [p])[..|a|] == a;
  }

  /** One position's share of the total. */
  lemma TotalAt(ps: seq<Position>, i: nat, worth: Position -> real)
    requires i < |ps|
    ensures Total(ps, worth) == Total(Without(ps, i), worth) + worth(ps[i])
  {
    var a, b := ps[..i], ps[i + 1..];
    SplitAt(ps, i, a, b);
    TotalConcat(a, b, worth);
    TotalOfThree(a, ps[i], b, worth);
  }

  lemma SplitAt(ps: seq<Position>, i: nat, a: seq<Position>, b: seq<Position>)
    requires i < |ps| && a == ps[..i] && b == ps[i + 1..]
    ensures ps == a + [ps[i]] + b
  {
  }

  lemma TotalReplace(ps: seq<Position>, i: nat, p: Position, worth: Position -> real)
    requires i < |ps|
    ensures Total(ps[i := p], worth) == Total(ps, worth) + worth(p) - worth(ps[i])
  {
    TotalAt(ps, i, worth);
    TotalAt(ps[i := p], i, worth);
    assert Without(ps[i := p], i) == Without(ps, i);
  }

  lemma Cancel(x: real, y: real, m: real)
    requires y == -x
    ensures y * m == -(x * m)
  {
  }

  lemma Distribute(x: real, y: real, m: real)
    ensures (x + y) * m == x * m + y * m
  {
  }

  /** What a sell books beyond what is held: all of it with no position, the overshoot when the position closes. */
  function Excess(ps: seq<Position>, t: Trade): real {
    var i := IndexOf(ps, t.symbol);
    if IsBuy(t) then 0.0
    else if i == |ps| then t.size
    else if ps[i].quantity - t.size <= 0.0 then t.size - ps[i].quantity
    else 0.0
  }

  /** The quantity a trade adds to the book, up to the excess. */
  function Added(ps: seq<Position>, t: Trade): real {
    if IsBuy(t) then t.size else Excess(ps, t) - t.size
  }

  lemma OpenedValue(ps: seq<Position>, p: Position, mark: Mark, price: real, added: real, rise: real)
    requires rise == added * price
    requires price == mark(p.symbol) && added == p.quantity
    ensures Value(ps + [p], mark) == Value(ps, mark) + rise
  {
    assert (ps + [p])[..|ps|] == ps;
  }

  lemma ClosedValue(ps: seq<Position>, i: nat, mark: Mark, price: real, added: real, rise: real)
    requires rise == added * price
    requires i < |ps| && price == mark(ps[i].symbol) && added == -ps[i].quantity
    ensures Value(Without(ps, i), mark) == Value(ps, mark) + rise
  {
    TotalAt(ps, i, Worth(mark));
    Cancel(ps[i].quantity, added, price);
  }

  lemma ReplacedValue(ps: seq<Position>, i: nat, p: Position, mark: Mark, price: real, added: real, rise: real)
    requires rise == added * price
    requires i < |ps| && p.symbol == ps[i].symbol && price == mark(p.symbol) && p.quantity == ps[i].quantity + added
    ensures Value(ps[i := p], mark) == Value(ps, mark) + rise
  {
    TotalReplace(ps, i, p, Worth(mark));
    Distribute(ps[i].quantity, added, price);
  }

  lemma ValueAfter(ps: seq<Position>, t: Trade, mark: Mark, price: real, added: real, rise: real)
    requires rise == added * price
    requires !Raises(ps, t) && price == mark(t.symbol) && added == Added(ps, t)
    ensures Value(PositionsAfter(ps, t), mark) == Value(ps, mark) + rise
  {
    var i := IndexOf(ps, t.symbol);
    if i == |ps| {
      if IsBuy(t) {
        OpenedValue(ps, Position(t.symbol, t.size, t.price, Notional(t) + t.fees), mark, price, added, rise);
      } else {
        assert added == 0.0;
      }
    } else if !IsBuy(t) && ps[i].quantity - t.size <= 0.0 {
      ClosedValue(ps, i, mark, price, added, rise);
    } else {
      ReplacedValue(ps, i, PositionsAfter(ps, t)[i], mark, price, added, rise);
    }
  }

  /** Equity recomputed at fixed prices. */
  function EquityAt(l: Ledger, mark: Mark): real { l.cash + Value(l.positions, mark) }

  lemma StepEquity(l: Ledger, t: Trade, mark: Mark)
    requires !Raises(l.positions, t)
    ensures EquityAt(Step(l, t, mark), mark) == CashAfter(l.cash, t) + Value(PositionsAfter(l.positions, t), mark)
    ensures Step(l, t, mark).equity == EquityAt(Step(l, t, mark), mark)
  {
  }

  /** Settling on plain amounts: what cash pays for, the positions gain, up to the excess. */
  lemma Settle(t: Trade, cash: real, rise: real, gain: real)
    requires IsBuy(t) ==> rise == Notional(t) && gain == 0.0
    requires !IsBuy(t) ==> rise == gain - Notional(t)
    ensures CashAfter(cash, t) + rise == cash + gain - t.fees
  {
  }

  lemma Rise(t: Trade, excess: real, added: real) returns (rise: real, gain: real)
    requires if IsBuy(t) then excess == 0.0 && added == t.size else added == excess - t.size
    ensures rise == added * t.price && gain == excess * t.price
    ensures if IsBuy(t) then rise == Notional(t) && gain == 0.0 else rise == gain - Notional(t)
  {
    rise, gain := added * t.price, excess * t.price;
    if !IsBuy(t) {
      Distribute(excess, -t.size, t.price);
    }
  }

  lemma ValueRise(ps: seq<Position>, t: Trade, mark: Mark) returns (rise: real, gain: real)
    requires !Raises(ps, t) && t.price == mark(t.symbol)
    ensures gain == Excess(ps, t) * t.price
    ensures if IsBuy(t) then rise == Notional(t) && gain == 0.0 else rise == gain - Notional(t)
    ensures Value(PositionsAfter(ps, t), mark) == Value(ps, mark) + rise
  {
    rise, gain := Rise(t, Excess(ps, t), Added(ps, t));
    ValueAfter(ps, t, mark, t.price, Added(ps, t), rise);
  }

  lemma MoveBy(l: Ledger, t: Trade, mark: Mark) returns (gain: real)
    requires !Raises(l.positions, t) && t.price == mark(t.symbol)
    ensures gain == Excess(l.positions, t) * t.price
    ensures EquityAt(Step(l, t, mark), mark) == EquityAt(l, mark) + gain - t.fees
  {
    var rise: real;
    rise, gain := ValueRise(l.positions, t, mark);
    Settle(t, l.cash, rise, gain);
    StepEquity(l, t, mark);
  }

  /** A trade at the mark moves recomputed equity by its excess at the mark, less the fee. */
  lemma EquityMove(l: Ledger, t: Trade, mark: Mark)
    requires !Raises(l.positions, t) && t.price == mark(t.symbol)
    ensures Step(l, t, mark).equity == EquityAt(Step(l, t, mark), mark)
    ensures EquityAt(Step(l, t, mark), mark) == EquityAt(l, mark) + Excess(l.positions, t) * t.price - t.fees
  {
    StepEquity(l, t, mark);
    var gain := MoveBy(l, t, mark);
  }

  lemma OnlyTheFee(l: Ledger, t: Trade, mark: Mark)
    requires !Raises(l.positions, t) && t.price == mark(t.symbol) && Excess(l.positions, t) == 0.0
    ensures Step(l, t, mark).equity == EquityAt(Step(l, t, mark), mark) == EquityAt(l, mark) - t.fees
  {
    StepEquity(l, t, mark);
    var gain := MoveBy(l, t, mark);
  }

  /** So it moves by exactly the fee just when a sell does not exceed the holding, at any nonzero price. */
  lemma OnlyTheFeeIff(l: Ledger, t: Trade, mark: Mark)
    requires !Raises(l.positions, t) && t.price == mark(t.symbol) && t.price != 0.0
    requires Positive(l.positions) && t.size > 0.0
    ensures EquityAt(Step(l, t, mark), mark) == EquityAt(l, mark) - t.fees
            <==> IsBuy(t) || t.size <= Held(l.positions, t.symbol)
  {
    if IsBuy(t) || t.size <= Held(l.positions, t.symbol) {
      OnlyTheFee(l, t, mark);
    } else {
      var gain := MoveBy(l, t, mark);
      NonzeroProduct(Excess(l.positions, t), t.price);
    }
  }

  lemma NonzeroProduct(x: real, y: real)
    requires x != 0.0 && y != 0.0
    ensures x * y != 0.0
  {
  }

  /** Selling more than is held prints money: from an empty book a sale at the mark raises equity. */
  lemma OversellingCreatesEquity(capital: real, symbol: string, size: real, price: real)
    requires size > 0.0 && price > 0.0
    ensures Run(capital, [(Trade(symbol, "sell", size, price, 0.0), (s: string) => price)]).equity > capital
  {
    var t, mark := Trade(symbol, "sell", size, price, 0.0), (s: string) => price;
    assert [(t, mark)][..0] == [];
    var gain := MoveBy(Open(capital), t, mark);
    NonzeroProduct(size, price);
  }

  /** Every trade is at the fixed mark and no sell exceeds the net flow before it. */
  ghost predicate CoveredAtMark(ts: seq<(Trade, Mark)>, mark: Mark) {
    forall i :: 0 <= i < |ts| ==>
      && ts[i].1 == mark && ts[i].0.size > 0.0 && ts[i].0.price == mark(ts[i].0.symbol)
      && (IsBuy(ts[i].0) || ts[i].0.size <= Net(ts[..i], ts[i].0.symbol))
  }

  /** In a covered run at fixed prices, equity is the capital less the fees paid, after every trade. */
  lemma {:induction false} CoveredRunLosesOnlyFees(capital: real, ts: seq<(Trade, Mark)>, mark: Mark)
    requires CoveredAtMark(ts, mark)
    ensures Run(capital, ts).equity == EquityAt(Run(capital, ts), mark) == capital - Run(capital, ts).feesPaid
  {
    if ts != [] {
      var k := |ts| - 1;
      var l, t := Run(capital, ts[..k]), ts[k].0;
      assert forall i :: 0 <= i < k ==> ts[..k][i] == ts[i] && ts[..k][..i] == ts[..i];
      CoveredRunLosesOnlyFees(capital, ts[..k], mark);
      HoldingsAreNetFlows(capital, ts[..k]);
      StepKeepsHoldings(l.positions, t);
      assert ts[k].1 == mark;
      assert Held(l.positions, t.symbol) == Net(ts[..k], t.symbol);
      OnlyTheFee(l, t, mark);
    }
  }

  class PaperTrader {
    var cash: real
    var feesPaid: real
    var equity: real
    var positions: seq<Position>

    function State(): Ledger
      reads this
    {
      Ledger(cash, feesPaid, equity, positions)
    }

    constructor (capital: real)
      ensures State() == Open(capital)
    {
      cash, feesPaid, equity, positions := capital, 0.0, capital, [];
    }

    /** The buy side: cash goes first, then the position; true when the average divides by zero. */
    method Buy(t: Trade) returns (raised: bool)
      requires IsBuy(t)
      modifies `cash, `positions
      ensures cash == CashAfter(old(cash), t) && positions == PositionsAfter(old(positions), t)
      ensures raised == Raises(old(positions), t)
    {
      var notional := t.size * t.price;
      cash := cash - (notional + t.fees);
      var at := IndexOf(positions, t.symbol);
      if at == |positions| {
        positions := positions + [Position(t.symbol, t.size, t.price, notional + t.fees)];
        return false;
      }
      var quantity := positions[at].quantity + t.size;
      var cost := positions[at].totalCost + notional + t.fees;
      positions := positions[at := positions[at].(quantity := quantity)];
      if quantity == 0.0 {
        return true;
      }
      positions := positions[at := positions[at].(avgPrice := cost / quantity)];
      positions := positions[at := positions[at].(totalCost := cost)];
      assert positions == old(positions)[at := Bought(old(positions)[at], t)];
      return false;
    }

    /** Every other side is a sale. */
    method Sell(t: Trade)
      requires !IsBuy(t)
      modifies `cash, `positions
      ensures cash == CashAfter(old(cash), t) && positions == PositionsAfter(old(positions), t)
    {
      cash := cash + (t.size * t.price - t.fees);
      var at := IndexOf(positions, t.symbol);
      if at < |positions| {
        positions := positions[at := positions[at].(quantity := positions[at].quantity - t.size)];
        if positions[at].quantity <= 0.0 {
          positions := positions[..at] + positions[at + 1..];
        }
        assert positions == Sold(old(positions), at, t);
      }
    }

    method Revalue(mark: Mark)
      modifies `equity
      ensures equity == cash + Value(positions, mark)
    {
      equity := cash;
      var i := 0;
      while i < |positions|
        invariant i <= |positions|
        invariant equity == cash + Value(positions[..i], mark)
      {
        equity := equity + positions[i].quantity * mark(positions[i].symbol);
        assert positions[..i + 1][..i] == positions[..i];
        i := i + 1;
      }
      assert positions[..i] == positions;
    }

    /** `_update_portfolio`; `raised` stands for the division by zero. */
    method UpdatePortfolio(t: Trade, mark: Mark) returns (raised: bool)
      modifies this
      ensures raised == Raises(old(positions), t)
      ensures State() == Step(old(State()), t, mark)
    {
      raised := false;
      if t.side == "buy" {
        raised := Buy(t);
        if raised {
          return;
        }
      } else {
        Sell(t);
      }
      feesPaid := feesPaid + t.fees;
      Revalue(mark);
    }
  }
}
