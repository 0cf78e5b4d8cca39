/**
 * Tick and step rounding of prices and quantities over exact numbers, and the order checks they are meant to satisfy.
 */
module InstrumentRounding {
  import opened Options

  datatype InstrumentSpec = InstrumentSpec(
    minSize: real, stepSize: real, tickSize: real, maxOrderSize: Option<real>, minNotional: Option<real>,
    authorized: bool)

  /** Construction rejects sizes that are not positive. */
  type Instrument = i: InstrumentSpec | i.minSize > 0.0 && i.stepSize > 0.0 && i.tickSize > 0.0
    witness InstrumentSpec(1.0, 1.0, 1.0, None, None, false)

  type Registry = map<string, Instrument>

  const TOLERANCE := 0.0000000001

  function Max(a: real, b: real): real { if a < b then b else a }

  function Abs(x: real): real { if x < 0.0 then -x else x }

  function Ceil(x: real): int {
    if x.Floor as real == x then x.Floor else x.Floor + 1
  }

  /** Python's `round`: nearest integer, halves to even. */
  function HalfEven(x: real): int {
    var n := x.Floor;
    var rest := x - n as real;
    if rest < 0.5 then n else if rest > 0.5 then n + 1 else if n % 2 == 0 then n else n + 1
  }

  function Units(k: int, unit: real): real { k as real * unit }

  function RoundToStep(i: Instrument, quantity: real): real {
    Max(Units(HalfEven(quantity / i.stepSize), i.stepSize), i.minSize)
  }

  function RoundToTick(i: Instrument, price: real, side: string): real {
    Max(Units(if side == "buy" then (price / i.tickSize).Floor else Ceil(price / i.tickSize), i.tickSize), i.tickSize)
  }

  /** `round_quantity`: an unknown symbol leaves the quantity alone. */
  function RoundQuantity(r: Registry, symbol: string, quantity: real): real {
    if symbol in r then RoundToStep(r[symbol], quantity) else quantity
  }

  /** `round_price`. */
  function RoundPrice(r: Registry, symbol: string, price: real, side: string): real {
    if symbol in r then RoundToTick(r[symbol], price, side) else price
  }

  datatype Verdict =
    | Ok | UnknownSymbol | NotAuthorized | BelowMinimum | OffStep | AboveMaximum | NotionalTooSmall | OffTick

  /** A number or text that Python takes as true. */
  predicate Given(x: Option<real>) { x.Some? && x.value != 0.0 }

  predicate OffStepBy(quantity: real, step: real)
    requires step > 0.0
  {
    Abs(quantity / step - HalfEven(quantity / step) as real) > TOLERANCE
  }

  /** `validate_order`, its checks in order. */
  function ValidateOrder(r: Registry, symbol: string, quantity: real, price: Option<real>, side: string): Verdict {
    if symbol !in r then UnknownSymbol
    else
      var i := r[symbol];
      if !i.authorized then NotAuthorized
      else if quantity < i.minSize then BelowMinimum
      else if OffStepBy(quantity, i.stepSize) then OffStep
      else if Given(i.maxOrderSize) && quantity > i.maxOrderSize.value then AboveMaximum
      else if Given(i.minNotional) && Given(price) && quantity * price.value < i.minNotional.value then NotionalTooSmall
      else if Given(price) && side != "" && Abs(price.value - RoundToTick(i, price.value, side)) > TOLERANCE then
        OffTick
      else Ok
  }

  // ---- Multiples of a unit ----

  lemma Scale(a: real, b: real, unit: real)
    requires unit > 0.0
    ensures a <= b <==> a * unit <= b * unit
    ensures a < b <==> a * unit < b * unit
  {
    assert (b - a) * unit == b * unit - a * unit;
    if a < b {
      PositiveProduct(b - a, unit);
    } else if b < a {
      PositiveProduct(a - b, unit);
      assert (a - b) * unit == a * unit - b * unit;
    }
  }

  lemma PositiveProduct(x: real, y: real)
    requires x > 0.0 && y > 0.0
    ensures x * y > 0.0
  {
  }

  lemma ScaledOrder(a: real, b: real, unit: real, c: real, d: real)
    requires unit > 0.0 && c == a * unit && d == b * unit
    ensures (a <= b <==> c <= d) && (a == b <==> c == d)
  {
    Scale(a, b, unit);
    Scale(b, a, unit);
  }

  lemma DivTimes(x: real, unit: real)
    requires unit > 0.0
    ensures x / unit * unit == x
  {
  }

  lemma UnitsOver(k: int, unit: real)
    requires unit > 0.0
    ensures Units(k, unit) / unit == k as real
  {
  }

  /** Comparing a multiple with a number is comparing the count with the quotient. */
  lemma UnitsAgainst(k: int, x: real, unit: real)
    requires unit > 0.0
    ensures Units(k, unit) <= x <==> k as real <= x / unit
    ensures Units(k, unit) < x <==> k as real < x / unit
  {
    DivTimes(x, unit);
    Scale(k as real, x / unit, unit);
  }

  lemma UnitsRise(j: int, k: int, unit: real)
    requires unit > 0.0
    ensures j <= k <==> Units(j, unit) <= Units(k, unit)
  {
    Scale(j as real, k as real, unit);
  }

  lemma NextUnit(k: int, unit: real)
    ensures Units(k + 1, unit) == Units(k, unit) + unit
    ensures Units(1, unit) == unit
  {
  }

  // ---- Prices ----

  /**
   * Buys round down to the greatest tick at or below the price, when the price is at least one tick; else up to one
   * tick.
   */
  lemma BuyIsGreatestBelow(i: Instrument, price: real, m: int)
    ensures var r := RoundToTick(i, price, "buy");
            && (price >= i.tickSize ==> r <= price && (Units(m, i.tickSize) <= price ==> Units(m, i.tickSize) <= r))
            && (price < i.tickSize ==> r == i.tickSize)
  {
    var tick, k := i.tickSize, (price / i.tickSize).Floor;
    NextUnit(0, tick);
    UnitsAgainst(1, price, tick);
    UnitsAgainst(k, price, tick);
    UnitsAgainst(m, price, tick);
    UnitsRise(m, k, tick);
    UnitsRise(1, k, tick);
    UnitsRise(k, 1, tick);
  }

  /** Every other side rounds to the least positive tick at or above the price. */
  lemma SellIsLeastAbove(i: Instrument, price: real, side: string, m: int)
    requires side != "buy"
    ensures var r := RoundToTick(i, price, side);
            price <= r && (m >= 1 && price <= Units(m, i.tickSize) ==> r <= Units(m, i.tickSize))
  {
    var tick, k := i.tickSize, Ceil(price / i.tickSize);
    NextUnit(0, tick);
    UnitsAgainst(k, price, tick);
    UnitsAgainst(m, price, tick);
    UnitsRise(k, m, tick);
    UnitsRise(1, m, tick);
  }

  /** A rounded price is a positive number of ticks. */
  lemma RoundedIsTicks(i: Instrument, price: real, side: string) returns (k: int)
    ensures k >= 1 && RoundToTick(i, price, side) == Units(k, i.tickSize) >= i.tickSize
  {
    var q := price / i.tickSize;
    var n := if side == "buy" then q.Floor else Ceil(q);
    k := if n < 1 then 1 else n;
    NextUnit(0, i.tickSize);
    UnitsRise(n, 1, i.tickSize);
    UnitsRise(1, n, i.tickSize);
  }

  lemma TicksAreFixed(i: Instrument, k: int, side: string)
    requires k >= 1
    ensures RoundToTick(i, Units(k, i.tickSize), side) == Units(k, i.tickSize)
  {
    UnitsOver(k, i.tickSize);
    NextUnit(0, i.tickSize);
    UnitsRise(1, k, i.tickSize);
  }

  /** Rounding a rounded price changes nothing, whichever side rounds first or second. */
  lemma PriceIdempotent(r: Registry, symbol: string, price: real, side: string, again: string)
    ensures RoundPrice(r, symbol, RoundPrice(r, symbol, price, side), again) == RoundPrice(r, symbol, price, side)
  {
    if symbol in r {
      var k := RoundedIsTicks(r[symbol], price, side);
      TicksAreFixed(r[symbol], k, again);
    }
  }

  lemma QuotientRises(low: real, high: real, unit: real)
    requires low <= high && unit > 0.0
    ensures low / unit <= high / unit
  {
    DivTimes(low, unit);
    DivTimes(high, unit);
    Scale(low / unit, high / unit, unit);
  }

  lemma PriceMonotone(r: Registry, symbol: string, low: real, high: real, side: string)
    requires low <= high
    ensures RoundPrice(r, symbol, low, side) <= RoundPrice(r, symbol, high, side)
  {
    if symbol in r {
      var tick := r[symbol].tickSize;
      QuotientRises(low, high, tick);
      UnitsRise((low / tick).Floor, (high / tick).Floor, tick);
      UnitsRise(Ceil(low / tick), Ceil(high / tick), tick);
    }
  }

  /** The two sides agree on a tick and otherwise sit one tick apart around the price. */
  lemma SidesWithinOneTick(i: Instrument, price: real, side: string)
    requires side != "buy"
    ensures RoundToTick(i, price, side) == RoundToTick(i, price, "buy")
            || (RoundToTick(i, price, side) == RoundToTick(i, price, "buy") + i.tickSize
                && RoundToTick(i, price, "buy") < price < RoundToTick(i, price, side))
  {
    var tick, q := i.tickSize, price / i.tickSize;
    NextUnit(0, tick);
    NextUnit(q.Floor, tick);
    UnitsAgainst(q.Floor, price, tick);
    UnitsAgainst(q.Floor + 1, price, tick);
    UnitsRise(1, q.Floor, tick);
    UnitsRise(q.Floor + 1, 1, tick);
  }

  // ---- Quantities ----

  lemma HalfEvenBrackets(x: real)
    ensures HalfEven(x) == x.Floor || HalfEven(x) == x.Floor + 1
    ensures Abs(x - HalfEven(x) as real) <= 0.5
    ensures Abs(x - HalfEven(x) as real) == 0.5 ==> HalfEven(x) % 2 == 0
  {
  }

  lemma WithinHalfIsNearest(x: real, n: int, m: int)
    requires Abs(x - n as real) <= 0.5
    ensures Abs(x - n as real) <= Abs(x - m as real)
    ensures m != n && Abs(x - n as real) == Abs(x - m as real) ==> Abs(x - n as real) == 0.5
  {
    if m < n {
      assert m as real <= n as real - 1.0;
    } else if n < m {
      assert m as real >= n as real + 1.0;
    }
  }

  lemma HalfEvenMonotone(x: real, y: real)
    requires x <= y
    ensures HalfEven(x) <= HalfEven(y)
  {
  }

  lemma HalfEvenFixesIntegers(k: int)
    ensures HalfEven(k as real) == k
  {
  }

  lemma DistanceScales(k: int, x: real, unit: real, quotient: real) returns (ratio: real, distance: real)
    requires unit > 0.0 && quotient == x / unit
    ensures ratio == Abs(quotient - k as real) && distance == Abs(x - Units(k, unit)) && distance == ratio * unit
  {
    ratio, distance := Abs(quotient - k as real), Abs(x - Units(k, unit));
    DivTimes(x, unit);
    assert (quotient - k as real) * unit == quotient * unit - Units(k, unit);
    Scale(quotient, k as real, unit);
  }

  /** Distances to multiples compare as the quotients' distances to the counts. */
  lemma CompareDistances(n: int, m: int, quantity: real, step: real, x: real)
    requires step > 0.0 && x == quantity / step
    ensures Abs(x - n as real) <= Abs(x - m as real)
            <==> Abs(quantity - Units(n, step)) <= Abs(quantity - Units(m, step))
    ensures Abs(x - n as real) == Abs(x - m as real)
            <==> Abs(quantity - Units(n, step)) == Abs(quantity - Units(m, step))
  {
    var a, c := DistanceScales(n, quantity, step, x);
    var b, d := DistanceScales(m, quantity, step, x);
    ScaledOrder(a, b, step, c, d);
  }

  /**
   * No multiple of the step is nearer to the quantity than the one rounding picks, and a tie goes to the even count.
   */
  lemma PickedIsNearest(quantity: real, step: real, m: int)
    requires step > 0.0
    ensures var n := HalfEven(quantity / step);
            && Abs(quantity - Units(n, step)) <= Abs(quantity - Units(m, step))
            && (m != n && Abs(quantity - Units(n, step)) == Abs(quantity - Units(m, step)) ==> n % 2 == 0)
  {
    var x := quantity / step;
    HalfEvenBrackets(x);
    WithinHalfIsNearest(x, HalfEven(x), m);
    CompareDistances(HalfEven(x), m, quantity, step, x);
  }

  /** The rounded quantity is that nearest multiple, or the minimum when it lies below. */
  lemma QuantityIsNearest(i: Instrument, quantity: real, m: int)
    ensures var r := RoundToStep(i, quantity);
            r != i.minSize ==> r > i.minSize && Abs(quantity - r) <= Abs(quantity - Units(m, i.stepSize))
    ensures RoundToStep(i, quantity) == i.minSize <==> Units(HalfEven(quantity / i.stepSize), i.stepSize) <= i.minSize
  {
    PickedIsNearest(quantity, i.stepSize, m);
  }

  lemma QuantityMonotone(r: Registry, symbol: string, low: real, high: real)
    requires low <= high
    ensures RoundQuantity(r, symbol, low) <= RoundQuantity(r, symbol, high)
  {
    if symbol in r {
      var step := r[symbol].stepSize;
      QuotientRises(low, high, step);
      HalfEvenMonotone(low / step, high / step);
      UnitsRise(HalfEven(low / step), HalfEven(high / step), step);
    }
  }

  /**
   * The minimum rounds to itself: true when it is a step multiple, and more generally when its nearest multiple is
   * not above it.
   */
  predicate MinimumIsStable(i: Instrument) {
    Units(HalfEven(i.minSize / i.stepSize), i.stepSize) <= i.minSize
  }

  lemma StepMultipleIsStable(i: Instrument, k: int)
    requires i.minSize == Units(k, i.stepSize)
    ensures MinimumIsStable(i)
  {
    UnitsOver(k, i.stepSize);
    HalfEvenFixesIntegers(k);
  }

  /** Rounding a rounded quantity changes nothing exactly when it was not clamped up or the minimum rounds to itself. */
  lemma QuantityIdempotentIff(i: Instrument, quantity: real)
    ensures RoundToStep(i, RoundToStep(i, quantity)) == RoundToStep(i, quantity)
            <==> Units(HalfEven(quantity / i.stepSize), i.stepSize) >= i.minSize || MinimumIsStable(i)
  {
    var n := HalfEven(quantity / i.stepSize);
    UnitsOver(n, i.stepSize);
    HalfEvenFixesIntegers(n);
  }

  /** A minimum of one and a half steps: a clamped quantity rounds again, to two steps. */
  lemma ClampedQuantityDrifts()
    ensures var i := InstrumentSpec(1.5, 1.0, 1.0, None, None, true);
            RoundToStep(i, 0.0) == 1.5 && RoundToStep(i, RoundToStep(i, 0.0)) == 2.0
  {
    assert HalfEven(0.0) == 0 && HalfEven(1.5) == 2;
  }

  // ---- The order checks ----

  function Distance(x: real, k: int): real { Abs(x - k as real) }

  ghost predicate FarFromWhole(x: real) {
    forall k: int :: Distance(x, k) > 0.0000000001
  }

  /** No whole number of steps is within the tolerance, measured in steps. */
  ghost predicate FarFromSteps(quantity: real, step: real)
    requires step > 0.0
  {
    FarFromWhole(quantity / step)
  }

  lemma OffStepExactly(quantity: real, step: real)
    requires step > 0.0
    ensures OffStepBy(quantity, step) <==> FarFromSteps(quantity, step)
  {
    var x := quantity / step;
    HalfEvenBrackets(x);
    forall k: int ensures Distance(x, HalfEven(x)) <= Distance(x, k) {
      WithinHalfIsNearest(x, HalfEven(x), k);
    }
    assert OffStepBy(quantity, step) <==> Distance(x, HalfEven(x)) > 0.0000000001;
    assert FarFromSteps(quantity, step) <==> FarFromWhole(x);
  }

  ghost predicate TooLarge(i: Instrument, quantity: real) {
    exists most :: i.maxOrderSize == Some(most) && most != 0.0 && quantity > most
  }

  ghost predicate TooThin(i: Instrument, quantity: real, price: Option<real>) {
    exists least, p :: i.minNotional == Some(least) && least != 0.0 && price == Some(p) && p != 0.0
                       && quantity * p < least
  }

  /** A side and a price are given, and the price is not on the tick its side rounds it to. */
  ghost predicate OffItsTick(i: Instrument, price: Option<real>, side: string) {
    side != "" && exists p :: price == Some(p) && p != 0.0 && Abs(p - RoundToTick(i, p, side)) > 0.0000000001
  }

  lemma LimitsExactly(i: Instrument, quantity: real, price: Option<real>)
    ensures TooLarge(i, quantity) <==> Given(i.maxOrderSize) && quantity > i.maxOrderSize.value
    ensures TooThin(i, quantity, price)
       <==> Given(i.minNotional) && Given(price) && quantity * price.value < i.minNotional.value
  {
  }

  lemma OffTickExactly(i: Instrument, price: Option<real>, side: string)
    ensures OffItsTick(i, price, side)
       <==> Given(price) && side != "" && Abs(price.value - RoundToTick(i, price.value, side)) > TOLERANCE
  {
  }

  /** What an order is refused for: the first check that fails, in the order of this list. */
  lemma ValidatedExactly(r: Registry, symbol: string, quantity: real, price: Option<real>, side: string)
    ensures var v := ValidateOrder(r, symbol, quantity, price, side);
            && (v == UnknownSymbol <==> symbol !in r)
            && (symbol in r ==>
                  var i := r[symbol];
                  var sized := i.authorized && quantity >= i.minSize && !FarFromSteps(quantity, i.stepSize);
                  var bounded := sized && !TooLarge(i, quantity) && !TooThin(i, quantity, price);
                  && (v == NotAuthorized <==> !i.authorized)
                  && (v == BelowMinimum <==> i.authorized && quantity < i.minSize)
                  && (v == OffStep
                      <==> i.authorized && quantity >= i.minSize && FarFromSteps(quantity, i.stepSize))
                  && (v == AboveMaximum <==> sized && TooLarge(i, quantity))
                  && (v == NotionalTooSmall
                      <==> sized && !TooLarge(i, quantity) && TooThin(i, quantity, price))
                  && (v == OffTick <==> bounded && OffItsTick(i, price, side))
                  && (v == Ok <==> bounded && !OffItsTick(i, price, side)))
  {
    if symbol in r {
      OffStepExactly(quantity, r[symbol].stepSize);
      LimitsExactly(r[symbol], quantity, price);
      OffTickExactly(r[symbol], price, side);
    }
  }

  // ---- Rounded orders against the order checks ----

  lemma MultipleIsOnStep(k: int, step: real)
    requires step > 0.0
    ensures !OffStepBy(Units(k, step), step)
  {
    UnitsOver(k, step);
    HalfEvenFixesIntegers(k);
  }

  /**
   * A rounded order for an authorized instrument never fails the minimum or the tick check, whichever side is named; it
   * fails the step check exactly when clamped to a minimum off the step; the rest is the size and notional limits.
   */
  lemma RoundedOrderExactly(r: Registry, symbol: string, quantity: real, price: real, side: string, named: string)
    requires symbol in r && r[symbol].authorized
    ensures var i := r[symbol];
            var q, p := RoundQuantity(r, symbol, quantity), RoundPrice(r, symbol, price, side);
            var clamped := Units(HalfEven(quantity / i.stepSize), i.stepSize) < i.minSize;
            ValidateOrder(r, symbol, q, Some(p), named)
            == if clamped && OffStepBy(i.minSize, i.stepSize) then OffStep
               else if Given(i.maxOrderSize) && q > i.maxOrderSize.value then AboveMaximum
               else if Given(i.minNotional) && q * p < i.minNotional.value then NotionalTooSmall
               else Ok
  {
    var i := r[symbol];
    MultipleIsOnStep(HalfEven(quantity / i.stepSize), i.stepSize);
    var k := RoundedIsTicks(i, price, side);
    TicksAreFixed(i, k, named);
  }
}
