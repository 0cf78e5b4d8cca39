/** What the risk gate and the guardrail builder come to, rule by rule, on the candidate as the strategy left it. */
module GuardrailRules {
  import opened Options
  import opened Text
  import opened SellAuthority

  // ---- Values ----

  /** The values Python takes as false. */
  const FALSY: set<Value> := {Nothing, Flag(false), Number(0.0), Words(""), Record(map[]), Many([])}

  /** `a or b`. */
  lemma OrExactly(a: Value, b: Value)
    ensures Truthy(a) <==> a !in FALSY
    ensures Or(a, b) == if a in FALSY then b else a
  {
  }

  lemma OrDecimalExactly(a: Option<real>, b: Option<real>)
    ensures OrDecimal(a, b) == if a in {None, Some(0.0)} then b else a
    ensures a == None ==> OrZero(a) == 0.0
    ensures forall x :: a == Some(x) ==> OrZero(a) == x
  {
  }

  predicate Dictionary(v: Value) {
    match v
    case Record(_) => true
    case GateRecord(_) => true
    case _ => false
  }

  lemma JoinThree(a: seq<Value>, b: seq<Value>, c: seq<Value>)
    ensures a + (b + c) == a + b + c
  {
  }

  lemma {:induction false} RecordsConcat(a: seq<Value>, b: seq<Value>)
    ensures Records(a + b) == Records(a) + Records(b)
  {
    if a == [] {
      assert a + b == b;
    } else {
      var ab := a + b;
      assert ab[0] == a[0] && ab[1..] == a[1..] + b;
      RecordsConcat(a[1..], b);
      JoinThree(if IsDict(a[0]) then [a[0]] else [], Records(a[1..]), Records(b));
    }
  }

  /** A dictionary stands for itself, a list for the dictionaries in it, in order, anything else for nothing. */
  lemma SequenceExactly(v: Value, a: seq<Value>, x: Value)
    ensures Dictionary(v) ==> MetadataSequence(v) == [v]
    ensures !Dictionary(v) && !v.Many? ==> MetadataSequence(v) == []
    ensures MetadataSequence(Many([])) == []
    ensures MetadataSequence(Many(a + [x])) == MetadataSequence(Many(a)) + if Dictionary(x) then [x] else []
  {
    RecordsConcat(a, [x]);
    assert [x][1..] == [];
    assert Records([x]) == if Dictionary(x) then [x] else [];
  }

  // ---- Inventory and gate ----

  /** Only a wired exposure manager reports inventory, and only its report can require it. */
  lemma InventoryExactly(env: Env, symbol: string, inv: Inventory)
    ensures InventoryOf(env, symbol) == Some(inv) <==> env.hasManager && env.inventory(symbol) == Some(inv)
    ensures env.hasManager && env.inventory(symbol) == Some(inv) ==> (InventoryRequired(env, symbol) <==> inv.required)
    ensures !env.hasManager || env.inventory(symbol) == None ==> !InventoryRequired(env, symbol)
  {
  }

  /** The gate is on in paper trading, always or where inventory is required. */
  lemma GateEnabledExactly(env: Env, symbol: string)
    ensures !env.paperMode ==> !GateEnabled(env, symbol)
    ensures env.paperMode && env.gateAlwaysOn ==> GateEnabled(env, symbol)
    ensures env.paperMode && !env.gateAlwaysOn ==> (GateEnabled(env, symbol) <==> InventoryRequired(env, symbol))
  {
  }

  /** The last price when there is one other than zero, else the signal's own, if positive. */
  ghost predicate PricedAt(env: Env, c: Candidate, price: real) {
    && price > 0.0
    && (Decimal(env, env.lastPrice) == Some(price)
        || (Decimal(env, env.lastPrice) in {None, Some(0.0)} && Decimal(env, c.price) == Some(price)))
  }

  /** The gate asks the exposure manager about the candidate at this price and quantity. */
  ghost predicate Asks(env: Env, symbol: string, c: Candidate, price: real, qty: real) {
    GateEnabled(env, symbol) && env.hasManager && PricedAt(env, c, price) && Decimal(env, c.quantity) == Some(qty)
    && qty > 0.0
  }

  /** The first value that counts, or the last one. */
  function FirstGiven(a: Value, b: Value, c: Value): Value {
    if a !in FALSY then a else if b !in FALSY then b else c
  }

  /** Broker-backed: by reconciled, attributed and sufficient inventory where that is required, else as claimed. */
  ghost predicate Backed(env: Env, symbol: string, m: Metadata, qty: real) {
    if InventoryRequired(env, symbol) then
      var inv := InventoryOf(env, symbol).value;
      inv.reconciled && inv.attributed && exists a :: inv.availableQty == Some(a) && a >= qty
    else Get(m, BrokerPositionBacked) == Flag(true)
  }

  /** Nothing the candidate claims where inventory is required, else what it lists under the field. */
  function Claimed(env: Env, symbol: string, m: Metadata, f: Field): seq<Value> {
    if InventoryRequired(env, symbol) then [] else MetadataSequence(Get(m, f))
  }

  /** What the exposure manager is told about positions and orders. */
  ghost predicate AsksWith(env: Env, symbol: string, m: Metadata, qty: real, q: GateRequest) {
    && (q.brokerPositionBacked <==> Backed(env, symbol, m, qty))
    && q.existingPositions == Claimed(env, symbol, m, ExistingPositions)
    && q.openOrders == Claimed(env, symbol, m, OpenOrders)
    && q.reservations == Claimed(env, symbol, m, Reservations)
  }

  /** What the exposure manager is asked. */
  ghost predicate AsksFor(env: Env, symbol: string, c: Candidate, price: real, qty: real, q: GateRequest) {
    var m := c.metadata;
    && q.policyVersion == env.policyVersion && q.symbol == symbol && q.side == c.side && q.qty == qty
    && q.price == price
    && q.sleeve == (if Get(m, SleeveName) in FALSY then c.strategy else Get(m, SleeveName))
    && q.action == FirstGiven(Get(m, ExecutionAction), Get(m, Action), Words(c.side))
    && (Get(m, CorrelationPairs).Record? ==> q.correlationPairs == Get(m, CorrelationPairs).d)
    && (!Get(m, CorrelationPairs).Record? && Get(m, CorrelationTruth).Record? ==>
          q.correlationPairs == Get(m, CorrelationTruth).d)
    && (!Get(m, CorrelationPairs).Record? && !Get(m, CorrelationTruth).Record? ==> q.correlationPairs == map[])
    && q.correlationTruthStatus == Get(m, CorrelationTruthStatus)
  }

  /** The metadata the gate works on. */
  function Marked(env: Env, symbol: string, m: Metadata): Metadata {
    m[GateRequired := Flag(GateEnabled(env, symbol))][GatePolicyVersion := Words(env.policyVersion)]
  }

  lemma OwnedReads(env: Env, symbol: string, m: Metadata, f: Field)
    requires f !in {GateRequired, GatePolicyVersion, SnapshotId}
    ensures Get(Owned(env, symbol, WithSnapshot(env, symbol, Marked(env, symbol, m))), f)
            == if InventoryRequired(env, symbol) && f in AUTHORITY_FIELDS then Nothing else Get(m, f)
  {
  }

  lemma RequestNames(env: Env, symbol: string, c: Candidate, price: real, qty: real, m: Metadata)
    requires m == Owned(env, symbol, WithSnapshot(env, symbol, Marked(env, symbol, c.metadata)))
    ensures AsksFor(env, symbol, c, price, qty, GateRequestFor(env, symbol, c, m, price, qty))
  {
    OwnedReads(env, symbol, c.metadata, SleeveName);
    OwnedReads(env, symbol, c.metadata, ExecutionAction);
    OwnedReads(env, symbol, c.metadata, Action);
    OwnedReads(env, symbol, c.metadata, CorrelationPairs);
    OwnedReads(env, symbol, c.metadata, CorrelationTruth);
    OwnedReads(env, symbol, c.metadata, CorrelationTruthStatus);
    OrExactly(Get(m, SleeveName), c.strategy);
    OrExactly(Get(m, Action), Words(c.side));
    OrExactly(Get(m, ExecutionAction), Or(Get(m, Action), Words(c.side)));
  }

  lemma RequestClaims(env: Env, symbol: string, c: Candidate, price: real, qty: real, m: Metadata)
    requires m == Owned(env, symbol, WithSnapshot(env, symbol, Marked(env, symbol, c.metadata)))
    ensures AsksWith(env, symbol, c.metadata, qty, GateRequestFor(env, symbol, c, m, price, qty))
  {
    OwnedReads(env, symbol, c.metadata, BrokerPositionBacked);
    OwnedReads(env, symbol, c.metadata, ExistingPositions);
    OwnedReads(env, symbol, c.metadata, OpenOrders);
    OwnedReads(env, symbol, c.metadata, Reservations);
  }

  /** A quantity the gate adjusts to. */
  ghost predicate Adjusts(e: GateEvidence, to: real) {
    e.authorized && e.adjusted && e.adjustedQuantity == Some(to) && to > 0.0
  }

  /** The gate answers as the exposure manager does about the candidate. */
  lemma AskingAnswers(env: Env, symbol: string, c: Candidate, price: real, qty: real) returns (q: GateRequest)
    requires Asks(env, symbol, c, price, qty)
    ensures AsksFor(env, symbol, c, price, qty, q) && AsksWith(env, symbol, c.metadata, qty, q)
    ensures ApplyGate(env, symbol, c).1 == env.gate(q)
  {
    OrDecimalExactly(Decimal(env, env.lastPrice), Decimal(env, c.price));
    var m := Owned(env, symbol, WithSnapshot(env, symbol, Marked(env, symbol, c.metadata)));
    q := GateRequestFor(env, symbol, c, m, price, qty);
    RequestNames(env, symbol, c, price, qty, m);
    RequestClaims(env, symbol, c, price, qty, m);
  }

  /** It passes a candidate it is not on for, and refuses one it cannot ask about. */
  lemma NotAskingAnswers(env: Env, symbol: string, c: Candidate)
    requires forall p, n :: !Asks(env, symbol, c, p, n)
    ensures var e := ApplyGate(env, symbol, c).1;
            && (e.authorized <==> !GateEnabled(env, symbol)) && !e.adjusted
            && e.code == (if !GateEnabled(env, symbol) then "PORTFOLIO_RISK_GATE_NOT_ENABLED_FOR_RUNTIME"
                          else if !env.hasManager then "EXPOSURE_MANAGER_EVIDENCE_MISSING"
                          else "PORTFOLIO_RISK_GATE_PRICE_OR_QTY_MISSING")
  {
    var price, qty := GatePrice(env, c), Decimal(env, c.quantity);
    OrDecimalExactly(Decimal(env, env.lastPrice), Decimal(env, c.price));
    if GateEnabled(env, symbol) && env.hasManager && price.Some? && qty.Some? {
      assert Asks(env, symbol, c, price.value, qty.value) <==> price.value > 0.0 && qty.value > 0.0;
    }
  }

  /** The quantity changes only to a positive adjustment of an authorised candidate; side, price and strategy stay. */
  lemma GateKeeps(env: Env, symbol: string, c: Candidate)
    ensures var (after, e) := ApplyGate(env, symbol, c);
            && (forall to :: Adjusts(e, to) ==> after.quantity == Number(to))
            && ((forall to :: !Adjusts(e, to)) ==> after.quantity == c.quantity)
            && after.side == c.side && after.price == c.price && after.strategy == c.strategy
  {
    var e := ApplyGate(env, symbol, c).1;
    if e.adjustedQuantity.Some? {
      assert Adjusts(e, e.adjustedQuantity.value)
        <==> e.authorized && e.adjusted && e.adjustedQuantity.value > 0.0;
    }
  }

  /** The snapshot id the broker's inventory carries. */
  ghost predicate HasSnapshot(env: Env, symbol: string, id: string) {
    id != "" && InventoryOf(env, symbol).Some? && InventoryOf(env, symbol).value.snapshotId == Some(id)
  }

  lemma SnapshotExactly(env: Env, symbol: string, m: Metadata, f: Field)
    ensures f != SnapshotId ==> Get(WithSnapshot(env, symbol, m), f) == Get(m, f)
    ensures forall id :: HasSnapshot(env, symbol, id) ==> Get(WithSnapshot(env, symbol, m), SnapshotId) == Words(id)
    ensures (forall id :: !HasSnapshot(env, symbol, id)) ==> WithSnapshot(env, symbol, m) == m
  {
    var inv := InventoryOf(env, symbol);
    if inv.Some? && inv.value.snapshotId.Some? && inv.value.snapshotId.value != "" {
      assert HasSnapshot(env, symbol, inv.value.snapshotId.value);
    }
  }

  /** What a field holds after the evidence is recorded over `m`, given the adjustment if there is one. */
  function Recorded(m: Metadata, e: GateEvidence, to: Option<real>, f: Field): Value {
    if f == GateEvidenceField then GateRecord(e)
    else if to.None? then Get(m, f)
    else
      match f
      case OriginalQuantity => e.originalQuantity
      case AdjustedQuantity => Number(to.value)
      case RequestedNotional => e.adjustedNotional
      case CorrelationSlashFactor => e.slashFactor
      case _ => Get(m, f)
  }

  ghost predicate AdjustedTo(e: GateEvidence, to: Option<real>) {
    if to.Some? then Adjusts(e, to.value) else forall x :: !Adjusts(e, x)
  }

  lemma AdjustedReads(m: Metadata, e: GateEvidence, to: real, f: Field)
    ensures Get(m[GateEvidenceField := GateRecord(e)][OriginalQuantity := e.originalQuantity]
                 [AdjustedQuantity := Number(to)][RequestedNotional := e.adjustedNotional]
                [CorrelationSlashFactor := e.slashFactor], f)
            == Recorded(m, e, Some(to), f)
  {
  }

  lemma AdjustmentReads(c: Candidate, m: Metadata, e: GateEvidence, to: Option<real>, f: Field)
    requires AdjustedTo(e, to)
    ensures Get(ApplyAdjustment(c, m, e).metadata, f) == Recorded(m, e, to, f)
  {
    if to.Some? {
      AdjustedReads(m, e, to.value, f);
    } else if e.adjustedQuantity.Some? {
      assert !Adjusts(e, e.adjustedQuantity.value);
    }
  }

  /** What a field holds when the exposure manager is asked: switch and policy set, claims taken away if need be. */
  ghost predicate OwnedHolds(env: Env, symbol: string, m: Metadata, f: Field, v: Value) {
    if f == GateRequired then v == Flag(GateEnabled(env, symbol))
    else if f == GatePolicyVersion then v == Words(env.policyVersion)
    else if f == SnapshotId then
      && (forall id :: HasSnapshot(env, symbol, id) ==> v == Words(id))
      && ((forall id :: !HasSnapshot(env, symbol, id)) ==> v == Get(m, SnapshotId))
    else v == if InventoryRequired(env, symbol) && f in AUTHORITY_FIELDS then Nothing else Get(m, f)
  }

  lemma OwnedHoldsAll(env: Env, symbol: string, m: Metadata, owned: Metadata, f: Field)
    requires owned == Owned(env, symbol, WithSnapshot(env, symbol, Marked(env, symbol, m)))
    ensures OwnedHolds(env, symbol, m, f, Get(owned, f))
  {
    SnapshotExactly(env, symbol, Marked(env, symbol, m), f);
    if f !in {GateRequired, GatePolicyVersion, SnapshotId} {
      OwnedReads(env, symbol, m, f);
    }
  }

  /** When it asks, the gate writes switch, policy, snapshot id and evidence, takes claims away, and adjusts. */
  lemma AskingWrites(env: Env, symbol: string, c: Candidate, price: real, qty: real, to: Option<real>, f: Field)
    returns (owned: Metadata)
    requires Asks(env, symbol, c, price, qty) && AdjustedTo(ApplyGate(env, symbol, c).1, to)
    ensures OwnedHolds(env, symbol, c.metadata, f, Get(owned, f))
    ensures var (after, e) := ApplyGate(env, symbol, c);
            Get(after.metadata, f) == Recorded(owned, e, to, f)
  {
    OrDecimalExactly(Decimal(env, env.lastPrice), Decimal(env, c.price));
    owned := Owned(env, symbol, WithSnapshot(env, symbol, Marked(env, symbol, c.metadata)));
    OwnedHoldsAll(env, symbol, c.metadata, owned, f);
    AdjustmentReads(c, owned, ApplyGate(env, symbol, c).1, to, f);
  }

  /** When it does not ask it writes only switch, policy and evidence. */
  lemma NotAskingWrites(env: Env, symbol: string, c: Candidate, f: Field)
    requires forall p, n :: !Asks(env, symbol, c, p, n)
    ensures var (after, e) := ApplyGate(env, symbol, c);
            Get(after.metadata, f) == if f == GateEvidenceField then GateRecord(e)
                                      else if f == GateRequired then Flag(GateEnabled(env, symbol))
                                      else if f == GatePolicyVersion then Words(env.policyVersion)
                                      else Get(c.metadata, f)
  {
    NotAskingMarks(env, symbol, c);
    MarksRead(c.metadata, Flag(GateEnabled(env, symbol)), Words(env.policyVersion),
              GateRecord(ApplyGate(env, symbol, c).1), f);
  }

  lemma MarksRead(m: Metadata, switch: Value, policy: Value, evidence: Value, f: Field)
    ensures Get(m[GateRequired := switch][GatePolicyVersion := policy][GateEvidenceField := evidence], f)
            == if f == GateEvidenceField then evidence else if f == GateRequired then switch
               else if f == GatePolicyVersion then policy else Get(m, f)
  {
  }

  lemma NotAskingMarks(env: Env, symbol: string, c: Candidate)
    requires forall p, n :: !Asks(env, symbol, c, p, n)
    ensures ApplyGate(env, symbol, c).0.metadata
            == Marked(env, symbol, c.metadata)[GateEvidenceField := GateRecord(ApplyGate(env, symbol, c).1)]
  {
    var price, qty := GatePrice(env, c), Decimal(env, c.quantity);
    OrDecimalExactly(Decimal(env, env.lastPrice), Decimal(env, c.price));
    if GateEnabled(env, symbol) && env.hasManager && price.Some? && qty.Some? {
      assert Asks(env, symbol, c, price.value, qty.value) <==> price.value > 0.0 && qty.value > 0.0;
    }
  }

  // ---- What a sell is backed by ----

  lemma {:induction false} SeparatorsDropped(s: string, c: char)
    ensures DropSeparators("") == ""
    ensures DropSeparators(s + [c]) == DropSeparators(s) + if c in "/-_" then "" else [c]
  {
    if s != "" {
      assert (s + [c])[1..] == s[1..] + [c];
      SeparatorsDropped(s[1..], c);
    } else {
      assert s + [c] == [c] && [c][1..] == "";
    }
  }

  /** The quantity of a position record: under "quantity", else under "qty", else zero text. */
  lemma HeldExactly(env: Env, d: map<string, Value>)
    ensures HeldQuantity(env, Record(d))
            == Decimal(env, if "quantity" in d then d["quantity"] else if "qty" in d then d["qty"] else Words("0"))
  {
  }

  /** Symbols that match but for case, the three separators and blanks around them. */
  predicate SameSymbol(a: string, b: string) {
    Strip(DropSeparators(Upper(a))) == Strip(DropSeparators(Upper(b)))
  }

  /** A record that names the symbol (or, without a name, the empty one) and a positive quantity. */
  ghost predicate HoldsPositive(env: Env, symbol: string, d: map<string, Value>) {
    && SameSymbol(if "symbol" in d && d["symbol"].Words? then d["symbol"].s else "", symbol)
    && exists q :: HeldQuantity(env, Record(d)) == Some(q) && q > 0.0
  }

  lemma MatchesExactly(env: Env, symbol: string, d: map<string, Value>)
    ensures MatchesPositive(env, symbol, Record(d)) <==> HoldsPositive(env, symbol, d)
  {
    assert PositionSymbol("") == "";
  }

  /** A positive position is one of the records listed. */
  lemma PositionExactly(env: Env, symbol: string, positions: seq<Value>)
    requires forall p :: p in positions ==> p.Record?
    ensures HasPositivePosition(env, symbol, positions)
       <==> exists p :: p in positions && HoldsPositive(env, symbol, p.d)
  {
    forall i | 0 <= i < |positions|
      ensures MatchesPositive(env, symbol, positions[i]) <==> HoldsPositive(env, symbol, positions[i].d)
    {
      assert positions[i] in positions;
      MatchesExactly(env, symbol, positions[i].d);
    }
    if HasPositivePosition(env, symbol, positions) {
      var i :| 0 <= i < |positions| && MatchesPositive(env, symbol, positions[i]);
      assert positions[i] in positions;
    }
  }

  /** Intent to open a short: said outright, or by the first of three action fields given. */
  lemma ShortIntendedExactly(m: Metadata)
    ensures var verb := FirstGiven(Get(m, ExecutionAction), Get(m, OrderAction), Get(m, BrokerAction));
            ShortIntended(m)
            <==> Get(m, ShortIntent) == Flag(true) || (verb.Words? && Lower(verb.s) in {"sell_short", "short"})
  {
    OrExactly(Get(m, OrderAction), Get(m, BrokerAction));
    OrExactly(Get(m, ExecutionAction), Or(Get(m, OrderAction), Get(m, BrokerAction)));
  }

  lemma ShortAuthorizedExactly(m: Metadata)
    ensures ShortAuthorized(m)
       <==> exists f :: f in {ShortAuthority, BrokerShortAuthority, BorrowAuthority} && Get(m, f) == Flag(true)
  {
    var fields := {ShortAuthority, BrokerShortAuthority, BorrowAuthority};
    assert Get(m, ShortAuthority) == Flag(true) ==> ShortAuthority in fields;
  }

  /** A locally simulated long: the first of two fields given is a record with a positive quantity. */
  lemma LocalHeldExactly(env: Env, m: Metadata)
    ensures var local := if Get(m, LocalSimPosition) !in FALSY then Get(m, LocalSimPosition) else Get(m, SimPosition);
            LocalHeld(env, m) <==> local.Record? && exists q :: HeldQuantity(env, local) == Some(q) && q > 0.0
  {
    OrExactly(Get(m, LocalSimPosition), Get(m, SimPosition));
  }

  /** Inventory backs a sell when it is reconciled, attributed, and something is held and something available. */
  lemma SellableExactly(inv: Inventory)
    ensures Sellable(inv)
       <==> inv.reconciled && inv.attributed && (exists b :: inv.brokerQty == Some(b) && b > 0.0)
            && exists a :: inv.availableQty == Some(a) && a > 0.0
  {
  }

  /** The classification of a sell; nothing else is classified. */
  lemma ClassificationExactly(env: Env, symbol: string, side: string, m: Metadata, positions: seq<Value>,
                              inv: Option<Inventory>)
    ensures ClassifySell(env, symbol, side, m, positions, inv)
            == if Lower(side) != "sell" then None
               else if inv.Some? && inv.value.required then
                 Some(if Sellable(inv.value) then "SELL_EXIT_EXISTING_BROKER_POSITION" else "SELL_AUTHORITY_MISSING")
               else if HasPositivePosition(env, symbol, positions) then Some("SELL_EXIT_EXISTING_BROKER_POSITION")
               else if LocalHeld(env, m) then Some("SELL_EXIT_LOCAL_SIM_ONLY")
               else if !ShortIntended(m) then Some("BEARISH_NO_LONG")
               else Some(if ShortAuthorized(m) then "SELL_SHORT_AUTHORIZED" else "SELL_SHORT_AUTHORITY_MISSING")
  {
  }

  // ---- The protected baseline ----

  /** A baseline record that says it is accepted or carries a snapshot. */
  predicate AcceptedRecord(v: Value) {
    v.Record?
    && (("accepted" in v.d && v.d["accepted"] == Flag(true))
        || ("baseline_snapshot" in v.d && Dictionary(v.d["baseline_snapshot"])))
  }

  /** The first accepted baseline of the candidate, else the configured one once loaded, else none. */
  lemma BaselineExactly(env: Env, m: Metadata)
    ensures BaselineOf(env, m)
            == if AcceptedRecord(Get(m, AcceptedPaperBaseline)) then Get(m, AcceptedPaperBaseline)
               else if AcceptedRecord(Get(m, PaperBaseline)) then Get(m, PaperBaseline)
               else if AcceptedRecord(Get(m, BaselineAdoption)) then Get(m, BaselineAdoption)
               else match env.configBaseline
                    case Record(d) =>
                      if "baseline_loaded" in d && d["baseline_loaded"] == Flag(true) then env.configBaseline
                      else Nothing
                    case _ => Nothing
  {
  }

  /** What the baseline evaluator is asked: lots come from the inventory where that is required, else as claimed. */
  ghost predicate AsksBaseline(env: Env, symbol: string, c: Candidate, q: BaselineRequest) {
    && q.symbol == symbol && q.side == Lower(c.side) && q.qty == OrZero(Decimal(env, c.quantity))
    && q.baseline == BaselineOf(env, c.metadata)
    && (InventoryRequired(env, symbol) ==>
          q.runAcquiredQty == InventoryOf(env, symbol).value.botOwnedQty
          && q.lotTracking == InventoryOf(env, symbol).value.lotTracking)
    && (!InventoryRequired(env, symbol) ==>
          q.runAcquiredQty == Get(c.metadata, RunAcquiredQty)
          && (q.lotTracking <==> Get(c.metadata, LotTrackingAvailable) == Flag(true)))
  }

  /** The baseline refuses when there is one, the side is buy or sell, and the evaluator of the baseline says no. */
  lemma BaselineBlocksExactly(env: Env, symbol: string, c: Candidate) returns (q: BaselineRequest)
    ensures AsksBaseline(env, symbol, c, q)
    ensures BaselineBlocks(env, symbol, c)
       <==> BaselineOf(env, c.metadata) != Nothing && Lower(c.side) in {"buy", "sell"} && !env.baseline(q).allowed
  {
    q := BaselineRequestFor(env, symbol, Lower(c.side), OrZero(Decimal(env, c.quantity)), c.metadata);
  }

  // ---- The verdict and what is written ----

  /** The gate is applied by the builder if it is on, has not been applied, and can be or was asked for. */
  lemma GatedExactly(env: Env, symbol: string, c: Candidate)
    ensures Gated(env, symbol, c)
            == if GateEnabled(env, symbol) && !Dictionary(Get(c.metadata, GateEvidenceField))
                  && (env.hasManager || Get(c.metadata, GateRequired) == Flag(true))
               then ApplyGate(env, symbol, c).0 else c
  {
  }

  /** A buy buys; a sell closes or opens a short by its classification or does nothing; another side is its own verb. */
  lemma ActionExactly(side: string, k: Option<string>)
    ensures Lower(side) == "buy" ==> ActionFor(side, k) == Some("buy")
    ensures Lower(side) == "sell" ==>
              ActionFor(side, k)
              == if k == Some("SELL_EXIT_EXISTING_BROKER_POSITION") then Some("sell_to_close")
                 else if k == Some("SELL_SHORT_AUTHORIZED") then Some("sell_short") else None
    ensures Lower(side) !in {"buy", "sell", ""} ==> ActionFor(side, k) == Some(Lower(side))
    ensures side == "" ==> ActionFor(side, k) == None
  {
    assert side != "" ==> |Lower(side)| > 0;
  }

  /** The notional asked for: as given, else quantity times last price, if the quantity is positive. */
  lemma RequestedExactly(env: Env, c: Candidate, qty: real)
    ensures var given, price := Decimal(env, Get(c.metadata, RequestedNotional)), Decimal(env, env.lastPrice);
            && (given != None ==> Requested(env, c, qty) == given)
            && (given == None && price != None && qty > 0.0 ==>
                  exists x :: Requested(env, c, qty) == Some(x) && x >= 0.0
                              && (x == qty * price.value || x == -(qty * price.value)))
            && (given == None && (price == None || qty <= 0.0) ==> Requested(env, c, qty) == None)
  {
  }

  /** The bound on the notional: as given if not zero, else the notional asked for. */
  function Bound(env: Env, g: Candidate): Option<real> {
    var given := Decimal(env, Get(g.metadata, InternalMaxNotional));
    if given in {None, Some(0.0)} then Requested(env, g, OrZero(Decimal(env, g.quantity))) else given
  }

  /** The order type of a candidate that is not routed: its own, lower-cased, else limit under attack, else market. */
  function Unrouted(env: Env, m: Metadata): string {
    match Get(m, OrderType)
    case Words(s) => if s != "" then Lower(s) else if env.isAttack then "limit" else "market"
    case _ => if env.isAttack then "limit" else "market"
  }

  /** How the builder decides, by what the candidate was classified as. */
  ghost predicate DecidedAs(env: Env, symbol: string, g: Candidate, k: Option<string>, v: Verdict) {
    var action, requested := ActionFor(Lower(g.side), k), Requested(env, g, OrZero(Decimal(env, g.quantity)));
    && (v.BaselineProtected? <==> BaselineBlocks(env, symbol, g))
    && (v.NoBrokerIntent? <==> !BaselineBlocks(env, symbol, g) && Lower(g.side) == "sell" && action == None)
    && (!v.Evaluated? ==>
          v.side == Lower(g.side) && v.requested == requested && v.maximum == Bound(env, g)
          && v.orderType == Unrouted(env, g.metadata))
    && (v.BaselineProtected? ==> v.quantity == OrZero(Decimal(env, g.quantity)))
    && (v.NoBrokerIntent? ==> Some(v.classification) == k)
    && (v.Evaluated? ==>
          v.request.action == action && v.request.side == Lower(g.side)
          && v.request.internalMaxNotional == Bound(env, g))
  }

  /** What the classification reads beside what it writes. */
  lemma ClassifiedReads(env: Env, symbol: string, side: string, m: Metadata, f: Field)
    requires f !in {SellIntent, ExecutionAction, BrokerIntent, SnapshotId}
    ensures Get(Classified(env, symbol, side, m).0, f)
            == if InventoryRequired(env, symbol) && f in AUTHORITY_FIELDS then Nothing else Get(m, f)
  {
    SnapshotExactly(env, symbol, Owned(env, symbol, m), f);
  }

  lemma LowerTwice(s: string)
    ensures Lower(Lower(s)) == Lower(s)
  {
    assert forall i :: 0 <= i < |s| ==> LowerChar(LowerChar(s[i])) == LowerChar(s[i]);
  }

  lemma ClassifiedKind(env: Env, symbol: string, g: Candidate)
    ensures (Classified(env, symbol, Lower(g.side), g.metadata).1 == None) <==> Lower(g.side) != "sell"
  {
    LowerTwice(g.side);
  }

  /** The verdict by the classification of the gated candidate. */
  lemma VerdictExactly(env: Env, symbol: string, c: Candidate)
    ensures var g := Gated(env, symbol, c);
            var k := Classified(env, symbol, Lower(g.side), g.metadata).1;
            DecidedAs(env, symbol, g, k, BuildVerdict(env, symbol, c).1)
  {
    var g := Gated(env, symbol, c);
    var (m, k) := Classified(env, symbol, Lower(g.side), g.metadata);
    ClassifiedKeepsBaseline(env, symbol, g);
    ClassifiedReads(env, symbol, Lower(g.side), g.metadata, OrderType);
    ClassifiedKind(env, symbol, g);
    DecidedExactly(env, symbol, g.(metadata := m), k, ClaimedPositions(env, symbol, g.metadata),
                   Requested(env, g, OrZero(Decimal(env, g.quantity))), Bound(env, g));
    OrDecimalExactly(Decimal(env, Get(g.metadata, InternalMaxNotional)),
                     Requested(env, g, OrZero(Decimal(env, g.quantity))));
  }

  lemma DecidedExactly(env: Env, symbol: string, c: Candidate, k: Option<string>, positions: seq<Value>,
                       requested: Option<real>, maximum: Option<real>)
    ensures var v, action := Decide(env, symbol, c, k, positions, requested, maximum).1, ActionFor(Lower(c.side), k);
            && (v.BaselineProtected? <==> BaselineBlocks(env, symbol, c))
            && (v.NoBrokerIntent? <==> !BaselineBlocks(env, symbol, c) && Lower(c.side) == "sell" && action == None)
            && (!v.Evaluated? ==>
                  v.side == Lower(c.side) && v.requested == requested && v.maximum == maximum
                  && v.orderType == Unrouted(env, c.metadata))
            && (v.BaselineProtected? ==> v.quantity == OrZero(Decimal(env, c.quantity)))
            && (v.NoBrokerIntent? && k.Some? ==> Some(v.classification) == k)
            && (v.Evaluated? ==>
                  v.request.action == action && v.request.side == Lower(c.side)
                  && v.request.internalMaxNotional == maximum)
  {
  }

  lemma BuyDecided(env: Env, symbol: string, g: Candidate, k: Option<string>, v: Verdict)
    requires DecidedAs(env, symbol, g, k, v) && Lower(g.side) == "buy"
    ensures v.Evaluated? <==> !BaselineBlocks(env, symbol, g)
    ensures v.Evaluated? ==> v.request.action == Some("buy") && v.request.side == "buy"
  {
    LowerTwice(g.side);
    ActionExactly(Lower(g.side), k);
  }

  /** A buy is evaluated as a buy, claims or not, exactly when the baseline does not refuse it. */
  lemma BuyVerdict(env: Env, symbol: string, c: Candidate)
    requires Lower(c.side) == "buy"
    ensures var v, g := BuildVerdict(env, symbol, c).1, Gated(env, symbol, c);
            && (v.Evaluated? <==> !BaselineBlocks(env, symbol, g))
            && (v.BaselineProtected? <==> BaselineBlocks(env, symbol, g))
            && (v.Evaluated? ==> v.request.action == Some("buy") && v.request.side == "buy")
  {
    var g := Gated(env, symbol, c);
    VerdictExactly(env, symbol, c);
    GateKeeps(env, symbol, c);
    BuyDecided(env, symbol, g, Classified(env, symbol, Lower(g.side), g.metadata).1, BuildVerdict(env, symbol, c).1);
  }

  lemma OtherDecided(env: Env, symbol: string, g: Candidate, k: Option<string>, v: Verdict)
    requires DecidedAs(env, symbol, g, k, v) && Lower(g.side) !in {"buy", "sell"}
    ensures v.Evaluated? && v.request.side == Lower(g.side)
    ensures v.request.action == if g.side == "" then None else Some(Lower(g.side))
  {
    LowerTwice(g.side);
    ActionExactly(Lower(g.side), k);
    assert |Lower(g.side)| == |g.side|;
  }

  /** A side that is neither is evaluated always, under its own name. */
  lemma OtherVerdict(env: Env, symbol: string, c: Candidate)
    requires Lower(c.side) !in {"buy", "sell"}
    ensures var v := BuildVerdict(env, symbol, c).1;
            v.Evaluated? && v.request.side == Lower(c.side)
            && v.request.action == if c.side == "" then None else Some(Lower(c.side))
  {
    var g := Gated(env, symbol, c);
    VerdictExactly(env, symbol, c);
    GateKeeps(env, symbol, c);
    OtherDecided(env, symbol, g, Classified(env, symbol, Lower(g.side), g.metadata).1, BuildVerdict(env, symbol, c).1);
  }

  /** What the classification writes. */
  lemma ClassifiedWrites(env: Env, symbol: string, side: string, m: Metadata)
    ensures var (n, k) := Classified(env, symbol, side, m);
            var action := ActionFor(side, k);
            && Get(n, ExecutionAction) == (if action.Some? then Words(action.value) else Nothing)
            && Get(n, BrokerIntent) == Flag(action.Some?)
            && Get(n, SellIntent) == (if k.Some? then Words(k.value) else Get(m, SellIntent))
            && (forall id :: HasSnapshot(env, symbol, id) ==> Get(n, SnapshotId) == Words(id))
            && ((forall id :: !HasSnapshot(env, symbol, id)) ==> Get(n, SnapshotId) == Get(m, SnapshotId))
  {
    SnapshotExactly(env, symbol, Owned(env, symbol, m), SnapshotId);
  }

  lemma DecideWrites(env: Env, symbol: string, c: Candidate, k: Option<string>, positions: seq<Value>,
                     requested: Option<real>, maximum: Option<real>, f: Field)
    ensures var (after, v) := Decide(env, symbol, c, k, positions, requested, maximum);
            var guarded := BaselineOf(env, c.metadata) != Nothing && Lower(c.side) in {"buy", "sell"};
            && after == c.(metadata := after.metadata)
            && (f !in {BaselineRuntimeContext, BrokerIntent, BaselineBlock} ==>
                  Get(after.metadata, f) == Get(c.metadata, f))
            && Get(after.metadata, BaselineRuntimeContext)
               == (if guarded && BaselineRuntimeContext !in c.metadata then BaselineOf(env, c.metadata)
                   else Get(c.metadata, BaselineRuntimeContext))
            && Get(after.metadata, BrokerIntent)
               == (if v.BaselineProtected? then Flag(false) else Get(c.metadata, BrokerIntent))
            && Get(after.metadata, BaselineBlock)
               == (if v.BaselineProtected? then Words(v.code) else Get(c.metadata, BaselineBlock))
  {
  }

  /** What the builder leaves in the candidate: the action and classification, and broker intent only if evaluated. */
  lemma VerdictWrites(env: Env, symbol: string, c: Candidate)
    ensures var (after, v) := BuildVerdict(env, symbol, c);
            var g := Gated(env, symbol, c);
            var k := Classified(env, symbol, Lower(g.side), g.metadata).1;
            var action := ActionFor(Lower(g.side), k);
            && after == g.(metadata := after.metadata)
            && Get(after.metadata, ExecutionAction) == (if action.Some? then Words(action.value) else Nothing)
            && Get(after.metadata, SellIntent) == (if k.Some? then Words(k.value) else Get(g.metadata, SellIntent))
            && Get(after.metadata, BrokerIntent) == Flag(v.Evaluated? && action.Some?)
            && Get(after.metadata, BaselineBlock)
               == (if v.BaselineProtected? then Words(v.code) else Get(g.metadata, BaselineBlock))
  {
    var g := Gated(env, symbol, c);
    var (m, k) := Classified(env, symbol, Lower(g.side), g.metadata);
    var positions := ClaimedPositions(env, symbol, g.metadata);
    var requested := Requested(env, g, OrZero(Decimal(env, g.quantity)));
    var maximum := OrDecimal(Decimal(env, Get(g.metadata, InternalMaxNotional)), requested);
    ClassifiedWrites(env, symbol, Lower(g.side), g.metadata);
    ClassifiedReads(env, symbol, Lower(g.side), g.metadata, BaselineBlock);
    DecideWrites(env, symbol, g.(metadata := m), k, positions, requested, maximum, ExecutionAction);
    DecideWrites(env, symbol, g.(metadata := m), k, positions, requested, maximum, SellIntent);
    VerdictExactly(env, symbol, c);
    LowerTwice(g.side);
  }

  /** What the builder took away, and what it left as the gate did. */
  lemma VerdictKeeps(env: Env, symbol: string, c: Candidate, f: Field)
    requires f !in {SellIntent, ExecutionAction, BrokerIntent, SnapshotId, BaselineRuntimeContext, BaselineBlock}
    ensures var g := Gated(env, symbol, c);
            Get(BuildVerdict(env, symbol, c).0.metadata, f)
            == if InventoryRequired(env, symbol) && f in AUTHORITY_FIELDS then Nothing else Get(g.metadata, f)
  {
    var g := Gated(env, symbol, c);
    var (m, k) := Classified(env, symbol, Lower(g.side), g.metadata);
    var requested := Requested(env, g, OrZero(Decimal(env, g.quantity)));
    var maximum := OrDecimal(Decimal(env, Get(g.metadata, InternalMaxNotional)), requested);
    ClassifiedReads(env, symbol, Lower(g.side), g.metadata, f);
    DecideWrites(env, symbol, g.(metadata := m), k, ClaimedPositions(env, symbol, g.metadata), requested, maximum, f);
  }

  // ---- Routing ----

  /** Text that is there. */
  ghost predicate Says(v: Value, s: string) { v == Words(s) && s != "" }

  ghost predicate Silent(v: Value) { forall s :: !Says(v, s) }

  /** A given asset class, lower-cased; else crypto for pairs, etf for the three index funds, equity otherwise. */
  lemma AssetClassExactly(symbol: string, m: Metadata)
    ensures forall s :: Says(Get(m, AssetClass), s) ==> InferAssetClass(symbol, m) == Lower(s)
    ensures Get(m, AssetClass) in FALSY && '/' in Upper(symbol) ==> InferAssetClass(symbol, m) == "crypto"
    ensures Get(m, AssetClass) in FALSY && '/' !in Upper(symbol) ==>
              InferAssetClass(symbol, m) == if Upper(symbol) in {"SPY", "QQQ", "DIA"} then "etf" else "equity"
  {
    OrExactly(Get(m, AssetClass), Nothing);
  }

  /** What the registry is asked: the candidate's own order type and time in force, when it says any. */
  ghost predicate AsksFirst(symbol: string, verb: string, m: Metadata, q: PortalRequest) {
    && q.symbol == symbol && q.assetClass == InferAssetClass(symbol, m) && q.action == verb
    && (forall s :: Says(Get(m, OrderType), s) ==> q.orderType == Some(Lower(s)))
    && (Silent(Get(m, OrderType)) ==> q.orderType == None)
    && (forall s :: Says(Get(m, TimeInForce), s) ==> q.timeInForce == Some(Upper(s)))
    && (Silent(Get(m, TimeInForce)) ==> q.timeInForce == None)
  }

  /** The candidate's own order type, else the selected portal's default, else limit under attack, else market. */
  ghost predicate OrderTypeOf(env: Env, m: Metadata, first: Portal, orderType: string) {
    && (forall s :: Says(Get(m, OrderType), s) ==> orderType == Lower(s))
    && (Silent(Get(m, OrderType)) && first.selected.Some? && first.selected.value.defaultOrderType != "" ==>
          orderType == first.selected.value.defaultOrderType)
    && (Silent(Get(m, OrderType)) && (first.selected == None || first.selected.value.defaultOrderType == "") ==>
          orderType == if env.isAttack then "limit" else "market")
  }

  /** The candidate's own time in force, else the selected portal's default. */
  ghost predicate TimeInForceOf(m: Metadata, first: Portal, tif: Option<string>) {
    && (forall s :: Says(Get(m, TimeInForce), s) ==> tif == Some(Upper(s)))
    && (Silent(Get(m, TimeInForce)) && first.selected == None ==> tif == None)
    && (Silent(Get(m, TimeInForce)) && first.selected.Some? ==> tif == first.selected.value.defaultTimeInForce)
  }

  /** The registry is asked again with defaults filled in, when there are any to fill and a time in force to fill. */
  predicate AsksAgain(m: Metadata, first: Portal, tif: Option<string>) {
    && first.selected != None && tif != None && tif != Some("")
    && (Get(m, OrderType) == Nothing || Get(m, TimeInForce) == Nothing)
  }

  /** The portal, order type and time in force a candidate is evaluated with. */
  ghost predicate Routed(env: Env, symbol: string, verb: string, m: Metadata, orderType: string, tif: Option<string>,
                         portal: Portal) {
    exists q :: AsksFirst(symbol, verb, m, q) && OrderTypeOf(env, m, env.resolve(q), orderType)
                && TimeInForceOf(m, env.resolve(q), tif)
                && portal == if AsksAgain(m, env.resolve(q), tif)
                             then env.resolve(PortalRequest(symbol, InferAssetClass(symbol, m), verb,
                                                            Some(orderType), tif))
                             else env.resolve(q)
  }

  lemma TextExactly(v: Value)
    ensures forall s :: Says(v, s) ==> TextOf(v) == Some(s)
    ensures Silent(v) ==> TextOf(v) == None
  {
    if v.Words? && v.s != "" {
      assert Says(v, v.s);
    }
  }

  /** The request the guardrails evaluate and its result, apart from routing. */
  ghost predicate EvaluatedWith(env: Env, symbol: string, side: string, qty: real, m: Metadata,
                                positions: seq<Value>, action: Option<string>, maximum: Option<real>,
                                q: GuardrailRequest) {
    && q.symbol == symbol && q.side == side && q.action == action && q.quantity == qty
    && q.currentPrice == Decimal(env, env.lastPrice) && q.internalMaxNotional == maximum
    && q.existingPositions == positions
    && q.openOrders == Claimed(env, symbol, m, OpenOrders) && q.reservations == Claimed(env, symbol, m, Reservations)
    && (q.addOnAllowed <==> Get(m, AddOnAllowed) !in FALSY)
    && (q.approvalPresent <==> Get(m, ApprovalPresent) !in FALSY)
    && q.economicsContext == Get(m, EconomicsContext) && q.strategyContext == Get(m, StrategyContext)
    && q.exposureEvidence == Get(m, GateEvidenceField)
  }

  lemma RouteEvaluates(env: Env, symbol: string, side: string, qty: real, m: Metadata, positions: seq<Value>,
                       action: Option<string>, context: map<string, Value>, maximum: Option<real>)
    ensures var v := RouteAndEvaluate(env, symbol, side, qty, m, positions, action, context, maximum);
            v.Evaluated? && EvaluatedWith(env, symbol, side, qty, m, positions, action, maximum, v.request)
            && v.request.protectiveContext == context && v.result == env.evaluate(v.request)
  {
    OrExactly(Get(m, AddOnAllowed), Nothing);
    OrExactly(Get(m, ApprovalPresent), Nothing);
  }

  /** The quote is judged only against a selected capability, and counts as fresh unless the candidate says. */
  ghost predicate QuotedWith(env: Env, m: Metadata, portal: Portal, quote: Value) {
    && (portal.selected == None ==> quote == Nothing)
    && (portal.selected.Some? ==>
          quote == env.quote(portal.selected, Get(m, MarketSessionOpen),
                             exists p :: Decimal(env, env.lastPrice) == Some(p) && p > 0.0,
                             if QuoteFresh in m then m[QuoteFresh] else Flag(true), Decimal(env, Get(m, SpreadBps))))
  }

  /** What the registry is asked first. */
  lemma FirstExactly(symbol: string, side: string, m: Metadata, action: Option<string>)
    ensures var q := FirstRequest(symbol, side, m, action);
            AsksFirst(symbol, if action == None || action == Some("") then side else action.value, m, q)
  {
    TextExactly(Get(m, OrderType));
    TextExactly(Get(m, TimeInForce));
  }

  /** What the order type and time in force become. */
  lemma DefaultsExactly(env: Env, symbol: string, side: string, m: Metadata, action: Option<string>, first: Portal)
    ensures var q := FirstRequest(symbol, side, m, action);
            && OrderTypeOf(env, m, first, OrderTypeAfter(env, q, first))
            && TimeInForceOf(m, first, TimeInForceAfter(q, first))
  {
    TextExactly(Get(m, OrderType));
    TextExactly(Get(m, TimeInForce));
  }

  lemma RoutedBy(env: Env, symbol: string, verb: string, m: Metadata, q: PortalRequest)
    requires AsksFirst(symbol, verb, m, q)
    requires OrderTypeOf(env, m, env.resolve(q), OrderTypeAfter(env, q, env.resolve(q)))
    requires TimeInForceOf(m, env.resolve(q), TimeInForceAfter(q, env.resolve(q)))
    ensures var first := env.resolve(q);
            Routed(env, symbol, verb, m, OrderTypeAfter(env, q, first), TimeInForceAfter(q, first),
                   PortalAfter(env, m, q, first))
  {
  }

  /** The candidate is routed as said, the evaluated order type lower-cased once more, and the quote goes with it. */
  lemma RouteRoutes(env: Env, symbol: string, side: string, qty: real, m: Metadata, positions: seq<Value>,
                    action: Option<string>, context: map<string, Value>, maximum: Option<real>)
    returns (orderType: string)
    ensures var q := RouteAndEvaluate(env, symbol, side, qty, m, positions, action, context, maximum).request;
            && Routed(env, symbol, if action == None || action == Some("") then side else action.value, m, orderType,
                      q.timeInForce, q.portal)
            && q.orderType == Lower(orderType) && QuotedWith(env, m, q.portal, q.quote)
  {
    var q := FirstRequest(symbol, side, m, action);
    var first := env.resolve(q);
    orderType := OrderTypeAfter(env, q, first);
    FirstExactly(symbol, side, m, action);
    DefaultsExactly(env, symbol, side, m, action, first);
    RoutedBy(env, symbol, if action == None || action == Some("") then side else action.value, m, q);
    QuoteExactly(env, m, PortalAfter(env, m, q, first));
  }

  lemma QuoteExactly(env: Env, m: Metadata, portal: Portal)
    ensures QuotedWith(env, m, portal, QuoteFor(env, m, portal))
  {
  }

  /** The protective context is the candidate's own, with the classification of a sell in it. */
  lemma ContextExactly(m: Metadata, k: Option<string>, key: string)
    ensures var given, context := Get(m, ProtectiveContext), ContextOf(m, k);
            && (k == None && given.Record? ==> context == given.d)
            && (k == None && !given.Record? ==> context == map[])
            && (forall s :: k == Some(s) ==>
                  context == (if given.Record? then given.d else map[])["sell_intent_classification" := Words(s)])
  {
  }

  lemma DecideEvaluates(env: Env, symbol: string, c: Candidate, k: Option<string>, positions: seq<Value>,
                        requested: Option<real>, maximum: Option<real>)
    requires Decide(env, symbol, c, k, positions, requested, maximum).1.Evaluated?
    ensures var (after, v) := Decide(env, symbol, c, k, positions, requested, maximum);
            v == RouteAndEvaluate(env, symbol, Lower(c.side), OrZero(Decimal(env, c.quantity)), after.metadata,
                                  positions, ActionFor(Lower(c.side), k), ContextOf(c.metadata, k), maximum)
  {
  }

  /** An evaluated candidate is routed and judged on the metadata the builder leaves behind. */
  lemma EvaluatedExactly(env: Env, symbol: string, c: Candidate) returns (orderType: string)
    requires BuildVerdict(env, symbol, c).1.Evaluated?
    ensures var (after, v) := BuildVerdict(env, symbol, c);
            var g := Gated(env, symbol, c);
            var action := v.request.action;
            && EvaluatedWith(env, symbol, Lower(g.side), OrZero(Decimal(env, g.quantity)), after.metadata,
                             Claimed(env, symbol, g.metadata, ExistingPositions), action, Bound(env, g), v.request)
            && Routed(env, symbol, if action == None || action == Some("") then Lower(g.side) else action.value,
                      after.metadata, orderType, v.request.timeInForce, v.request.portal)
            && v.request.orderType == Lower(orderType)
            && QuotedWith(env, after.metadata, v.request.portal, v.request.quote)
            && v.result == env.evaluate(v.request)
  {
    var g := Gated(env, symbol, c);
    var (m, k) := Classified(env, symbol, Lower(g.side), g.metadata);
    var positions := ClaimedPositions(env, symbol, g.metadata);
    var qty := OrZero(Decimal(env, g.quantity));
    var requested := Requested(env, g, qty);
    var maximum := OrDecimal(Decimal(env, Get(g.metadata, InternalMaxNotional)), requested);
    var after := BuildVerdict(env, symbol, c).0;
    var action, context := ActionFor(Lower(g.side), k), ContextOf(m, k);
    OrDecimalExactly(Decimal(env, Get(g.metadata, InternalMaxNotional)), requested);
    DecideEvaluates(env, symbol, g.(metadata := m), k, positions, requested, maximum);
    orderType := RouteRoutes(env, symbol, Lower(g.side), qty, after.metadata, positions, action, context, maximum);
    RouteEvaluates(env, symbol, Lower(g.side), qty, after.metadata, positions, action, context, maximum);
  }
}
