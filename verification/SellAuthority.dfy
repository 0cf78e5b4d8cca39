/** The portfolio risk gate, the sell classification and the pre-trade guardrail verdict of the dispatch path. */
module SellAuthority {
  import opened Options
  import opened Text

  /** A dynamically typed metadata value. */
  datatype Value =
    | Nothing
    | Flag(b: bool)
    | Number(n: real)
    | Words(s: string)
    | Record(d: map<string, Value>)
    | Many(items: seq<Value>)
    | GateRecord(e: GateEvidence)

  /** The keys of the signal metadata that the two functions touch; every other key is `Other`. */
  datatype Field =
    | BrokerInventoryEvidence | ExistingPositions | OpenOrders | Reservations
    | RunAcquiredQty | LotTrackingAvailable | BrokerPositionBacked
    | GateRequired | GatePolicyVersion | GateEvidenceField | SnapshotId
    | CorrelationPairs | CorrelationTruth | CorrelationTruthStatus | CorrelationSlashFactor
    | OriginalQuantity | AdjustedQuantity | SleeveName
    | ExecutionAction | Action | OrderAction | BrokerAction | BrokerIntent | SellIntent
    | ShortIntent | ShortAuthority | BrokerShortAuthority | BorrowAuthority
    | LocalSimPosition | SimPosition
    | AssetClass | OrderType | TimeInForce | RequestedNotional | InternalMaxNotional
    | ProtectiveContext | EconomicsContext | StrategyContext | AddOnAllowed | ApprovalPresent
    | MarketSessionOpen | QuoteFresh | SpreadBps
    | AcceptedPaperBaseline | PaperBaseline | BaselineAdoption | BaselineRuntimeContext | BaselineBlock
    | Other(name: string)

  type Metadata = map<Field, Value>

  /** The seven fields in which a strategy could claim inventory. */
  const AUTHORITY_FIELDS: set<Field> :=
    {BrokerInventoryEvidence, ExistingPositions, OpenOrders, Reservations, RunAcquiredQty, LotTrackingAvailable,
     BrokerPositionBacked}

  /** What the exposure manager knows about the broker's inventory of a symbol. */
  datatype Inventory = Inventory(
    required: bool, reconciled: bool, attributed: bool, lotTracking: bool,
    brokerQty: Option<real>, availableQty: Option<real>, botOwnedQty: Value, snapshotId: Option<string>)

  datatype GateEvidence = GateEvidence(
    authorized: bool, adjusted: bool, adjustedQuantity: Option<real>,
    originalQuantity: Value, adjustedNotional: Value, slashFactor: Value, code: string)

  datatype GateRequest = GateRequest(
    policyVersion: string, sleeve: Value, symbol: string, side: string, qty: real, price: real, action: Value,
    brokerPositionBacked: bool, correlationPairs: map<string, Value>, correlationTruthStatus: Value,
    existingPositions: seq<Value>, openOrders: seq<Value>, reservations: seq<Value>)

  datatype BaselineRequest = BaselineRequest(
    symbol: string, side: string, qty: real, baseline: Value, runAcquiredQty: Value, lotTracking: bool)

  datatype BaselineDecision = BaselineDecision(allowed: bool, code: string)

  datatype Capability = Capability(defaultOrderType: string, defaultTimeInForce: Option<string>)

  datatype PortalRequest = PortalRequest(
    symbol: string, assetClass: string, action: string, orderType: Option<string>, timeInForce: Option<string>)

  datatype Portal = Portal(selected: Option<Capability>, receipt: int)

  datatype GuardrailRequest = GuardrailRequest(
    symbol: string, side: string, action: Option<string>, orderType: string, timeInForce: Option<string>,
    quantity: real, currentPrice: Option<real>, internalMaxNotional: Option<real>, portal: Portal, quote: Value,
    existingPositions: seq<Value>, openOrders: seq<Value>, reservations: seq<Value>,
    addOnAllowed: bool, approvalPresent: bool, protectiveContext: map<string, Value>,
    economicsContext: Value, strategyContext: Value, exposureEvidence: Value)

  /** Configuration and the collaborators, each a function of exactly what it is passed. */
  datatype Env = Env(
    paperMode: bool, gateAlwaysOn: bool, policyVersion: string, configBaseline: Value, isAttack: bool,
    hasManager: bool, inventory: string -> Option<Inventory>, lastPrice: Value,
    parse: string -> Option<real>, gate: GateRequest -> GateEvidence,
    baseline: BaselineRequest -> BaselineDecision, resolve: PortalRequest -> Portal,
    quote: (Option<Capability>, Value, bool, Value, Option<real>) -> Value,
    evaluate: GuardrailRequest -> Value)

  datatype Candidate = Candidate(side: string, quantity: Value, price: Value, strategy: Value, metadata: Metadata)

  /** Which exit of the guardrail builder was taken. */
  datatype Verdict =
    | BaselineProtected(side: string, orderType: string, quantity: real, requested: Option<real>,
                        maximum: Option<real>, code: string)
    | NoBrokerIntent(side: string, orderType: string, requested: Option<real>, maximum: Option<real>,
                     classification: string)
    | Evaluated(request: GuardrailRequest, result: Value)

  function Get(m: Metadata, f: Field): Value {
    if f in m then m[f] else Nothing
  }

  function Truthy(v: Value): bool {
    match v
    case Nothing => false
    case Flag(b) => b
    case Number(n) => n != 0.0
    case Words(s) => s != ""
    case Record(d) => d != map[]
    case Many(items) => items != []
    case GateRecord(_) => true
  }

  predicate IsDict(v: Value) { v.Record? || v.GateRecord? }

  function Or(a: Value, b: Value): Value {
    if Truthy(a) then a else b
  }

  function Decimal(env: Env, v: Value): Option<real> {
    match v
    case Number(n) => Some(n)
    case Words(s) => env.parse(s)
    case _ => None
  }

  /** `x or y` on optional decimals: zero is falsy. */
  function OrDecimal(a: Option<real>, b: Option<real>): Option<real> {
    if a.Some? && a.value != 0.0 then a else b
  }

  function OrZero(a: Option<real>): real {
    if a.Some? then a.value else 0.0
  }

  function Records(items: seq<Value>): seq<Value> {
    if items == [] then [] else (if IsDict(items[0]) then [items[0]] else []) + Records(items[1..])
  }

  function MetadataSequence(v: Value): seq<Value> {
    match v
    case Record(_) => [v]
    case GateRecord(_) => [v]
    case Many(items) => Records(items)
    case _ => []
  }

  function Strip7(m: Metadata): Metadata {
    m - AUTHORITY_FIELDS
  }

  function InventoryOf(env: Env, symbol: string): Option<Inventory> {
    if env.hasManager then env.inventory(symbol) else None
  }

  predicate InventoryRequired(env: Env, symbol: string) {
    InventoryOf(env, symbol).Some? && InventoryOf(env, symbol).value.required
  }

  predicate GateEnabled(env: Env, symbol: string) {
    env.paperMode && (env.gateAlwaysOn || InventoryRequired(env, symbol))
  }

  // ---- _apply_portfolio_risk_gate_to_signal ----

  function BlockEvidence(code: string): GateEvidence {
    GateEvidence(false, false, None, Nothing, Nothing, Nothing, code)
  }

  function WithSnapshot(env: Env, symbol: string, m: Metadata): Metadata {
    var inv := InventoryOf(env, symbol);
    if inv.Some? && inv.value.snapshotId.Some? && inv.value.snapshotId.value != ""
    then m[SnapshotId := Words(inv.value.snapshotId.value)] else m
  }

  function Owned(env: Env, symbol: string, m: Metadata): Metadata {
    if InventoryRequired(env, symbol) then Strip7(m) else m
  }

  function DictOr(v: Value, w: Value): map<string, Value> {
    if v.Record? then v.d else if w.Record? then w.d else map[]
  }

  function GateRequestFor(env: Env, symbol: string, c: Candidate, m: Metadata, price: real, qty: real): GateRequest {
    var required := InventoryRequired(env, symbol);
    var inv := InventoryOf(env, symbol);
    GateRequest(
      env.policyVersion, Or(Get(m, SleeveName), c.strategy), symbol, c.side, qty, price,
      Or(Get(m, ExecutionAction), Or(Get(m, Action), Words(c.side))),
      if required then
        && inv.value.reconciled && inv.value.attributed && inv.value.availableQty.Some?
        && inv.value.availableQty.value >= qty
      else Get(m, BrokerPositionBacked) == Flag(true),
      DictOr(Get(m, CorrelationPairs), Get(m, CorrelationTruth)), Get(m, CorrelationTruthStatus),
      if required then [] else MetadataSequence(Get(m, ExistingPositions)),
      if required then [] else MetadataSequence(Get(m, OpenOrders)),
      if required then [] else MetadataSequence(Get(m, Reservations)))
  }

  function ApplyAdjustment(c: Candidate, m: Metadata, e: GateEvidence): Candidate {
    var recorded := m[GateEvidenceField := GateRecord(e)];
    if e.authorized && e.adjusted && e.adjustedQuantity.Some? && e.adjustedQuantity.value > 0.0 then
      c.(quantity := Number(e.adjustedQuantity.value),
         metadata := recorded[OriginalQuantity := e.originalQuantity]
                             [AdjustedQuantity := Number(e.adjustedQuantity.value)]
                     [RequestedNotional := e.adjustedNotional][CorrelationSlashFactor := e.slashFactor])
    else c.(metadata := recorded)
  }

  function GatePrice(env: Env, c: Candidate): Option<real> {
    OrDecimal(Decimal(env, env.lastPrice), Decimal(env, c.price))
  }

  function ApplyGate(env: Env, symbol: string, c: Candidate): (Candidate, GateEvidence) {
    var m := c.metadata[GateRequired := Flag(GateEnabled(env, symbol))][GatePolicyVersion := Words(env.policyVersion)];
    if !GateEnabled(env, symbol) then
      var e := GateEvidence(true, false, None, Nothing, Nothing, Nothing,
                            "PORTFOLIO_RISK_GATE_NOT_ENABLED_FOR_RUNTIME");
      (c.(metadata := m[GateEvidenceField := GateRecord(e)]), e)
    else if !env.hasManager then
      var e := BlockEvidence("EXPOSURE_MANAGER_EVIDENCE_MISSING");
      (c.(metadata := m[GateEvidenceField := GateRecord(e)]), e)
    else
      var price, qty := GatePrice(env, c), Decimal(env, c.quantity);
      if price.None? || price.value <= 0.0 || qty.None? || qty.value <= 0.0 then
        var e := BlockEvidence("PORTFOLIO_RISK_GATE_PRICE_OR_QTY_MISSING");
        (c.(metadata := m[GateEvidenceField := GateRecord(e)]), e)
      else
        var owned := Owned(env, symbol, WithSnapshot(env, symbol, m));
        var e := env.gate(GateRequestFor(env, symbol, c, owned, price.value, qty.value));
        (ApplyAdjustment(c, owned, e), e)
  }

  // ---- _classify_sell_intent and _execution_action_for_signal ----

  function DropSeparators(s: string): string {
    if s == "" then ""
    else (if s[0] == '/' || s[0] == '-' || s[0] == '_' then "" else [s[0]]) + DropSeparators(s[1..])
  }

  function PositionSymbol(s: string): string {
    Strip(DropSeparators(Upper(s)))
  }

  function Entry(v: Value, key: string, default: Value): Value {
    if v.Record? && key in v.d then v.d[key] else default
  }

  function HeldQuantity(env: Env, position: Value): Option<real> {
    Decimal(env, Entry(position, "quantity", Entry(position, "qty", Words("0"))))
  }

  predicate MatchesPositive(env: Env, symbol: string, position: Value) {
    var named := Entry(position, "symbol", Words(""));
    var qty := HeldQuantity(env, position);
    (if named.Words? then PositionSymbol(named.s) else "") == PositionSymbol(symbol) && qty.Some? && qty.value > 0.0
  }

  predicate HasPositivePosition(env: Env, symbol: string, positions: seq<Value>) {
    exists i :: 0 <= i < |positions| && MatchesPositive(env, symbol, positions[i])
  }

  predicate ShortIntended(m: Metadata) {
    var action := Or(Get(m, ExecutionAction), Or(Get(m, OrderAction), Get(m, BrokerAction)));
    || Get(m, ShortIntent) == Flag(true)
    || (action.Words? && (Lower(action.s) == "sell_short" || Lower(action.s) == "short"))
  }

  predicate ShortAuthorized(m: Metadata) {
    || Get(m, ShortAuthority) == Flag(true) || Get(m, BrokerShortAuthority) == Flag(true)
    || Get(m, BorrowAuthority) == Flag(true)
  }

  const EXIT_EXISTING := "SELL_EXIT_EXISTING_BROKER_POSITION"
  const AUTHORITY_MISSING := "SELL_AUTHORITY_MISSING"
  const EXIT_LOCAL := "SELL_EXIT_LOCAL_SIM_ONLY"
  const SHORT_OK := "SELL_SHORT_AUTHORIZED"
  const SHORT_MISSING := "SELL_SHORT_AUTHORITY_MISSING"
  const BEARISH := "BEARISH_NO_LONG"

  /** Reconciled and attributed broker inventory with something held and available. */
  predicate Sellable(inv: Inventory) {
    inv.reconciled && inv.attributed && OrZero(inv.brokerQty) > 0.0 && OrZero(inv.availableQty) > 0.0
  }

  function ClassifySell(env: Env, symbol: string, side: string, m: Metadata, positions: seq<Value>,
                        inv: Option<Inventory>): Option<string> {
    if Lower(side) != "sell" then None
    else if inv.Some? && inv.value.required then Some(if Sellable(inv.value) then EXIT_EXISTING else AUTHORITY_MISSING)
    else if HasPositivePosition(env, symbol, positions) then Some(EXIT_EXISTING)
    else
      var local := Or(Get(m, LocalSimPosition), Get(m, SimPosition));
      if local.Record? && OrZero(HeldQuantity(env, local)) > 0.0 then Some(EXIT_LOCAL)
      else if ShortIntended(m) then Some(if ShortAuthorized(m) then SHORT_OK else SHORT_MISSING)
      else Some(BEARISH)
  }

  function ActionFor(side: string, classification: Option<string>): Option<string> {
    if Lower(side) == "buy" then Some("buy")
    else if Lower(side) != "sell" then (if side == "" then None else Some(Lower(side)))
    else if classification == Some(EXIT_EXISTING) then Some("sell_to_close")
    else if classification == Some(SHORT_OK) then Some("sell_short")
    else None
  }

  // ---- _build_pre_trade_guardrail_verdict ----

  function InferAssetClass(symbol: string, m: Metadata): string {
    var given := Get(m, AssetClass);
    if Truthy(given) then (if given.Words? then Lower(given.s) else "")
    else if '/' in Upper(symbol) then "crypto"
    else if Upper(symbol) == "SPY" || Upper(symbol) == "QQQ" || Upper(symbol) == "DIA" then "etf"
    else "equity"
  }

  function TextOf(v: Value): Option<string> {
    if v.Words? && v.s != "" then Some(v.s) else None
  }

  predicate AcceptedBaseline(v: Value) {
    v.Record? && (Entry(v, "accepted", Nothing) == Flag(true) || IsDict(Entry(v, "baseline_snapshot", Nothing)))
  }

  function BaselineOf(env: Env, m: Metadata): Value {
    if AcceptedBaseline(Get(m, AcceptedPaperBaseline)) then Get(m, AcceptedPaperBaseline)
    else if AcceptedBaseline(Get(m, PaperBaseline)) then Get(m, PaperBaseline)
    else if AcceptedBaseline(Get(m, BaselineAdoption)) then Get(m, BaselineAdoption)
    else if env.configBaseline.Record? && Entry(env.configBaseline, "baseline_loaded", Nothing) == Flag(true) then
      env.configBaseline
    else Nothing
  }

  function BaselineRequestFor(env: Env, symbol: string, side: string, qty: real, m: Metadata): BaselineRequest {
    var inv := InventoryOf(env, symbol);
    var required := InventoryRequired(env, symbol);
    BaselineRequest(symbol, side, qty, BaselineOf(env, m),
                    if required then inv.value.botOwnedQty else Get(m, RunAcquiredQty),
                    if required then inv.value.lotTracking else Get(m, LotTrackingAvailable) == Flag(true))
  }

  function ShouldApplyGate(env: Env, symbol: string, m: Metadata): bool {
    && GateEnabled(env, symbol) && !IsDict(Get(m, GateEvidenceField))
    && (env.hasManager || Get(m, GateRequired) == Flag(true))
  }

  function Requested(env: Env, c: Candidate, qty: real): Option<real> {
    var given := Decimal(env, Get(c.metadata, RequestedNotional));
    var price := Decimal(env, env.lastPrice);
    if given.Some? then given
    else if price.Some? && qty > 0.0 then Some(if qty * price.value < 0.0
                                               then -(qty * price.value) else qty * price.value)
    else None
  }

  function FallbackOrderType(env: Env, given: Option<string>): string {
    if given.Some? then given.value else if env.isAttack then "limit" else "market"
  }

  /** The metadata after the inventory strip and the sell classification are written into it. */
  function Classified(env: Env, symbol: string, side: string, m: Metadata): (Metadata, Option<string>) {
    var owned := WithSnapshot(env, symbol, Owned(env, symbol, m));
    var k := ClassifySell(env, symbol, side, owned, ClaimedPositions(env, symbol, m), InventoryOf(env, symbol));
    var action := ActionFor(side, k);
    var noted := if k.Some? then owned[SellIntent := Words(k.value)] else owned;
    var verb := if action.Some? then Words(action.value) else Nothing;
    (noted[ExecutionAction := verb][BrokerIntent := Flag(action.Some?)], k)
  }

  function ContextOf(m: Metadata, k: Option<string>): map<string, Value> {
    var given := if Get(m, ProtectiveContext).Record? then Get(m, ProtectiveContext).d else map[];
    if k.Some? then given["sell_intent_classification" := Words(k.value)] else given
  }

  /** What the registry is asked first: order type and time in force only as the candidate gives them. */
  function FirstRequest(symbol: string, side: string, m: Metadata, action: Option<string>): PortalRequest {
    var givenType, givenTif := TextOf(Get(m, OrderType)), TextOf(Get(m, TimeInForce));
    PortalRequest(symbol, InferAssetClass(symbol, m),
                  if action.Some? && action.value != "" then action.value else side,
                  if givenType.Some? then Some(Lower(givenType.value)) else None,
                  if givenTif.Some? then Some(Upper(givenTif.value)) else None)
  }

  function OrderTypeAfter(env: Env, q: PortalRequest, first: Portal): string {
    if q.orderType.Some? then q.orderType.value
    else if first.selected.Some? && first.selected.value.defaultOrderType != ""
    then first.selected.value.defaultOrderType
    else FallbackOrderType(env, None)
  }

  function TimeInForceAfter(q: PortalRequest, first: Portal): Option<string> {
    if q.timeInForce.Some? then q.timeInForce
    else if first.selected.Some? then first.selected.value.defaultTimeInForce else None
  }

  /** The registry is asked again with the defaults filled in. */
  function PortalAfter(env: Env, m: Metadata, q: PortalRequest, first: Portal): Portal {
    var tif := TimeInForceAfter(q, first);
    var open := Get(m, OrderType) == Nothing || Get(m, TimeInForce) == Nothing;
    if first.selected.Some? && open && tif.Some? && tif.value != ""
    then env.resolve(q.(orderType := Some(OrderTypeAfter(env, q, first)), timeInForce := tif)) else first
  }

  function QuoteFor(env: Env, m: Metadata, portal: Portal): Value {
    var price := Decimal(env, env.lastPrice);
    if portal.selected.Some?
    then env.quote(portal.selected, Get(m, MarketSessionOpen), price.Some? && price.value > 0.0,
                   if QuoteFresh in m then m[QuoteFresh] else Flag(true), Decimal(env, Get(m, SpreadBps)))
    else Nothing
  }

  /**
   * The routing and evaluation tail, reached when neither the baseline nor a missing sell authority stopped the
   * candidate.
   */
  function RouteAndEvaluate(env: Env, symbol: string, side: string, qty: real, m: Metadata, positions: seq<Value>,
                            action: Option<string>, context: map<string, Value>, maximum: Option<real>): Verdict {
    var required := InventoryRequired(env, symbol);
    var q := FirstRequest(symbol, side, m, action);
    var first := env.resolve(q);
    var portal := PortalAfter(env, m, q, first);
    var request := GuardrailRequest(
      symbol, side, action, Lower(OrderTypeAfter(env, q, first)), TimeInForceAfter(q, first), qty,
      Decimal(env, env.lastPrice), maximum, portal, QuoteFor(env, m, portal), positions,
      if required then [] else MetadataSequence(Get(m, OpenOrders)),
      if required then [] else MetadataSequence(Get(m, Reservations)),
      Truthy(Get(m, AddOnAllowed)), Truthy(Get(m, ApprovalPresent)), context,
      Get(m, EconomicsContext), Get(m, StrategyContext), Get(m, GateEvidenceField));
    Evaluated(request, env.evaluate(request))
  }

  /** The candidate after the gate has been applied if it had not been. */
  function Gated(env: Env, symbol: string, c: Candidate): Candidate {
    if ShouldApplyGate(env, symbol, c.metadata) then ApplyGate(env, symbol, c).0 else c
  }

  /** What follows the classification `k`; `c` already carries the classified metadata. */
  function Decide(env: Env, symbol: string, c: Candidate, k: Option<string>, positions: seq<Value>,
                  requested: Option<real>, maximum: Option<real>): (Candidate, Verdict) {
    var qty, side, m := OrZero(Decimal(env, c.quantity)), Lower(c.side), c.metadata;
    var action := ActionFor(side, k);
    var given := TextOf(Get(m, OrderType));
    var orderType := FallbackOrderType(env, if given.Some? then Some(Lower(given.value)) else None);
    var guarded := BaselineOf(env, m) != Nothing && (side == "buy" || side == "sell");
    var decision := env.baseline(BaselineRequestFor(env, symbol, side, qty, m));
    var m' := if guarded && BaselineRuntimeContext !in m then m[BaselineRuntimeContext := BaselineOf(env, m)] else m;
    if guarded && !decision.allowed then
      (c.(metadata := m'[BrokerIntent := Flag(false)][BaselineBlock := Words(decision.code)]),
       BaselineProtected(side, orderType, qty, requested, maximum, decision.code))
    else if side == "sell" && action.None? then
      (c.(metadata := m'),
       NoBrokerIntent(side, orderType, requested, maximum, if k.Some? then k.value else AUTHORITY_MISSING))
    else
      (c.(metadata := m'), RouteAndEvaluate(env, symbol, side, qty, m', positions, action, ContextOf(m, k), maximum))
  }

  /** Positions the metadata may contribute: none when the broker's inventory is required. */
  function ClaimedPositions(env: Env, symbol: string, m: Metadata): seq<Value> {
    if InventoryRequired(env, symbol) then [] else MetadataSequence(Get(m, ExistingPositions))
  }

  function BuildVerdict(env: Env, symbol: string, c: Candidate): (Candidate, Verdict) {
    var g := Gated(env, symbol, c);
    var requested := Requested(env, g, OrZero(Decimal(env, g.quantity)));
    var maximum := OrDecimal(Decimal(env, Get(g.metadata, InternalMaxNotional)), requested);
    var (m, k) := Classified(env, symbol, Lower(g.side), g.metadata);
    Decide(env, symbol, g.(metadata := m), k, ClaimedPositions(env, symbol, g.metadata), requested, maximum)
  }

  // ---- Independence of the strategy's inventory claims ----

  /** Equal on every metadata key outside the seven authority fields. */
  ghost predicate AgreeOff(m: Metadata, n: Metadata) {
    Strip7(m) == Strip7(n)
  }

  /** The two candidates differ at most in the seven authority fields. */
  ghost predicate DifferOnlyInClaims(c: Candidate, d: Candidate) {
    c.(metadata := map[]) == d.(metadata := map[]) && AgreeOff(c.metadata, d.metadata)
  }

  lemma AgreeGet(m: Metadata, n: Metadata, f: Field)
    requires AgreeOff(m, n) && f !in AUTHORITY_FIELDS
    ensures Get(m, f) == Get(n, f) && (f in m <==> f in n)
  {
    assert f in m <==> f in Strip7(m);
    assert f in n <==> f in Strip7(n);
    assert f in m ==> m[f] == Strip7(m)[f];
    assert f in n ==> n[f] == Strip7(n)[f];
  }

  lemma AgreeSet(m: Metadata, n: Metadata, f: Field, v: Value)
    requires AgreeOff(m, n)
    ensures AgreeOff(m[f := v], n[f := v])
  {
    StripSet(m, f, v);
    StripSet(n, f, v);
  }

  lemma StripSet(m: Metadata, f: Field, v: Value)
    ensures Strip7(m[f := v]) == if f in AUTHORITY_FIELDS then Strip7(m) else Strip7(m)[f := v]
  {
  }

  /** The gate gives both candidates the same evidence and leaves them differing at most in their claims. */
  lemma GateIgnoresClaims(env: Env, symbol: string, c: Candidate, d: Candidate)
    requires InventoryRequired(env, symbol) && DifferOnlyInClaims(c, d)
    ensures ApplyGate(env, symbol, c).1 == ApplyGate(env, symbol, d).1
    ensures DifferOnlyInClaims(ApplyGate(env, symbol, c).0, ApplyGate(env, symbol, d).0)
  {
    var f1, f2 := Flag(GateEnabled(env, symbol)), Words(env.policyVersion);
    AgreeSet(c.metadata, d.metadata, GateRequired, f1);
    AgreeSet(c.metadata[GateRequired := f1], d.metadata[GateRequired := f1], GatePolicyVersion, f2);
    var m, n := c.metadata[GateRequired := f1][GatePolicyVersion := f2],
                d.metadata[GateRequired := f1][GatePolicyVersion := f2];
    var price, qty := GatePrice(env, c), Decimal(env, c.quantity);
    if GateEnabled(env, symbol) && price.Some? && price.value > 0.0 && qty.Some? && qty.value > 0.0 {
      SnapshotAgrees(env, symbol, m, n);
      assert Owned(env, symbol, WithSnapshot(env, symbol, m)) == Owned(env, symbol, WithSnapshot(env, symbol, n));
    } else {
      AgreeSet(m, n, GateEvidenceField, GateRecord(ApplyGate(env, symbol, c).1));
    }
  }

  lemma SnapshotAgrees(env: Env, symbol: string, m: Metadata, n: Metadata)
    requires AgreeOff(m, n)
    ensures AgreeOff(WithSnapshot(env, symbol, m), WithSnapshot(env, symbol, n))
  {
    var inv := InventoryOf(env, symbol);
    if inv.Some? && inv.value.snapshotId.Some? {
      AgreeSet(m, n, SnapshotId, Words(inv.value.snapshotId.value));
    }
  }

  lemma ClassifiedIgnoresClaims(env: Env, symbol: string, side: string, m: Metadata, n: Metadata)
    requires InventoryRequired(env, symbol) && AgreeOff(m, n)
    ensures Classified(env, symbol, side, m) == Classified(env, symbol, side, n)
  {
    assert Owned(env, symbol, m) == Owned(env, symbol, n);
  }

  /**
   * Two-run independence: with broker inventory required, candidates differing only in the seven claim fields get the
   * same portfolio evidence, classification, execution action, written-back metadata and final verdict.
   */
  lemma VerdictIgnoresClaims(env: Env, symbol: string, c: Candidate, d: Candidate)
    requires InventoryRequired(env, symbol) && DifferOnlyInClaims(c, d)
    ensures BuildVerdict(env, symbol, c) == BuildVerdict(env, symbol, d)
  {
    AgreeGet(c.metadata, d.metadata, GateEvidenceField);
    AgreeGet(c.metadata, d.metadata, GateRequired);
    GateIgnoresClaims(env, symbol, c, d);
    var g, h := Gated(env, symbol, c), Gated(env, symbol, d);
    assert DifferOnlyInClaims(g, h);
    AgreeGet(g.metadata, h.metadata, RequestedNotional);
    AgreeGet(g.metadata, h.metadata, InternalMaxNotional);
    ClassifiedIgnoresClaims(env, symbol, Lower(g.side), g.metadata, h.metadata);
    var m := Classified(env, symbol, Lower(g.side), g.metadata).0;
    assert g.(metadata := m) == h.(metadata := m);
  }

  /** The dispatch order, gate first and guardrail second, is independent of the claims as well. */
  lemma DispatchIgnoresClaims(env: Env, symbol: string, c: Candidate, d: Candidate)
    requires InventoryRequired(env, symbol) && DifferOnlyInClaims(c, d)
    ensures BuildVerdict(env, symbol, ApplyGate(env, symbol, c).0)
            == BuildVerdict(env, symbol, ApplyGate(env, symbol, d).0)
  {
    GateIgnoresClaims(env, symbol, c, d);
    VerdictIgnoresClaims(env, symbol, ApplyGate(env, symbol, c).0, ApplyGate(env, symbol, d).0);
  }

  // ---- What a sell needs ----

  /**
   * The protected baseline refuses the candidate: it is given, the side trades, and the evaluator of the baseline
   * says no.
   */
  predicate BaselineBlocks(env: Env, symbol: string, c: Candidate) {
    var qty, side := OrZero(Decimal(env, c.quantity)), Lower(c.side);
    && BaselineOf(env, c.metadata) != Nothing && (side == "buy" || side == "sell")
    && !env.baseline(BaselineRequestFor(env, symbol, side, qty, c.metadata)).allowed
  }

  /** A long position simulated locally. */
  predicate LocalHeld(env: Env, m: Metadata) {
    var local := Or(Get(m, LocalSimPosition), Get(m, SimPosition));
    local.Record? && OrZero(HeldQuantity(env, local)) > 0.0
  }

  /** After the classification a sell is evaluated exactly when it has an action and the baseline does not refuse it. */
  lemma SellNeedsAction(env: Env, symbol: string, c: Candidate, k: Option<string>, positions: seq<Value>,
                        requested: Option<real>, maximum: Option<real>)
    requires Lower(c.side) == "sell"
    ensures var v := Decide(env, symbol, c, k, positions, requested, maximum).1;
            && (v.BaselineProtected? <==> BaselineBlocks(env, symbol, c))
            && (v.Evaluated? <==> ActionFor("sell", k).Some? && !BaselineBlocks(env, symbol, c))
            && (v.Evaluated? ==> v.request.action == ActionFor("sell", k) && v.request.side == "sell"
                                 && v.request.existingPositions == positions)
            && (v.Evaluated? && InventoryRequired(env, symbol)
                ==> v.request.openOrders == [] && v.request.reservations == [])
            && (v.NoBrokerIntent? && k.Some? ==> v.classification == k.value)
  {
  }

  /**
   * A classified sell closes what is held, or opens a short intended and authorised with nothing held, or has no
   * action.
   */
  lemma ActionOfClassified(env: Env, symbol: string, m: Metadata, positions: seq<Value>, inv: Option<Inventory>)
    ensures ActionFor("sell", ClassifySell(env, symbol, "sell", m, positions, inv))
            == if inv.Some? && inv.value.required then (if Sellable(inv.value) then Some("sell_to_close") else None)
               else if HasPositivePosition(env, symbol, positions) then Some("sell_to_close")
               else if !LocalHeld(env, m) && ShortIntended(m) && ShortAuthorized(m) then Some("sell_short")
               else None
  {
    assert Lower("sell") == "sell";
  }

  /** Neither the strip nor the classification touches what the baseline guard reads. */
  lemma ClassifiedKeepsBaseline(env: Env, symbol: string, g: Candidate)
    ensures var (m, _) := Classified(env, symbol, Lower(g.side), g.metadata);
            BaselineBlocks(env, symbol, g.(metadata := m)) == BaselineBlocks(env, symbol, g)
  {
    var (m, _) := Classified(env, symbol, Lower(g.side), g.metadata);
    assert Get(m, AcceptedPaperBaseline) == Get(g.metadata, AcceptedPaperBaseline);
    assert Get(m, PaperBaseline) == Get(g.metadata, PaperBaseline);
    assert Get(m, BaselineAdoption) == Get(g.metadata, BaselineAdoption);
    assert BaselineOf(env, m) == BaselineOf(env, g.metadata);
    var qty := OrZero(Decimal(env, g.quantity));
    assert BaselineRequestFor(env, symbol, Lower(g.side), qty, m)
           == BaselineRequestFor(env, symbol, Lower(g.side), qty, g.metadata);
  }

  /** The verdict on a sell, by the classified metadata. */
  lemma SellVerdict(env: Env, symbol: string, c: Candidate, g: Candidate)
    requires Lower(c.side) == "sell" && g == Gated(env, symbol, c)
    ensures var v, positions := BuildVerdict(env, symbol, c).1, ClaimedPositions(env, symbol, g.metadata);
            var k := Classified(env, symbol, "sell", g.metadata).1;
            && (v.Evaluated? <==> ActionFor("sell", k).Some? && !BaselineBlocks(env, symbol, g))
            && (v.Evaluated? ==> v.request.action == ActionFor("sell", k) && v.request.side == "sell"
                                 && v.request.existingPositions == positions)
            && (v.Evaluated? && InventoryRequired(env, symbol)
                ==> v.request.openOrders == [] && v.request.reservations == [])
            && (v.NoBrokerIntent? && k.Some? ==> v.classification == k.value)
  {
    var requested := Requested(env, g, OrZero(Decimal(env, g.quantity)));
    var maximum := OrDecimal(Decimal(env, Get(g.metadata, InternalMaxNotional)), requested);
    var (m, k) := Classified(env, symbol, "sell", g.metadata);
    ClassifiedKeepsBaseline(env, symbol, g);
    SellNeedsAction(env, symbol, g.(metadata := m), k, ClaimedPositions(env, symbol, g.metadata), requested, maximum);
  }

  /**
   * Under required broker inventory a sell reaches the evaluator exactly when the inventory is sellable and the
   * baseline does not refuse.
   */
  lemma SellNeedsBrokerInventory(env: Env, symbol: string, c: Candidate)
    requires InventoryRequired(env, symbol) && Lower(c.side) == "sell"
    ensures var v := BuildVerdict(env, symbol, c).1;
            && (v.Evaluated? <==>
                  Sellable(InventoryOf(env, symbol).value) && !BaselineBlocks(env, symbol, Gated(env, symbol, c)))
            && (v.NoBrokerIntent? ==> v.classification == AUTHORITY_MISSING)
            && (v.Evaluated? ==> v.request.action == Some("sell_to_close") && v.request.side == "sell"
                                 && v.request.existingPositions == [] && v.request.openOrders == []
                                 && v.request.reservations == [])
  {
    var g := Gated(env, symbol, c);
    SellVerdict(env, symbol, c, g);
    ActionOfClassified(env, symbol, WithSnapshot(env, symbol, Owned(env, symbol, g.metadata)), [],
                       InventoryOf(env, symbol));
    assert Lower("sell") == "sell";
  }

  /**
   * Without it, a sell reaches the evaluator exactly to close a claimed positive position, or to open an authorised
   * short with nothing held locally, when the baseline does not refuse.
   */
  lemma SellNeedsClaimOrShort(env: Env, symbol: string, c: Candidate)
    requires !InventoryRequired(env, symbol) && Lower(c.side) == "sell"
    ensures var v, g := BuildVerdict(env, symbol, c).1, Gated(env, symbol, c);
            var closes := HasPositivePosition(env, symbol, MetadataSequence(Get(g.metadata, ExistingPositions)));
            var shorts := !LocalHeld(env, g.metadata) && ShortIntended(g.metadata) && ShortAuthorized(g.metadata);
            && (v.Evaluated? <==> (closes || shorts) && !BaselineBlocks(env, symbol, g))
            && (v.Evaluated? ==> v.request.action == Some(if closes then "sell_to_close" else "sell_short"))
  {
    var g := Gated(env, symbol, c);
    SellVerdict(env, symbol, c, g);
    SnapshotKeepsShort(env, symbol, g.metadata);
    ActionOfClassified(env, symbol, WithSnapshot(env, symbol, g.metadata), ClaimedPositions(env, symbol, g.metadata),
                       InventoryOf(env, symbol));
  }

  lemma SnapshotKeepsShort(env: Env, symbol: string, m: Metadata)
    ensures var n := WithSnapshot(env, symbol, m);
            && LocalHeld(env, n) == LocalHeld(env, m) && ShortIntended(n) == ShortIntended(m)
            && ShortAuthorized(n) == ShortAuthorized(m)
  {
  }

  // ---- The functions as the source runs them: the metadata dictionary is changed in place ----

  class StrategySignal {
    const side: string
    const price: Value
    const strategy: Value
    var quantity: Value
    var metadata: Metadata

    function View(): Candidate
      reads this
    {
      Candidate(side, quantity, price, strategy, metadata)
    }

    constructor (c: Candidate)
      ensures View() == c
    {
      side, price, strategy, quantity, metadata := c.side, c.price, c.strategy, c.quantity, c.metadata;
    }
  }

  method ApplyPortfolioRiskGate(env: Env, symbol: string, signal: StrategySignal) returns (evidence: GateEvidence)
    modifies signal
    ensures (signal.View(), evidence) == ApplyGate(env, symbol, old(signal.View()))
  {
    var enabled := GateEnabled(env, symbol);
    signal.metadata := signal.metadata[GateRequired := Flag(enabled)];
    signal.metadata := signal.metadata[GatePolicyVersion := Words(env.policyVersion)];
    if !enabled {
      evidence := GateEvidence(true, false, None, Nothing, Nothing, Nothing,
                               "PORTFOLIO_RISK_GATE_NOT_ENABLED_FOR_RUNTIME");
      signal.metadata := signal.metadata[GateEvidenceField := GateRecord(evidence)];
      return;
    }
    if !env.hasManager {
      evidence := BlockEvidence("EXPOSURE_MANAGER_EVIDENCE_MISSING");
      signal.metadata := signal.metadata[GateEvidenceField := GateRecord(evidence)];
      return;
    }
    var price := GatePrice(env, signal.View());
    var qty := Decimal(env, signal.quantity);
    if price.None? || price.value <= 0.0 || qty.None? || qty.value <= 0.0 {
      evidence := BlockEvidence("PORTFOLIO_RISK_GATE_PRICE_OR_QTY_MISSING");
      signal.metadata := signal.metadata[GateEvidenceField := GateRecord(evidence)];
      return;
    }
    signal.metadata := WithSnapshot(env, symbol, signal.metadata);
    if InventoryRequired(env, symbol) {
      signal.metadata := Strip7(signal.metadata);
    }
    evidence := env.gate(GateRequestFor(env, symbol, signal.View(), signal.metadata, price.value, qty.value));
    signal.metadata := signal.metadata[GateEvidenceField := GateRecord(evidence)];
    if evidence.authorized && evidence.adjusted && evidence.adjustedQuantity.Some?
       && evidence.adjustedQuantity.value > 0.0 {
      signal.quantity := Number(evidence.adjustedQuantity.value);
      signal.metadata := signal.metadata[OriginalQuantity := evidence.originalQuantity];
      signal.metadata := signal.metadata[AdjustedQuantity := Number(evidence.adjustedQuantity.value)];
      signal.metadata := signal.metadata[RequestedNotional := evidence.adjustedNotional];
      signal.metadata := signal.metadata[CorrelationSlashFactor := evidence.slashFactor];
    }
  }

  /**
   * Strip the claims if the broker's inventory is required, then write the classification and action into the
   * metadata.
   */
  method WriteClassification(env: Env, symbol: string, signal: StrategySignal) returns (k: Option<string>)
    modifies signal
    ensures signal.quantity == old(signal.quantity)
    ensures (signal.metadata, k) == Classified(env, symbol, Lower(signal.side), old(signal.metadata))
  {
    var side := Lower(signal.side);
    var positions := ClaimedPositions(env, symbol, signal.metadata);
    if InventoryRequired(env, symbol) {
      signal.metadata := Strip7(signal.metadata);
    }
    signal.metadata := WithSnapshot(env, symbol, signal.metadata);
    k := ClassifySell(env, symbol, side, signal.metadata, positions, InventoryOf(env, symbol));
    var action := ActionFor(side, k);
    if k.Some? {
      signal.metadata := signal.metadata[SellIntent := Words(k.value)];
    }
    signal.metadata := signal.metadata[ExecutionAction := if action.Some? then Words(action.value) else Nothing];
    signal.metadata := signal.metadata[BrokerIntent := Flag(action.Some?)];
  }

  /** The protected baseline, the missing sell authority, or routing and evaluation. */
  method DecideVerdict(env: Env, symbol: string, signal: StrategySignal, k: Option<string>, positions: seq<Value>,
                       requested: Option<real>, maximum: Option<real>) returns (v: Verdict)
    modifies signal
    ensures (signal.View(), v) == Decide(env, symbol, old(signal.View()), k, positions, requested, maximum)
  {
    var m := signal.metadata;
    var side, qty := Lower(signal.side), OrZero(Decimal(env, signal.quantity));
    var action := ActionFor(side, k);
    var given := TextOf(Get(m, OrderType));
    var orderType := FallbackOrderType(env, if given.Some? then Some(Lower(given.value)) else None);
    if BaselineOf(env, m) != Nothing && (side == "buy" || side == "sell") {
      if BaselineRuntimeContext !in signal.metadata {
        signal.metadata := signal.metadata[BaselineRuntimeContext := BaselineOf(env, m)];
      }
      var decision := env.baseline(BaselineRequestFor(env, symbol, side, qty, m));
      if !decision.allowed {
        signal.metadata := signal.metadata[BrokerIntent := Flag(false)];
        signal.metadata := signal.metadata[BaselineBlock := Words(decision.code)];
        return BaselineProtected(side, orderType, qty, requested, maximum, decision.code);
      }
    }
    if side == "sell" && action.None? {
      return NoBrokerIntent(side, orderType, requested, maximum, if k.Some? then k.value else AUTHORITY_MISSING);
    }
    return RouteAndEvaluate(env, symbol, side, qty, signal.metadata, positions, action, ContextOf(m, k), maximum);
  }

  method BuildPreTradeGuardrailVerdict(env: Env, symbol: string, signal: StrategySignal) returns (v: Verdict)
    modifies signal
    ensures (signal.View(), v) == BuildVerdict(env, symbol, old(signal.View()))
  {
    if ShouldApplyGate(env, symbol, signal.metadata) {
      var evidence := ApplyPortfolioRiskGate(env, symbol, signal);
    }
    var requested := Requested(env, signal.View(), OrZero(Decimal(env, signal.quantity)));
    var maximum := OrDecimal(Decimal(env, Get(signal.metadata, InternalMaxNotional)), requested);
    var positions := ClaimedPositions(env, symbol, signal.metadata);
    var k := WriteClassification(env, symbol, signal);
    v := DecideVerdict(env, symbol, signal, k, positions, requested, maximum);
  }
}
