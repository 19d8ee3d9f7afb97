/** Opportunity ingestion and listing: request validation, the net-return
    figure fixed at creation, the optional listing filters with sorting and
    pagination, the multi-exchange listing, and the summary statistics. */
module Opportunities {
  import opened Common
  import opened Ordering
  import opened Paging
  import opened Models

  const SecondsPerDay: int := 86400

  /** Body of a create call. */
  datatype CreateRequest = CreateRequest(
    opportunityClass: Tag,
    estimatedReturnPercent: real,
    capitalRequiredUsd: real,
    durationHours: real,
    riskLevel: Tag,
    sourceExchanges: seq<string>,
    tokenSymbol: Option<string>,
    tokenName: Option<string>,
    gasCostUsd: real,
    tradingFeesPercent: real,
    notes: string)

  /** The request with only the required fields; costs take their defaults. */
  function DefaultRequest(opportunityClass: Tag, estimatedReturnPercent: real, capitalRequiredUsd: real,
                          durationHours: real, riskLevel: Tag, sourceExchanges: seq<string>): CreateRequest
  {
    CreateRequest(opportunityClass, estimatedReturnPercent, capitalRequiredUsd, durationHours, riskLevel,
                  sourceExchanges, None, None, DefaultGasCostUsd, DefaultTradingFeesPercent, "")
  }

  /** `field` names a request field whose declared range `req` breaks. */
  predicate Violates(req: CreateRequest, field: string)
  {
    || (field == "estimated_return_percent" && req.estimatedReturnPercent < 0.0)
    || (field == "capital_required_usd" && req.capitalRequiredUsd <= 0.0)
    || (field == "duration_hours" && req.durationHours <= 0.0)
    || (field == "source_exchanges" && |req.sourceExchanges| == 0)
    || (field == "gas_cost_usd" && req.gasCostUsd < 0.0)
    || (field == "trading_fees_percent" && req.tradingFeesPercent < 0.0)
  }

  /** Field-range validation of a create request. */
  function Validate(req: CreateRequest): (r: Result<CreateRequest>)
    ensures r.Ok? ==> r.value == req
    ensures r.Ok? <==> forall field :: !Violates(req, field)
    ensures r.Err? ==> r.error.Invalid? && Violates(req, r.error.field)
  {
    if req.estimatedReturnPercent < 0.0 then
      assert Violates(req, "estimated_return_percent");
      Err(Invalid("estimated_return_percent"))
    else if req.capitalRequiredUsd <= 0.0 then
      assert Violates(req, "capital_required_usd");
      Err(Invalid("capital_required_usd"))
    else if req.durationHours <= 0.0 then
      assert Violates(req, "duration_hours");
      Err(Invalid("duration_hours"))
    else if |req.sourceExchanges| == 0 then
      assert Violates(req, "source_exchanges");
      Err(Invalid("source_exchanges"))
    else if req.gasCostUsd < 0.0 then
      assert Violates(req, "gas_cost_usd");
      Err(Invalid("gas_cost_usd"))
    else if req.tradingFeesPercent < 0.0 then
      assert Violates(req, "trading_fees_percent");
      Err(Invalid("trading_fees_percent"))
    else Ok(req)
  }

  /** Return left after gas (as a share of the capital) and trading fees. */
  function NetReturn(estimatedReturnPercent: real, capitalRequiredUsd: real,
                     gasCostUsd: real, tradingFeesPercent: real): (n: real)
    requires capitalRequiredUsd > 0.0
    ensures gasCostUsd >= 0.0 && tradingFeesPercent >= 0.0 ==> n <= estimatedReturnPercent
    ensures (estimatedReturnPercent - n - tradingFeesPercent) * capitalRequiredUsd == gasCostUsd * 100.0
  {
    estimatedReturnPercent - (gasCostUsd / capitalRequiredUsd) * 100.0 - tradingFeesPercent
  }

  /** The stored net return agrees with the record's own cost inputs. */
  ghost predicate NetReturnConsistent(o: Opportunity)
  {
    o.capitalRequiredUsd > 0.0 && o.netReturnPercent.Some? &&
    o.netReturnPercent.value ==
      NetReturn(o.estimatedReturnPercent, o.capitalRequiredUsd, o.gasCostUsd, o.tradingFeesPercent)
  }

  /** Builds the stored opportunity for an accepted request at time `now`. */
  function CreateOpportunity(req: CreateRequest, now: int): (r: Result<Opportunity>)
    ensures r.Err? <==> exists field :: Violates(req, field)
    ensures r.Err? ==> r.error.Invalid? && Violates(req, r.error.field)
    ensures r.Ok? ==> r.value.Valid() && NetReturnConsistent(r.value)
    ensures r.Ok? ==> r.value.netReturnPercent.value <= r.value.estimatedReturnPercent
    ensures r.Ok? ==> && r.value.estimatedReturnPercent == req.estimatedReturnPercent
                      && r.value.capitalRequiredUsd == req.capitalRequiredUsd
                      && r.value.durationHours == req.durationHours
                      && r.value.sourceExchanges == req.sourceExchanges
                      && r.value.tokenSymbol == req.tokenSymbol
                      && r.value.gasCostUsd == req.gasCostUsd
                      && r.value.tradingFeesPercent == req.tradingFeesPercent
    ensures r.Ok? ==> && r.value.opportunityClass == req.opportunityClass
                      && r.value.riskLevel == req.riskLevel
                      && r.value.tokenName == req.tokenName
                      && r.value.notes == req.notes
    ensures r.Ok? ==> && r.value.confidenceScore == DefaultConfidenceScore
                      && !r.value.isExecuted
                      && r.value.createdAt == now
  {
    match Validate(req)
    case Err(e) => Err(e)
    case Ok(_) =>
      var net := NetReturn(req.estimatedReturnPercent, req.capitalRequiredUsd, req.gasCostUsd, req.tradingFeesPercent);
      var base := NewOpportunity(req.opportunityClass, req.estimatedReturnPercent, req.capitalRequiredUsd,
                                 req.durationHours, req.riskLevel, req.sourceExchanges, now);
      Ok(base.(netReturnPercent := Some(net),
               tokenSymbol := req.tokenSymbol,
               tokenName := req.tokenName,
               gasCostUsd := req.gasCostUsd,
               tradingFeesPercent := req.tradingFeesPercent,
               notes := req.notes))
  }

  /** With the default costs (35 USD gas, 0.6% fees) any acceptable request is
      stored with a net return of the estimate less 3500 / capital and 0.6 points. */
  lemma DefaultCostsNetReturn(cls: Tag, est: real, capital: real, duration: real, risk: Tag,
                              exchanges: seq<string>, now: int)
    requires est >= 0.0 && capital > 0.0 && duration > 0.0 && |exchanges| >= 1
    ensures var r := CreateOpportunity(DefaultRequest(cls, est, capital, duration, risk, exchanges), now);
      r.Ok? && r.value.netReturnPercent == Some(est - 3500.0 / capital - 0.6)
  {
    assert (35.0 / capital) * 100.0 == 3500.0 / capital;
  }

  /** Optional listing filters; an absent (or empty) value filters nothing. */
  datatype OpportunityQuery = OpportunityQuery(
    tokenSymbol: Option<string>,
    opportunityClass: Option<Tag>,
    riskLevel: Option<Tag>,
    minReturn: Option<real>,
    isExecuted: Option<bool>)

  predicate Matches(q: OpportunityQuery, o: Opportunity)
  {
    && (q.tokenSymbol.None? || q.tokenSymbol.value == "" || o.tokenSymbol == Some(q.tokenSymbol.value))
    && (q.opportunityClass.None? || q.opportunityClass.value == "" || o.opportunityClass == q.opportunityClass.value)
    && (q.riskLevel.None? || q.riskLevel.value == "" || o.riskLevel == q.riskLevel.value)
    && (q.minReturn.None? || o.estimatedReturnPercent >= q.minReturn.value)
    && (q.isExecuted.None? || o.isExecuted == q.isExecuted.value)
  }

  function Matching(store: seq<Opportunity>, q: OpportunityQuery): (m: seq<Opportunity>)
    ensures forall o :: o in m <==> o in store && Matches(q, o)
  {
    Filter(store, (o: Opportunity) => Matches(q, o))
  }

  /** The scalar stored fields of an opportunity, and `Unordered` for any other name. */
  datatype SortField =
    ByClass | ByEstimatedReturn | ByCapital | ByNetReturn | ByDuration | ByDataTimestamp
    | ByExploitedByBigBots | BySmallSizeEdge | ByRiskLevel | ByTokenSymbol | ByTokenName | ByTokenAddress
    | ByTokenChain | ByGasCost | ByTradingFees | ByConfidence | ByAutomationFeasibility | ByExecuted
    | ByExecutionTimestamp | ByNotes | ByInstructions | ByCreatedAt | ByUpdatedAt | ByExpiresAt | Unordered

  /** The field a `sort_by` name designates. */
  function FieldNamed(name: string): SortField
  {
    match name
    case "opportunity_class" => ByClass
    case "estimated_return_percent" => ByEstimatedReturn
    case "capital_required_usd" => ByCapital
    case "net_return_percent" => ByNetReturn
    case "duration_hours" => ByDuration
    case "data_timestamp" => ByDataTimestamp
    case "exploited_by_big_bots" => ByExploitedByBigBots
    case "small_size_edge" => BySmallSizeEdge
    case "risk_level" => ByRiskLevel
    case "token_symbol" => ByTokenSymbol
    case "token_name" => ByTokenName
    case "token_address" => ByTokenAddress
    case "token_chain" => ByTokenChain
    case "gas_cost_usd" => ByGasCost
    case "trading_fees_percent" => ByTradingFees
    case "confidence_score" => ByConfidence
    case "automation_feasibility" => ByAutomationFeasibility
    case "is_executed" => ByExecuted
    case "execution_timestamp" => ByExecutionTimestamp
    case "notes" => ByNotes
    case "instructions" => ByInstructions
    case "created_at" => ByCreatedAt
    case "updated_at" => ByUpdatedAt
    case "expires_at" => ByExpiresAt
    case _ => Unordered
  }

  function ValueOf(field: SortField, o: Opportunity): SortValue
  {
    match field
    case ByClass => Text(o.opportunityClass)
    case ByEstimatedReturn => Number(o.estimatedReturnPercent)
    case ByCapital => Number(o.capitalRequiredUsd)
    case ByNetReturn => OptionalNumber(o.netReturnPercent)
    case ByDuration => Number(o.durationHours)
    case ByDataTimestamp => Number(o.dataTimestamp as real)
    case ByExploitedByBigBots => Flag(o.exploitedByBigBots)
    case BySmallSizeEdge => Flag(o.smallSizeEdge)
    case ByRiskLevel => Text(o.riskLevel)
    case ByTokenSymbol => OptionalText(o.tokenSymbol)
    case ByTokenName => OptionalText(o.tokenName)
    case ByTokenAddress => OptionalText(o.tokenAddress)
    case ByTokenChain => OptionalText(o.tokenChain)
    case ByGasCost => Number(o.gasCostUsd)
    case ByTradingFees => Number(o.tradingFeesPercent)
    case ByConfidence => Number(o.confidenceScore)
    case ByAutomationFeasibility => Text(o.automationFeasibility)
    case ByExecuted => Flag(o.isExecuted)
    case ByExecutionTimestamp => OptionalNumber(if o.executionTimestamp.Some? then Some(o.executionTimestamp.value as real) else None)
    case ByNotes => Text(o.notes)
    case ByInstructions => OptionalText(o.instructions)
    case ByCreatedAt => Number(o.createdAt as real)
    case ByUpdatedAt => Number(o.updatedAt as real)
    case ByExpiresAt => OptionalNumber(if o.expiresAt.Some? then Some(o.expiresAt.value as real) else None)
    case Unordered => Null
  }

  /** The value the store sorts on when a listing is ordered by the stored field
      `field`. A null optional field sorts as `Null`; timestamps sort as numbers (no
      field mixes them with numbers). A name that is no scalar field of the record
      gives every record the same `Null`, so it imposes no order. */
  function FieldValue(field: string, o: Opportunity): SortValue
  {
    ValueOf(FieldNamed(field), o)
  }

  function OptionalNumber(v: Option<real>): SortValue
  {
    if v.Some? then Number(v.value) else Null
  }

  function OptionalText(v: Option<string>): SortValue
  {
    if v.Some? then Text(v.value) else Null
  }

  /** Every matching opportunity exactly once, ordered by `sortBy` in the requested
      direction: the sequence the listing pages through. */
  function OrderedMatches(store: seq<Opportunity>, q: OpportunityQuery, sortBy: string, sortDesc: bool)
    : (s: seq<Opportunity>)
    ensures multiset(s) == multiset(Matching(store, q))
    ensures sortDesc ==> forall i, j :: 0 <= i < j < |s| ==> ValueLe(FieldValue(sortBy, s[j]), FieldValue(sortBy, s[i]))
    ensures !sortDesc ==> forall i, j :: 0 <= i < j < |s| ==> ValueLe(FieldValue(sortBy, s[i]), FieldValue(sortBy, s[j]))
  {
    SortByValue(Matching(store, q), (o: Opportunity) => FieldValue(sortBy, o), sortDesc)
  }

  /** Filtered, ordered and paginated opportunities: the `page`-th slice of
      `pageSize` records of the ordered matches. */
  function ListOpportunities(store: seq<Opportunity>, q: OpportunityQuery, sortBy: string, sortDesc: bool,
                             page: nat, pageSize: nat): (r: Page<Opportunity>)
    requires page >= 1 && 1 <= pageSize <= 100
    ensures r.total == |Matching(store, q)|
    ensures |r.items| == PageLength(r.total, page, pageSize)
    ensures forall k :: 0 <= k < |r.items| ==>
              r.items[k] == OrderedMatches(store, q, sortBy, sortDesc)[Skip(page, pageSize) + k]
    ensures r.hasNext <==> Skip(page, pageSize) + pageSize < r.total
    ensures forall o :: o in r.items ==> o in store && Matches(q, o)
    ensures q.minReturn.Some? ==> forall o :: o in r.items ==> o.estimatedReturnPercent >= q.minReturn.value
    ensures sortDesc ==> forall i, j :: 0 <= i < j < |r.items| ==>
              ValueLe(FieldValue(sortBy, r.items[j]), FieldValue(sortBy, r.items[i]))
    ensures !sortDesc ==> forall i, j :: 0 <= i < j < |r.items| ==>
              ValueLe(FieldValue(sortBy, r.items[i]), FieldValue(sortBy, r.items[j]))
  {
    var matching := Matching(store, q);
    var ordered := OrderedMatches(store, q, sortBy, sortDesc);
    SameElements(matching, ordered);
    PageItemsFromSource(ordered, page, pageSize);
    Paginate(ordered, page, pageSize)
  }

  /** Paging through the listing reaches every matching opportunity. */
  lemma EveryMatchIsListed(store: seq<Opportunity>, q: OpportunityQuery, sortBy: string, sortDesc: bool,
                           pageSize: nat, o: Opportunity)
    requires 1 <= pageSize <= 100
    requires o in store && Matches(q, o)
    ensures exists page :: page >= 1 && o in ListOpportunities(store, q, sortBy, sortDesc, page, pageSize).items
  {
    var page, k := ListedPosition(OrderedMatches(store, q, sortBy, sortDesc), Matching(store, q), pageSize, o);
    assert ListOpportunities(store, q, sortBy, sortDesc, page, pageSize).items[k] == o;
  }

  /** With no filter supplied every stored opportunity is counted. */
  lemma EmptyQueryCountsAll(store: seq<Opportunity>, sortBy: string, sortDesc: bool, page: nat, pageSize: nat)
    requires page >= 1 && 1 <= pageSize <= 100
    ensures ListOpportunities(store, OpportunityQuery(None, None, None, None, None), sortBy, sortDesc, page, pageSize).total
            == |store|
  {
    var q := OpportunityQuery(None, None, None, None, None);
    FilterKeepsAll(store, (o: Opportunity) => Matches(q, o));
  }

  /** Optional multi-exchange listing filters. */
  datatype MultiQuery = MultiQuery(symbol: Option<string>, priority: Option<string>, minReturn: Option<real>)

  predicate MultiMatches(q: MultiQuery, d: MultiExchangeOpportunity)
  {
    && (q.symbol.None? || q.symbol.value == "" || d.symbol == q.symbol.value)
    && (q.priority.None? || q.priority.value == "" || d.priority == q.priority.value)
    && (q.minReturn.None? || d.bestOverallReturn >= q.minReturn.value)
  }

  function MultiMatching(store: seq<MultiExchangeOpportunity>, q: MultiQuery): (m: seq<MultiExchangeOpportunity>)
    ensures forall d :: d in m <==> d in store && MultiMatches(q, d)
  {
    Filter(store, (d: MultiExchangeOpportunity) => MultiMatches(q, d))
  }

  function MultiSymbol(d: MultiExchangeOpportunity): string
  {
    d.symbol
  }

  function BestOverallReturn(d: MultiExchangeOpportunity): real
  {
    d.bestOverallReturn
  }

  /** Every matching rollup exactly once, best overall return first. */
  function OrderedMultiMatches(store: seq<MultiExchangeOpportunity>, q: MultiQuery): (s: seq<MultiExchangeOpportunity>)
    ensures multiset(s) == multiset(MultiMatching(store, q))
    ensures forall i, j :: 0 <= i < j < |s| ==> s[i].bestOverallReturn >= s[j].bestOverallReturn
    ensures UniqueMultiSymbols(store) ==> UniqueMultiSymbols(s)
  {
    var matching := MultiMatching(store, q);
    var sorted := SortByNumber(matching, BestOverallReturn, true);
    FilterSubMultiset(store, (d: MultiExchangeOpportunity) => MultiMatches(q, d));
    UniqueKeysSurvive(sorted, store, MultiSymbol);
    sorted
  }

  /** Multi-exchange rollups, best overall return first, paginated. */
  function ListMultiExchange(store: seq<MultiExchangeOpportunity>, q: MultiQuery, page: nat, pageSize: nat)
    : (r: Page<MultiExchangeOpportunity>)
    requires page >= 1 && 1 <= pageSize <= 100
    ensures r.total == |MultiMatching(store, q)|
    ensures |r.items| == PageLength(r.total, page, pageSize)
    ensures forall k :: 0 <= k < |r.items| ==> r.items[k] == OrderedMultiMatches(store, q)[Skip(page, pageSize) + k]
    ensures r.hasNext <==> Skip(page, pageSize) + pageSize < r.total
    ensures forall d :: d in r.items ==> d in store && MultiMatches(q, d)
    ensures q.minReturn.Some? ==> forall d :: d in r.items ==> d.bestOverallReturn >= q.minReturn.value
    ensures forall i, j :: 0 <= i < j < |r.items| ==> r.items[i].bestOverallReturn >= r.items[j].bestOverallReturn
    ensures UniqueMultiSymbols(store) ==> UniqueMultiSymbols(r.items)
    ensures (forall d :: d in store ==> d.Valid()) ==> forall d :: d in r.items ==> d.bestOverallReturn >= 0.0
  {
    var matching := MultiMatching(store, q);
    var ordered := OrderedMultiMatches(store, q);
    SameElements(matching, ordered);
    PageItemsFromSource(ordered, page, pageSize);
    Paginate(ordered, page, pageSize)
  }

  /** Paging through the multi-exchange listing reaches every matching rollup. */
  lemma EveryMultiMatchIsListed(store: seq<MultiExchangeOpportunity>, q: MultiQuery, pageSize: nat,
                                d: MultiExchangeOpportunity)
    requires 1 <= pageSize <= 100
    requires d in store && MultiMatches(q, d)
    ensures exists page :: page >= 1 && d in ListMultiExchange(store, q, page, pageSize).items
  {
    var page, k := ListedPosition(OrderedMultiMatches(store, q), MultiMatching(store, q), pageSize, d);
    assert ListMultiExchange(store, q, page, pageSize).items[k] == d;
  }

  /** Summary counts and return statistics over every stored opportunity. */
  datatype Stats = Stats(
    totalOpportunities: nat,
    executedOpportunities: nat,
    pendingOpportunities: int,
    recentOpportunities24h: nat,
    averageReturnPercent: real,
    maxReturnPercent: real,
    minReturnPercent: real)

  predicate IsExecuted(o: Opportunity)
  {
    o.isExecuted
  }

  function EstimatedReturnPercent(o: Opportunity): real
  {
    o.estimatedReturnPercent
  }

  function Executed(store: seq<Opportunity>): (e: seq<Opportunity>)
    ensures forall o :: o in e <==> o in store && o.isExecuted
  {
    Filter(store, IsExecuted)
  }

  function CreatedSince(store: seq<Opportunity>, cutoff: int): (c: seq<Opportunity>)
    ensures forall o :: o in c <==> o in store && o.createdAt >= cutoff
  {
    Filter(store, (o: Opportunity) => o.createdAt >= cutoff)
  }

  /** Statistics at time `now`; "recent" means created in the last 24 hours. */
  function OpportunityStats(store: seq<Opportunity>, now: int): (r: Stats)
    ensures r.totalOpportunities == |store|
    ensures r.executedOpportunities == |Executed(store)|
    ensures r.pendingOpportunities == r.totalOpportunities - r.executedOpportunities
    ensures 0 <= r.pendingOpportunities <= r.totalOpportunities
    ensures r.recentOpportunities24h == |CreatedSince(store, now - SecondsPerDay)|
    ensures |store| == 0 ==> r.averageReturnPercent == 0.0 && r.maxReturnPercent == 0.0 && r.minReturnPercent == 0.0
    ensures |store| > 0 ==> r.averageReturnPercent == Mean(store, EstimatedReturnPercent)
    ensures |store| > 0 ==> r.minReturnPercent <= r.averageReturnPercent <= r.maxReturnPercent
    ensures |store| > 0 ==> exists i :: 0 <= i < |store| && store[i].estimatedReturnPercent == r.maxReturnPercent
    ensures |store| > 0 ==> exists i :: 0 <= i < |store| && store[i].estimatedReturnPercent == r.minReturnPercent
    ensures forall i :: 0 <= i < |store| ==>
              r.minReturnPercent <= store[i].estimatedReturnPercent <= r.maxReturnPercent
  {
    var total := |store|;
    var executed := |Executed(store)|;
    var recent := |CreatedSince(store, now - SecondsPerDay)|;
    if total == 0 then
      Stats(0, executed, total - executed, recent, 0.0, 0.0, 0.0)
    else
      var summary := SummarizeReturns(store);
      Stats(total, executed, total - executed, recent, summary.0, summary.1, summary.2)
  }

  /** Mean, maximum and minimum estimated return of a non-empty store. */
  function SummarizeReturns(store: seq<Opportunity>): (r: (real, real, real))
    requires |store| > 0
    ensures r.0 == Mean(store, EstimatedReturnPercent)
    ensures r.2 <= r.0 <= r.1
    ensures exists i :: 0 <= i < |store| && store[i].estimatedReturnPercent == r.1
    ensures exists i :: 0 <= i < |store| && store[i].estimatedReturnPercent == r.2
    ensures forall i :: 0 <= i < |store| ==> r.2 <= store[i].estimatedReturnPercent <= r.1
  {
    MeanBetweenExtremes(store, EstimatedReturnPercent);
    MaxOfAttained(store, EstimatedReturnPercent);
    MinOfAttained(store, EstimatedReturnPercent);
    (Mean(store, EstimatedReturnPercent), MaxOf(store, EstimatedReturnPercent), MinOf(store, EstimatedReturnPercent))
  }
}
