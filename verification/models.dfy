/** The six stored document shapes of the opportunity service, their field
    constraints as `Valid` predicates, the uniqueness of their index keys, and
    the defaults a freshly built opportunity takes.

    Timestamps are whole seconds (`int`); money and percentages are exact
    `real`s. The chain, exchange type, opportunity class, risk level and
    automation-feasibility enumerations belong to a shared package that is not
    part of this model and are carried as their string values (`Tag`). */
module Models {
  import opened Common

  type Tag = string

  const DefaultDecimals: int := 18
  const MaxDecimals: int := 18
  const DefaultGasCostUsd: real := 35.0
  const DefaultTradingFeesPercent: real := 0.6
  const DefaultConfidenceScore: real := 50.0
  const MaxConfidenceScore: real := 100.0
  const DefaultAutomationFeasibility: Tag := "partial"

  /** A token; identified by (symbol, chain). */
  datatype Token = Token(
    symbol: string,
    name: string,
    address: Option<string>,
    chain: Tag,
    decimals: Option<int>,
    coingeckoId: Option<string>,
    coinmarketcapId: Option<string>,
    isActive: bool,
    createdAt: int,
    updatedAt: int,
    tags: seq<string>,
    notes: string)
  {
    /** `decimals` may be absent; when present it lies in [0, 18]. */
    predicate Valid()
    {
      decimals.None? || 0 <= decimals.value <= MaxDecimals
    }

    function Key(): (string, Tag)
    {
      (symbol, chain)
    }
  }

  /** The unique compound index on (symbol, chain). */
  ghost predicate UniqueTokenKeys(tokens: seq<Token>)
  {
    forall i, j :: 0 <= i < j < |tokens| ==> tokens[i].Key() != tokens[j].Key()
  }

  /** An exchange with its health counters; identified by name. */
  datatype Exchange = Exchange(
    name: string,
    exchangeType: Tag,
    apiEndpoint: Option<string>,
    rateLimitPerMinute: int,
    isActive: bool,
    lastSuccessfulRequest: Option<int>,
    lastError: Option<string>,
    consecutiveErrors: int,
    totalRequests: int,
    totalErrors: int,
    averageResponseTimeMs: Option<real>,
    supportsHistoricalData: bool,
    supportsWebsocket: bool,
    supportedChains: seq<Tag>,
    createdAt: int,
    updatedAt: int)
  {
    predicate Valid()
    {
      && rateLimitPerMinute >= 1
      && consecutiveErrors >= 0
      && totalRequests >= 0
      && totalErrors >= 0
      && (averageResponseTimeMs.None? || averageResponseTimeMs.value >= 0.0)
    }
  }

  /** The unique index on exchange name. */
  ghost predicate UniqueExchangeNames(exchanges: seq<Exchange>)
  {
    forall i, j :: 0 <= i < j < |exchanges| ==> exchanges[i].name != exchanges[j].name
  }

  /** A single arbitrage signal. The free-form execution result payload is not modelled. */
  datatype Opportunity = Opportunity(
    opportunityClass: Tag,
    estimatedReturnPercent: real,
    capitalRequiredUsd: real,
    netReturnPercent: Option<real>,
    durationHours: real,
    dataTimestamp: int,
    exploitedByBigBots: bool,
    smallSizeEdge: bool,
    riskLevel: Tag,
    sourceExchanges: seq<string>,
    tokenSymbol: Option<string>,
    tokenName: Option<string>,
    tokenAddress: Option<string>,
    tokenChain: Option<Tag>,
    gasCostUsd: real,
    tradingFeesPercent: real,
    confidenceScore: real,
    automationFeasibility: Tag,
    isExecuted: bool,
    executionTimestamp: Option<int>,
    notes: string,
    instructions: Option<string>,
    tags: seq<string>,
    createdAt: int,
    updatedAt: int,
    expiresAt: Option<int>)
  {
    predicate Valid()
    {
      && estimatedReturnPercent >= 0.0
      && capitalRequiredUsd > 0.0
      && durationHours > 0.0
      && |sourceExchanges| >= 1
      && 0.0 <= confidenceScore <= MaxConfidenceScore
    }
  }

  /** The opportunity a caller gets by supplying only the required fields at time
      `now`: every other field takes its declared default. */
  function NewOpportunity(opportunityClass: Tag, estimatedReturnPercent: real, capitalRequiredUsd: real,
                          durationHours: real, riskLevel: Tag, sourceExchanges: seq<string>, now: int): (o: Opportunity)
    ensures o.gasCostUsd == DefaultGasCostUsd && o.tradingFeesPercent == DefaultTradingFeesPercent
    ensures o.confidenceScore == DefaultConfidenceScore && !o.isExecuted && o.netReturnPercent.None?
    ensures o.createdAt == now && o.updatedAt == now && o.dataTimestamp == now
    ensures o.estimatedReturnPercent == estimatedReturnPercent && o.capitalRequiredUsd == capitalRequiredUsd
    ensures o.durationHours == durationHours && o.sourceExchanges == sourceExchanges
    ensures o.Valid() <==> estimatedReturnPercent >= 0.0 && capitalRequiredUsd > 0.0
                           && durationHours > 0.0 && |sourceExchanges| >= 1
  {
    Opportunity(
      opportunityClass := opportunityClass,
      estimatedReturnPercent := estimatedReturnPercent,
      capitalRequiredUsd := capitalRequiredUsd,
      netReturnPercent := None,
      durationHours := durationHours,
      dataTimestamp := now,
      exploitedByBigBots := false,
      smallSizeEdge := true,
      riskLevel := riskLevel,
      sourceExchanges := sourceExchanges,
      tokenSymbol := None,
      tokenName := None,
      tokenAddress := None,
      tokenChain := None,
      gasCostUsd := DefaultGasCostUsd,
      tradingFeesPercent := DefaultTradingFeesPercent,
      confidenceScore := DefaultConfidenceScore,
      automationFeasibility := DefaultAutomationFeasibility,
      isExecuted := false,
      executionTimestamp := None,
      notes := "",
      instructions := None,
      tags := [],
      createdAt := now,
      updatedAt := now,
      expiresAt := None)
  }

  /** One directional spread observation between two exchanges. The return and
      the price difference are signed: unprofitable observations are kept. */
  datatype PairObservation = PairObservation(
    date: int,
    exchangeFrom: string,
    exchangeTo: string,
    priceFrom: real,
    priceTo: real,
    returnPercent: real,
    priceDifference: real,
    volumeFrom: real,
    volumeTo: real)
  {
    predicate Valid()
    {
      priceFrom > 0.0 && priceTo > 0.0 && volumeFrom >= 0.0 && volumeTo >= 0.0
    }
  }

  /** Per-token rollup across exchange pairs. The pair map is kept as its ordered
      list of (pair key, observations) entries, the order a dictionary iterates in.
      The free-form `stats` and `historical_performance` bags are not modelled. */
  datatype MultiExchangeOpportunity = MultiExchangeOpportunity(
    symbol: string,
    name: string,
    contractAddress: Option<string>,
    supportedExchanges: seq<string>,
    exchangePairOpportunities: seq<(string, seq<PairObservation>)>,
    bestSpreadsPerPair: map<string, PairObservation>,
    priority: string,
    scanFrequency: int,
    lastOpportunityDate: Option<int>,
    totalOpportunities: int,
    bestOverallReturn: real,
    mostProfitablePair: Option<string>,
    analysisTimestamp: int,
    analysisDurationSeconds: Option<real>,
    dataSources: seq<string>,
    createdAt: int,
    updatedAt: int,
    lastScannedAt: Option<int>,
    nextScanAt: Option<int>,
    successRate: Option<real>)
  {
    predicate Valid()
    {
      && |supportedExchanges| >= 2
      && (priority == "high" || priority == "medium" || priority == "low")
      && scanFrequency > 0
      && totalOpportunities >= 0
      && bestOverallReturn >= 0.0
      && (successRate.None? || 0.0 <= successRate.value <= 100.0)
      && (forall i, j :: 0 <= i < j < |exchangePairOpportunities| ==>
            exchangePairOpportunities[i].0 != exchangePairOpportunities[j].0)
      && (forall i, k :: 0 <= i < |exchangePairOpportunities| && 0 <= k < |exchangePairOpportunities[i].1| ==>
            exchangePairOpportunities[i].1[k].Valid())
      && (forall p :: p in bestSpreadsPerPair ==> bestSpreadsPerPair[p].Valid())
    }
  }

  /** The unique index on the rollup's token symbol. */
  ghost predicate UniqueMultiSymbols(docs: seq<MultiExchangeOpportunity>)
  {
    forall i, j :: 0 <= i < j < |docs| ==> docs[i].symbol != docs[j].symbol
  }

  /** Audit record of one analysis run. The per-run error details and configuration
      snapshot are free-form and not modelled. */
  datatype AnalysisResult = AnalysisResult(
    analysisId: string,
    analysisType: string,
    tokensAnalyzed: seq<string>,
    exchangesUsed: seq<string>,
    totalOpportunitiesFound: int,
    totalTokensWithOpportunities: int,
    bestOpportunityReturn: real,
    averageOpportunityReturn: real,
    analysisDurationSeconds: real,
    apiCallsMade: int,
    errorsEncountered: int,
    opportunitiesByToken: map<string, int>,
    opportunitiesByExchangePair: map<string, int>,
    startedAt: int,
    completedAt: int,
    createdAt: int)
  {
    predicate Valid()
    {
      && totalOpportunitiesFound >= 0
      && totalTokensWithOpportunities >= 0
      && bestOpportunityReturn >= 0.0
      && averageOpportunityReturn >= 0.0
      && analysisDurationSeconds > 0.0
      && apiCallsMade >= 0
      && errorsEncountered >= 0
    }
  }
}
