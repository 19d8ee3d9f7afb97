/** The analytics views over a reporting window: an overview of the
    opportunities created in it, per-token performance, per exchange-pair
    success statistics drawn from the multi-exchange rollups, and the history
    of analysis runs. */
module Analytics {
  import opened Common
  import opened Ordering
  import opened Models
  import opened Opportunities

  const MaxDays: int := 365
  /** A pair observation counts as a success above this return, in percent. */
  const ProfitabilityThresholdPercent: real := 6.0

  /** The reporting window; both ends are included. */
  datatype Window = Window(start: int, end: int)
  {
    predicate Contains(t: int)
    {
      start <= t <= end
    }
  }

  /** The window of the last `days` days up to `now`. */
  function WindowOf(now: int, days: int): (w: Window)
    requires 1 <= days <= MaxDays
    ensures w.Contains(now) && !w.Contains(now + 1)
    ensures w.Contains(now - days * SecondsPerDay) && !w.Contains(now - days * SecondsPerDay - 1)
  {
    Window(now - days * SecondsPerDay, now)
  }

  // ---------------------------------------------------------------- overview

  function CreatedIn(store: seq<Opportunity>, w: Window): (r: seq<Opportunity>)
    ensures forall o :: o in r <==> o in store && w.Contains(o.createdAt)
  {
    Filter(store, (o: Opportunity) => w.Contains(o.createdAt))
  }

  /** The non-empty token symbols of `s`, in order, repeats kept. */
  function NamedSymbols(s: seq<Opportunity>): (r: seq<string>)
    ensures forall x :: x in r <==> x != "" && exists o :: o in s && o.tokenSymbol == Some(x)
  {
    if |s| == 0 then []
    else
      var init := s[..|s| - 1];
      var last := s[|s| - 1];
      assert s == init + [last];
      NamedSymbols(init) + (if last.tokenSymbol.Some? && last.tokenSymbol.value != "" then [last.tokenSymbol.value] else [])
  }

  /** The source exchanges of every opportunity of `s`, concatenated. */
  function SourceExchanges(s: seq<Opportunity>): (r: seq<string>)
    ensures forall x :: x in r <==> exists o :: o in s && x in o.sourceExchanges
  {
    if |s| == 0 then []
    else
      var init := s[..|s| - 1];
      assert s == init + [s[|s| - 1]];
      SourceExchanges(init) + s[|s| - 1].sourceExchanges
  }

  /** The distinct non-empty symbols named by `s`. */
  ghost function SymbolSet(s: seq<Opportunity>): set<string>
  {
    set o | o in s && o.tokenSymbol.Some? && o.tokenSymbol.value != "" :: o.tokenSymbol.value
  }

  /** The distinct exchanges named by `s`. */
  ghost function ExchangeSet(s: seq<Opportunity>): set<string>
  {
    set o, x | o in s && x in o.sourceExchanges :: x
  }

  lemma SymbolSetIsNamedSymbols(s: seq<Opportunity>)
    ensures SymbolSet(s) == Elements(NamedSymbols(s))
  {
    forall x | x in Elements(NamedSymbols(s))
      ensures x in SymbolSet(s)
    {
      var o :| o in s && o.tokenSymbol == Some(x);
    }
  }

  lemma ExchangeSetIsSourceExchanges(s: seq<Opportunity>)
    ensures ExchangeSet(s) == Elements(SourceExchanges(s))
  {
    forall x | x in Elements(SourceExchanges(s))
      ensures x in ExchangeSet(s)
    {
      var o :| o in s && x in o.sourceExchanges;
    }
  }

  /** Every named symbol comes from a distinct opportunity position, so there are no more of them than opportunities. */
  lemma {:induction false} NamedSymbolsAtMostCount(s: seq<Opportunity>)
    ensures |NamedSymbols(s)| <= |s|
  {
    if |s| > 0 {
      NamedSymbolsAtMostCount(s[..|s| - 1]);
    }
  }

  datatype Overview = Overview(
    total: nat,
    executed: nat,
    pending: int,
    averageReturn: real,
    maxReturn: real,
    uniqueTokens: nat,
    uniqueExchanges: nat)

  /** Counts, return figures and distinct tokens and exchanges of the opportunities created in `w`. */
  function AnalyticsOverview(store: seq<Opportunity>, w: Window): (r: Overview)
    ensures r.total == |CreatedIn(store, w)|
    ensures r.executed == |Executed(CreatedIn(store, w))|
    ensures r.pending == r.total - r.executed && 0 <= r.pending
    ensures r.total == 0 ==> r == Overview(0, 0, 0, 0.0, 0.0, 0, 0)
    ensures r.total > 0 ==> r.averageReturn == Mean(CreatedIn(store, w), EstimatedReturnPercent)
    ensures r.averageReturn <= r.maxReturn
    ensures forall o :: o in CreatedIn(store, w) ==> o.estimatedReturnPercent <= r.maxReturn
    ensures r.total > 0 ==> exists o :: o in CreatedIn(store, w) && o.estimatedReturnPercent == r.maxReturn
    ensures r.uniqueTokens == |SymbolSet(CreatedIn(store, w))| <= r.total
    ensures r.uniqueExchanges == |ExchangeSet(CreatedIn(store, w))|
    ensures (forall o :: o in store ==> o.Valid()) ==> r.averageReturn >= 0.0 && r.maxReturn >= 0.0
  {
    var ops := CreatedIn(store, w);
    if |ops| == 0 then
      Overview(0, 0, 0, 0.0, 0.0, 0, 0)
    else
      var executed := |Executed(ops)|;
      ReturnFigures(ops);
      SymbolSetIsNamedSymbols(ops);
      ExchangeSetIsSourceExchanges(ops);
      DedupCountsElements(NamedSymbols(ops));
      DedupCountsElements(SourceExchanges(ops));
      NamedSymbolsAtMostCount(ops);
      Overview(|ops|, executed, |ops| - executed, Mean(ops, EstimatedReturnPercent), MaxOf(ops, EstimatedReturnPercent),
               |Dedup(NamedSymbols(ops))|, |Dedup(SourceExchanges(ops))|)
  }

  /** What the overview needs to know about the mean and the maximum return of a non-empty selection. */
  lemma ReturnFigures(ops: seq<Opportunity>)
    requires |ops| > 0
    ensures Mean(ops, EstimatedReturnPercent) <= MaxOf(ops, EstimatedReturnPercent)
    ensures forall o :: o in ops ==> o.estimatedReturnPercent <= MaxOf(ops, EstimatedReturnPercent)
    ensures exists o :: o in ops && o.estimatedReturnPercent == MaxOf(ops, EstimatedReturnPercent)
    ensures (forall o :: o in ops ==> o.Valid()) ==>
              Mean(ops, EstimatedReturnPercent) >= 0.0 && MaxOf(ops, EstimatedReturnPercent) >= 0.0
  {
    MeanBetweenExtremes(ops, EstimatedReturnPercent);
    MaxOfAttained(ops, EstimatedReturnPercent);
    MinOfAttained(ops, EstimatedReturnPercent);
    var i :| 0 <= i < |ops| && EstimatedReturnPercent(ops[i]) == MaxOf(ops, EstimatedReturnPercent);
    assert ops[i] in ops;
    var j :| 0 <= j < |ops| && EstimatedReturnPercent(ops[j]) == MinOf(ops, EstimatedReturnPercent);
    assert ops[j] in ops;
    forall o | o in ops
      ensures o.estimatedReturnPercent <= MaxOf(ops, EstimatedReturnPercent)
    {
      var k :| 0 <= k < |ops| && ops[k] == o;
    }
  }

  /** A window that covers another sees at least as many opportunities. */
  lemma WiderWindowCountsMore(store: seq<Opportunity>, w: Window, wider: Window)
    requires wider.start <= w.start && w.end <= wider.end
    ensures AnalyticsOverview(store, w).total <= AnalyticsOverview(store, wider).total
  {
    FilterMonotone(store, (o: Opportunity) => w.Contains(o.createdAt), (o: Opportunity) => wider.Contains(o.createdAt));
  }

  // ------------------------------------------------------- token performance

  /** The symbol an opportunity is grouped under; only called on opportunities that carry one. */
  function SymbolOf(o: Opportunity): string
  {
    if o.tokenSymbol.Some? then o.tokenSymbol.value else ""
  }

  function CapitalRequiredUsd(o: Opportunity): real
  {
    o.capitalRequiredUsd
  }

  /** Opportunities created in `w` that carry a symbol; an empty symbol still counts. */
  function WithSymbolIn(store: seq<Opportunity>, w: Window): (r: seq<Opportunity>)
    ensures forall o :: o in r <==> o in store && w.Contains(o.createdAt) && o.tokenSymbol.Some?
  {
    Filter(store, (o: Opportunity) => w.Contains(o.createdAt) && o.tokenSymbol.Some?)
  }

  /** The opportunities of `s` grouped under `symbol`. */
  function SymbolGroup(s: seq<Opportunity>, symbol: string): (g: seq<Opportunity>)
    ensures forall o :: o in g <==> o in s && SymbolOf(o) == symbol
  {
    Filter(s, (o: Opportunity) => SymbolOf(o) == symbol)
  }

  datatype TokenPerformanceRow = TokenPerformanceRow(
    symbol: string,
    totalOpportunities: nat,
    averageReturn: real,
    maxReturn: real,
    totalVolumeUsd: real)

  /** The aggregate of one non-empty symbol group. */
  function TokenRow(symbol: string, g: seq<Opportunity>): TokenPerformanceRow
    requires |g| > 0
  {
    TokenPerformanceRow(symbol, |g|, Mean(g, EstimatedReturnPercent), MaxOf(g, EstimatedReturnPercent),
                        SumOf(g, CapitalRequiredUsd))
  }

  /** A token row counts its group, reports the mean and the attained maximum of
      the estimated returns, and totals the capital required. */
  lemma TokenRowMeaning(symbol: string, g: seq<Opportunity>)
    requires |g| > 0
    ensures var row := TokenRow(symbol, g);
      && row.symbol == symbol && row.totalOpportunities == |g|
      && row.averageReturn == Mean(g, EstimatedReturnPercent)
      && row.averageReturn <= row.maxReturn
      && (forall o :: o in g ==> o.estimatedReturnPercent <= row.maxReturn)
      && (exists o :: o in g && o.estimatedReturnPercent == row.maxReturn)
      && row.totalVolumeUsd == SumOf(g, CapitalRequiredUsd)
      && ((forall o :: o in g ==> o.Valid()) ==> row.averageReturn >= 0.0 && row.totalVolumeUsd >= 0.0)
  {
    ReturnFigures(g);
    CapitalNonNegative(g);
  }


  lemma CapitalNonNegative(g: seq<Opportunity>)
    ensures (forall o :: o in g ==> o.Valid()) ==> SumOf(g, CapitalRequiredUsd) >= 0.0
  {
    if forall o :: o in g ==> o.Valid() {
      SumOfNonNegative(g, CapitalRequiredUsd);
    }
  }

  /** Every symbol of a list of group keys names a non-empty group. */
  ghost predicate AllGrouped(s: seq<Opportunity>, symbols: seq<string>)
  {
    forall k :: k in symbols ==> |SymbolGroup(s, k)| > 0
  }

  /** One row per symbol, in the order of `symbols`. */
  function TokenRows(s: seq<Opportunity>, symbols: seq<string>): (rows: seq<TokenPerformanceRow>)
    requires AllGrouped(s, symbols)
    ensures |rows| == |symbols|
    ensures forall i :: 0 <= i < |rows| ==>
              rows[i].symbol == symbols[i] && |SymbolGroup(s, symbols[i])| > 0
              && rows[i] == TokenRow(symbols[i], SymbolGroup(s, symbols[i]))
  {
    if |symbols| == 0 then []
    else
      var init := symbols[..|symbols| - 1];
      var last := symbols[|symbols| - 1];
      assert symbols == init + [last];
      TokenRows(s, init) + [TokenRow(last, SymbolGroup(s, last))]
  }

  /** The groups formed from the symbol-carrying opportunities in `w`, first-seen order. */
  function SymbolsIn(store: seq<Opportunity>, w: Window): (symbols: seq<string>)
    ensures Distinct(symbols)
    ensures AllGrouped(WithSymbolIn(store, w), symbols)
    ensures forall o :: o in WithSymbolIn(store, w) ==> SymbolOf(o) in symbols
  {
    var s := WithSymbolIn(store, w);
    var symbols := Keys(s, SymbolOf);
    forall k | k in symbols
      ensures |SymbolGroup(s, k)| > 0
    {
      var i :| 0 <= i < |s| && SymbolOf(s[i]) == k;
      assert s[i] in SymbolGroup(s, k);
    }
    forall o | o in s
      ensures SymbolOf(o) in symbols
    {
      var i :| 0 <= i < |s| && s[i] == o;
    }
    symbols
  }

  /** The mean estimated return of a symbol's group; a symbol without a group ranks at 0. */
  function GroupAverage(s: seq<Opportunity>, symbol: string): real
  {
    var g := SymbolGroup(s, symbol);
    if |g| == 0 then 0.0 else Mean(g, EstimatedReturnPercent)
  }

  /** Each row is the aggregate row of a non-empty symbol group of `s`. */
  ghost predicate RowsOfSymbolGroups(s: seq<Opportunity>, r: seq<TokenPerformanceRow>)
  {
    forall i :: 0 <= i < |r| ==>
      && |SymbolGroup(s, r[i].symbol)| > 0
      && r[i] == TokenRow(r[i].symbol, SymbolGroup(s, r[i].symbol))
  }

  ghost predicate DistinctSymbols(r: seq<TokenPerformanceRow>)
  {
    forall i, j :: 0 <= i < j < |r| ==> r[i].symbol != r[j].symbol
  }

  /** Every symbol of `s` has a row. */
  ghost predicate ListsEverySymbol(s: seq<Opportunity>, r: seq<TokenPerformanceRow>)
  {
    forall o :: o in s ==> RowFor(r, SymbolOf(o)).Some?
  }

  /** A symbol of `s` without a row has a mean return no larger than any listed row's. */
  ghost predicate OmittedSymbolsRankBelow(s: seq<Opportunity>, r: seq<TokenPerformanceRow>)
  {
    forall o, i :: o in s && 0 <= i < |r| && RowFor(r, SymbolOf(o)).None? ==>
      Mean(SymbolGroup(s, SymbolOf(o)), EstimatedReturnPercent) <= r[i].averageReturn
  }

  /** Best-performing tokens of the window: symbol groups ranked by mean return, at most `limit` of them. */
  function TokenPerformance(store: seq<Opportunity>, w: Window, limit: nat): (r: seq<TokenPerformanceRow>)
    requires 1 <= limit <= 100
    ensures |r| == Min(limit, |SymbolsIn(store, w)|)
    ensures forall i, j :: 0 <= i < j < |r| ==> r[i].averageReturn >= r[j].averageReturn
    ensures RowsOfSymbolGroups(WithSymbolIn(store, w), r)
    ensures DistinctSymbols(r)
    ensures limit >= |SymbolsIn(store, w)| ==> ListsEverySymbol(WithSymbolIn(store, w), r)
    ensures OmittedSymbolsRankBelow(WithSymbolIn(store, w), r)
  {
    var s := WithSymbolIn(store, w);
    var symbols := SymbolsIn(store, w);
    var key := (k: string) => GroupAverage(s, k);
    var top := TopK(symbols, key, limit);
    TopSymbols(s, symbols, key, limit);
    var rows := TokenRows(s, top);
    TokenRowsFacts(s, top);
    RankedRows(s, symbols, top, rows, limit);
    rows
  }

  /** Ranking the symbols by group average keeps grouped, distinct symbols, all of
      them when `limit` leaves room, and none left out outranks one kept. */
  lemma TopSymbols(s: seq<Opportunity>, symbols: seq<string>, key: string -> real, limit: nat)
    requires Distinct(symbols) && AllGrouped(s, symbols)
    requires forall k :: key(k) == GroupAverage(s, k)
    ensures var top := TopK(symbols, key, limit);
      && AllGrouped(s, top)
      && Distinct(top)
      && (forall i, j :: 0 <= i < j < |top| ==> GroupAverage(s, top[i]) >= GroupAverage(s, top[j]))
      && (limit >= |symbols| ==> forall k :: k in symbols ==> k in top)
      && (forall k, y :: k in symbols && k !in top && y in top ==> GroupAverage(s, k) <= GroupAverage(s, y))
  {
    var top := TopK(symbols, key, limit);
    TopKSelects(symbols, key, limit);
    SubMultisetOfDistinct(top, symbols);
  }

  /** The rows of `symbols` name their symbols, carry their group averages and are group rows. */
  lemma TokenRowsFacts(s: seq<Opportunity>, symbols: seq<string>)
    requires AllGrouped(s, symbols)
    ensures var rows := TokenRows(s, symbols);
      && |rows| == |symbols|
      && (forall i :: 0 <= i < |rows| ==> rows[i].symbol == symbols[i] && rows[i].averageReturn == GroupAverage(s, symbols[i]))
      && RowsOfSymbolGroups(s, rows)
  {
  }

  /** The rows built for the ranked symbols, stated of the symbols' groups. */
  lemma RankedRows(s: seq<Opportunity>, symbols: seq<string>, top: seq<string>, rows: seq<TokenPerformanceRow>, limit: nat)
    requires forall o :: o in s ==> SymbolOf(o) in symbols
    requires AllGrouped(s, top) && Distinct(top)
    requires forall i, j :: 0 <= i < j < |top| ==> GroupAverage(s, top[i]) >= GroupAverage(s, top[j])
    requires limit >= |symbols| ==> forall k :: k in symbols ==> k in top
    requires forall k, y :: k in symbols && k !in top && y in top ==> GroupAverage(s, k) <= GroupAverage(s, y)
    requires |rows| == |top|
    requires forall i :: 0 <= i < |rows| ==> rows[i].symbol == top[i] && rows[i].averageReturn == GroupAverage(s, top[i])
    ensures forall i, j :: 0 <= i < j < |rows| ==> rows[i].averageReturn >= rows[j].averageReturn
    ensures DistinctSymbols(rows)
    ensures limit >= |symbols| ==> ListsEverySymbol(s, rows)
    ensures OmittedSymbolsRankBelow(s, rows)
  {
    forall o | o in s && (limit >= |symbols| || RowFor(rows, SymbolOf(o)).None?)
      ensures limit >= |symbols| ==> RowFor(rows, SymbolOf(o)).Some?
      ensures RowFor(rows, SymbolOf(o)).None? ==>
                forall i :: 0 <= i < |rows| ==> Mean(SymbolGroup(s, SymbolOf(o)), EstimatedReturnPercent) <= rows[i].averageReturn
    {
      var k := SymbolOf(o);
      assert o in SymbolGroup(s, k);
      if limit >= |symbols| {
        var i :| 0 <= i < |top| && top[i] == k;
        assert rows[i].symbol == k;
      }
      if RowFor(rows, k).None? {
        assert forall i :: 0 <= i < |top| ==> top[i] == rows[i].symbol != k;
        assert forall i :: 0 <= i < |rows| ==> top[i] in top;
      }
    }
  }

  /** The row of `symbol` in `r`, if it has one. */
  function RowFor(r: seq<TokenPerformanceRow>, symbol: string): (found: Option<TokenPerformanceRow>)
    ensures found.None? <==> forall i :: 0 <= i < |r| ==> r[i].symbol != symbol
    ensures found.Some? ==> found.value in r && found.value.symbol == symbol
  {
    if |r| == 0 then None
    else if r[0].symbol == symbol then Some(r[0])
    else
      var rest := RowFor(r[1..], symbol);
      assert forall i :: 1 <= i < |r| ==> r[i] == r[1..][i - 1];
      rest
  }

  // ---------------------------------------------------------- exchange pairs

  /** One entry of a rollup's pair map: the pair key and its observations. */
  type PairEntry = (string, seq<PairObservation>)

  function AnalyzedIn(docs: seq<MultiExchangeOpportunity>, w: Window): (r: seq<MultiExchangeOpportunity>)
    ensures forall d :: d in r <==> d in docs && w.Contains(d.analysisTimestamp)
  {
    Filter(docs, (d: MultiExchangeOpportunity) => w.Contains(d.analysisTimestamp))
  }

  /** Every pair-map entry of the rollups, rollup after rollup. */
  function PairEntries(docs: seq<MultiExchangeOpportunity>): (r: seq<PairEntry>)
    ensures forall e :: e in r <==> exists d :: d in docs && e in d.exchangePairOpportunities
  {
    if |docs| == 0 then []
    else
      var init := docs[..|docs| - 1];
      assert docs == init + [docs[|docs| - 1]];
      PairEntries(init) + docs[|docs| - 1].exchangePairOpportunities
  }

  /** The pair-map entries of the rollups analysed in `w`. */
  function EntriesIn(docs: seq<MultiExchangeOpportunity>, w: Window): seq<PairEntry>
  {
    PairEntries(AnalyzedIn(docs, w))
  }

  /** Every observation filed under `name`, in order. */
  function PairObservations(entries: seq<PairEntry>, name: string): seq<PairObservation>
  {
    if |entries| == 0 then []
    else
      var init := entries[..|entries| - 1];
      var last := entries[|entries| - 1];
      assert entries == init + [last];
      PairObservations(init, name) + (if last.0 == name then last.1 else [])
  }

  /** The observations filed under `name` are exactly those of the entries keyed `name`. */
  lemma {:induction false} PairObservationsMembers(entries: seq<PairEntry>, name: string)
    ensures forall ob :: ob in PairObservations(entries, name) <==> exists e :: e in entries && e.0 == name && ob in e.1
  {
    if |entries| > 0 {
      var init := entries[..|entries| - 1];
      assert entries == init + [entries[|entries| - 1]];
      PairObservationsMembers(init, name);
    }
  }

  /** A pair has observations exactly when one of its entries is non-empty. */
  lemma ObservedIffNonEmptyEntry(entries: seq<PairEntry>, name: string)
    ensures |PairObservations(entries, name)| > 0 <==> exists e :: e in entries && e.0 == name && |e.1| > 0
  {
    var obs := PairObservations(entries, name);
    PairObservationsMembers(entries, name);
    if |obs| > 0 {
      assert obs[0] in obs;
    }
  }

  function PairName(e: PairEntry): string
  {
    e.0
  }

  /** The pair keys with at least one observation. */
  ghost function PairSet(entries: seq<PairEntry>): set<string>
  {
    set e | e in entries && |e.1| > 0 :: e.0
  }

  /** The pairs that get a row: keys with at least one observation, in first-seen order. */
  function ObservedPairs(entries: seq<PairEntry>): (names: seq<string>)
    ensures Distinct(names)
    ensures forall n :: n in names <==> |PairObservations(entries, n)| > 0
    ensures Elements(names) == PairSet(entries)
  {
    var keys := Keys(entries, PairName);
    var names := Filter(keys, (n: string) => |PairObservations(entries, n)| > 0);
    FilterSubMultiset(keys, (n: string) => |PairObservations(entries, n)| > 0);
    SubMultisetOfDistinct(names, keys);
    forall n | |PairObservations(entries, n)| > 0
      ensures n in keys
    {
      ObservedIffNonEmptyEntry(entries, n);
      var e :| e in entries && e.0 == n && |e.1| > 0;
      var i :| 0 <= i < |entries| && entries[i] == e;
      assert PairName(entries[i]) == n;
    }
    forall n
      ensures n in names <==> n in PairSet(entries)
    {
      ObservedIffNonEmptyEntry(entries, n);
    }
    names
  }

  predicate Profitable(ob: PairObservation)
  {
    ob.returnPercent > ProfitabilityThresholdPercent
  }

  function ReturnPercent(ob: PairObservation): real
  {
    ob.returnPercent
  }

  /** Share of `obs`, in percent, above the profitability threshold. */
  function SuccessRate(obs: seq<PairObservation>): real
    requires |obs| > 0
  {
    Percent(|Filter(obs, Profitable)|, |obs|)
  }

  /** The success rate lies in 0..100, is 0 exactly when no observation is
      profitable and 100 exactly when every one is. */
  lemma SuccessRateMeaning(obs: seq<PairObservation>)
    requires |obs| > 0
    ensures var rate := SuccessRate(obs);
      && 0.0 <= rate <= 100.0
      && (rate == 0.0 <==> forall ob :: ob in obs ==> !Profitable(ob))
      && (rate == 100.0 <==> forall ob :: ob in obs ==> Profitable(ob))
      && IsPercentOf(rate, |Filter(obs, Profitable)|, |obs|)
  {
    var c := |Filter(obs, Profitable)|;
    var rate := SuccessRate(obs);
    assert 0.0 <= rate <= 100.0 && (rate == 0.0 <==> c == 0) && (rate == 100.0 <==> c == |obs|)
           && IsPercentOf(rate, c, |obs|) by {
      PercentMeaning(c, |obs|);
    }
    assert c == 0 <==> forall ob :: ob in obs ==> !Profitable(ob) by {
      FilterDropsAll(obs, Profitable);
    }
    assert c == |obs| <==> forall ob :: ob in obs ==> Profitable(ob) by {
      FilterKeepsAll(obs, Profitable);
    }
  }

  datatype PairAnalyticsRow = PairAnalyticsRow(
    pairName: string,
    totalOpportunities: nat,
    averageReturn: real,
    maxReturn: real,
    successRate: real)

  /** The statistics of one pair with at least one observation. */
  function PairRow(name: string, obs: seq<PairObservation>): PairAnalyticsRow
    requires |obs| > 0
  {
    PairAnalyticsRow(name, |obs|, Mean(obs, ReturnPercent), MaxOf(obs, ReturnPercent), SuccessRate(obs))
  }

  /** What a pair row reports about the pair's observations. */
  lemma PairRowMeaning(name: string, obs: seq<PairObservation>)
    requires |obs| > 0
    ensures var row := PairRow(name, obs);
      && row.pairName == name && row.totalOpportunities == |obs|
      && MinOf(obs, ReturnPercent) <= row.averageReturn <= row.maxReturn
      && (forall ob :: ob in obs ==> ob.returnPercent <= row.maxReturn)
      && (exists i :: 0 <= i < |obs| && obs[i].returnPercent == row.maxReturn)
      && 0.0 <= row.successRate <= 100.0
      && (row.successRate == 0.0 <==> forall ob :: ob in obs ==> !Profitable(ob))
      && (row.successRate == 100.0 <==> forall ob :: ob in obs ==> Profitable(ob))
  {
    MeanBetweenExtremes(obs, ReturnPercent);
    MaxOfAttained(obs, ReturnPercent);
    SuccessRateMeaning(obs);
    forall ob | ob in obs
      ensures ob.returnPercent <= MaxOf(obs, ReturnPercent)
    {
      var k :| 0 <= k < |obs| && obs[k] == ob;
    }
  }

  /** One row per name, in the order of `names`. */
  function PairRows(entries: seq<PairEntry>, names: seq<string>): (rows: seq<PairAnalyticsRow>)
    requires forall n :: n in names ==> |PairObservations(entries, n)| > 0
    ensures |rows| == |names|
    ensures forall i :: 0 <= i < |rows| ==>
              rows[i].pairName == names[i] && rows[i] == PairRow(names[i], PairObservations(entries, names[i]))
  {
    if |names| == 0 then []
    else
      var init := names[..|names| - 1];
      var last := names[|names| - 1];
      assert names == init + [last];
      PairRows(entries, init) + [PairRow(last, PairObservations(entries, last))]
  }

  datatype PairReport = PairReport(pairs: seq<PairAnalyticsRow>, totalPairs: nat)

  /** Each row is the statistics row of an observed pair. */
  ghost predicate RowsOfObservedPairs(entries: seq<PairEntry>, pairs: seq<PairAnalyticsRow>)
  {
    forall i :: 0 <= i < |pairs| ==>
      && |PairObservations(entries, pairs[i].pairName)| > 0
      && pairs[i] == PairRow(pairs[i].pairName, PairObservations(entries, pairs[i].pairName))
  }

  ghost predicate DistinctPairNames(pairs: seq<PairAnalyticsRow>)
  {
    forall i, j :: 0 <= i < j < |pairs| ==> pairs[i].pairName != pairs[j].pairName
  }

  /** Every observed pair has a row. */
  ghost predicate ListsEveryPair(entries: seq<PairEntry>, pairs: seq<PairAnalyticsRow>)
  {
    forall n :: |PairObservations(entries, n)| > 0 ==> PairRowFor(pairs, n).Some?
  }

  /** An observed pair without a row has a mean return no larger than any listed row's. */
  ghost predicate OmittedRankBelow(entries: seq<PairEntry>, pairs: seq<PairAnalyticsRow>)
  {
    forall n, i :: |PairObservations(entries, n)| > 0 && 0 <= i < |pairs| && PairRowFor(pairs, n).None? ==>
      Mean(PairObservations(entries, n), ReturnPercent) <= pairs[i].averageReturn
  }

  /** The mean return of a pair's observations; a pair without any ranks at 0. */
  function PairMean(entries: seq<PairEntry>, name: string): real
  {
    var obs := PairObservations(entries, name);
    if |obs| == 0 then 0.0 else Mean(obs, ReturnPercent)
  }

  /** Exchange pairs of the rollups analysed in `w`, ranked by mean return; at most `limit` rows,
      while `totalPairs` counts every pair with an observation. */
  function PairAnalytics(docs: seq<MultiExchangeOpportunity>, w: Window, limit: nat): (r: PairReport)
    requires 1 <= limit <= 100
    ensures r.totalPairs == |PairSet(EntriesIn(docs, w))|
    ensures |r.pairs| == Min(limit, r.totalPairs)
    ensures forall i, j :: 0 <= i < j < |r.pairs| ==> r.pairs[i].averageReturn >= r.pairs[j].averageReturn
    ensures RowsOfObservedPairs(EntriesIn(docs, w), r.pairs)
    ensures DistinctPairNames(r.pairs)
    ensures limit >= r.totalPairs ==> ListsEveryPair(EntriesIn(docs, w), r.pairs)
    ensures OmittedRankBelow(EntriesIn(docs, w), r.pairs)
  {
    var entries := EntriesIn(docs, w);
    var names := ObservedPairs(entries);
    var key := (n: string) => PairMean(entries, n);
    var top := TopK(names, key, limit);
    DistinctCardinality(names);
    TopPairs(entries, names, key, limit);
    var rows := PairRows(entries, top);
    PairRowsFacts(entries, top);
    RankedPairs(entries, names, top, rows, limit);
    PairReport(rows, |names|)
  }

  /** Ranking the observed pairs by mean return keeps distinct observed pairs, all
      of them when `limit` leaves room, and none left out outranks one kept. */
  lemma TopPairs(entries: seq<PairEntry>, names: seq<string>, key: string -> real, limit: nat)
    requires Distinct(names)
    requires forall n :: n in names <==> |PairObservations(entries, n)| > 0
    requires forall n :: key(n) == PairMean(entries, n)
    ensures var top := TopK(names, key, limit);
      && (forall n :: n in top ==> |PairObservations(entries, n)| > 0)
      && Distinct(top)
      && (forall i, j :: 0 <= i < j < |top| ==> PairMean(entries, top[i]) >= PairMean(entries, top[j]))
      && (limit >= |names| ==> forall n :: n in names ==> n in top)
      && (forall n, y :: n in names && n !in top && y in top ==> PairMean(entries, n) <= PairMean(entries, y))
  {
    var top := TopK(names, key, limit);
    TopKSelects(names, key, limit);
    SubMultisetOfDistinct(top, names);
  }

  /** The rows of `names` name their pairs, carry their mean returns and are pair rows. */
  lemma PairRowsFacts(entries: seq<PairEntry>, names: seq<string>)
    requires forall n :: n in names ==> |PairObservations(entries, n)| > 0
    ensures var rows := PairRows(entries, names);
      && |rows| == |names|
      && (forall i :: 0 <= i < |rows| ==> rows[i].pairName == names[i] && rows[i].averageReturn == PairMean(entries, names[i]))
      && RowsOfObservedPairs(entries, rows)
  {
    var rows := PairRows(entries, names);
    assert forall i :: 0 <= i < |rows| ==> names[i] in names;
  }

  /** The rows built for the ranked pairs, stated of the pairs' observations. */
  lemma RankedPairs(entries: seq<PairEntry>, names: seq<string>, top: seq<string>,
                    rows: seq<PairAnalyticsRow>, limit: nat)
    requires forall n :: |PairObservations(entries, n)| > 0 ==> n in names
    requires Distinct(top)
    requires forall i, j :: 0 <= i < j < |top| ==> PairMean(entries, top[i]) >= PairMean(entries, top[j])
    requires limit >= |names| ==> forall n :: n in names ==> n in top
    requires forall n, y :: n in names && n !in top && y in top ==> PairMean(entries, n) <= PairMean(entries, y)
    requires |rows| == |top|
    requires forall i :: 0 <= i < |rows| ==> rows[i].pairName == top[i] && rows[i].averageReturn == PairMean(entries, top[i])
    ensures forall i, j :: 0 <= i < j < |rows| ==> rows[i].averageReturn >= rows[j].averageReturn
    ensures DistinctPairNames(rows)
    ensures limit >= |names| ==> ListsEveryPair(entries, rows)
    ensures OmittedRankBelow(entries, rows)
  {
    forall n | |PairObservations(entries, n)| > 0 && (limit >= |names| || PairRowFor(rows, n).None?)
      ensures limit >= |names| ==> PairRowFor(rows, n).Some?
      ensures PairRowFor(rows, n).None? ==>
                forall i :: 0 <= i < |rows| ==> Mean(PairObservations(entries, n), ReturnPercent) <= rows[i].averageReturn
    {
      if limit >= |names| {
        var i :| 0 <= i < |top| && top[i] == n;
        assert rows[i].pairName == n;
      }
      if PairRowFor(rows, n).None? {
        assert forall i :: 0 <= i < |top| ==> top[i] == rows[i].pairName != n;
        assert forall i :: 0 <= i < |rows| ==> top[i] in top;
      }
    }
  }

  /** The row of pair `name` in `r`, if it has one. */
  function PairRowFor(r: seq<PairAnalyticsRow>, name: string): (found: Option<PairAnalyticsRow>)
    ensures found.None? <==> forall i :: 0 <= i < |r| ==> r[i].pairName != name
    ensures found.Some? ==> found.value in r && found.value.pairName == name
  {
    if |r| == 0 then None
    else if r[0].pairName == name then Some(r[0])
    else
      var rest := PairRowFor(r[1..], name);
      assert forall i :: 1 <= i < |r| ==> r[i] == r[1..][i - 1];
      rest
  }

  // --------------------------------------------------------- analysis history

  const MaxHistoryLimit: int := 50

  /** What the history reports of one analysis run: its lists are reduced to their lengths. */
  datatype RunSummary = RunSummary(
    analysisId: string,
    analysisType: string,
    tokensAnalyzed: nat,
    exchangesUsed: nat,
    totalOpportunitiesFound: int,
    bestOpportunityReturn: real,
    averageOpportunityReturn: real,
    durationSeconds: real,
    apiCallsMade: int,
    errorsEncountered: int,
    startedAt: int,
    completedAt: int)
  {
    /** What the field constraints of a valid run leave in its summary. */
    predicate Valid()
    {
      && totalOpportunitiesFound >= 0
      && bestOpportunityReturn >= 0.0
      && averageOpportunityReturn >= 0.0
      && durationSeconds > 0.0
      && apiCallsMade >= 0
      && errorsEncountered >= 0
    }
  }

  datatype History = History(analyses: seq<RunSummary>, totalAnalyses: nat)

  function Summary(a: AnalysisResult): RunSummary
  {
    RunSummary(a.analysisId, a.analysisType, |a.tokensAnalyzed|, |a.exchangesUsed|, a.totalOpportunitiesFound,
               a.bestOpportunityReturn, a.averageOpportunityReturn, a.analysisDurationSeconds,
               a.apiCallsMade, a.errorsEncountered, a.startedAt, a.completedAt)
  }

  function StartedAt(a: AnalysisResult): real
  {
    a.startedAt as real
  }

  function StartedIn(results: seq<AnalysisResult>, w: Window): (r: seq<AnalysisResult>)
    ensures forall a :: a in r <==> a in results && w.Contains(a.startedAt)
  {
    Filter(results, (a: AnalysisResult) => w.Contains(a.startedAt))
  }

  /** `analyses` summarise `top`, position by position. */
  ghost predicate SummariesOf(analyses: seq<RunSummary>, top: seq<AnalysisResult>)
  {
    |analyses| == |top| && forall i :: 0 <= i < |top| ==> analyses[i] == Summary(top[i])
  }

  function Summaries(top: seq<AnalysisResult>): (s: seq<RunSummary>)
    ensures SummariesOf(s, top)
  {
    seq(|top|, i requires 0 <= i < |top| => Summary(top[i]))
  }

  /** `analyses` summarise distinct occurrences of `runs`: no run is reported
      more often than it occurs. */
  ghost predicate SummarisesRunsOf(analyses: seq<RunSummary>, runs: seq<AnalysisResult>)
  {
    exists top: seq<AnalysisResult> :: multiset(top) <= multiset(runs) && SummariesOf(analyses, top)
  }

  /** Each reported summary is that of one of `runs`. */
  ghost predicate ReportsOnly(analyses: seq<RunSummary>, runs: seq<AnalysisResult>)
  {
    forall i :: 0 <= i < |analyses| ==> exists a :: a in runs && analyses[i] == Summary(a)
  }

  /** Every one of `runs` is reported. */
  ghost predicate ReportsAll(analyses: seq<RunSummary>, runs: seq<AnalysisResult>)
  {
    forall a :: a in runs ==> Summary(a) in analyses
  }

  /** A run left out started no later than any reported one. */
  ghost predicate OmittedStartedEarlier(analyses: seq<RunSummary>, runs: seq<AnalysisResult>)
  {
    forall a, i :: a in runs && Summary(a) !in analyses && 0 <= i < |analyses| ==> a.startedAt <= analyses[i].startedAt
  }

  /** The latest `limit` runs started in `w`, newest first: only runs of the
      window, each at most as often as it occurs, all of them when `limit`
      allows, and otherwise none that started after a reported one. */
  function AnalysisHistory(results: seq<AnalysisResult>, w: Window, limit: nat): (r: History)
    requires 1 <= limit <= MaxHistoryLimit
    ensures |r.analyses| == r.totalAnalyses == Min(limit, |StartedIn(results, w)|)
    ensures forall i, j :: 0 <= i < j < |r.analyses| ==> r.analyses[i].startedAt >= r.analyses[j].startedAt
    ensures ReportsOnly(r.analyses, StartedIn(results, w))
    ensures SummarisesRunsOf(r.analyses, StartedIn(results, w))
    ensures limit >= |StartedIn(results, w)| ==> ReportsAll(r.analyses, StartedIn(results, w))
    ensures OmittedStartedEarlier(r.analyses, StartedIn(results, w))
    ensures (forall a :: a in results ==> a.Valid()) ==> forall i :: 0 <= i < |r.analyses| ==> r.analyses[i].Valid()
  {
    var runs := StartedIn(results, w);
    var top := TopK(runs, StartedAt, limit);
    var summaries := Summaries(top);
    LatestRuns(runs, top, summaries, limit);
    ValidRunsValidSummaries(runs, summaries);
    History(summaries, |summaries|)
  }

  /** What picking the `limit` latest of `runs` guarantees of their summaries. */
  lemma LatestRuns(runs: seq<AnalysisResult>, top: seq<AnalysisResult>, summaries: seq<RunSummary>, limit: nat)
    requires top == TopK(runs, StartedAt, limit)
    requires SummariesOf(summaries, top)
    ensures forall i, j :: 0 <= i < j < |summaries| ==> summaries[i].startedAt >= summaries[j].startedAt
    ensures multiset(top) <= multiset(runs)
    ensures ReportsOnly(summaries, runs)
    ensures SummarisesRunsOf(summaries, runs)
    ensures limit >= |runs| ==> ReportsAll(summaries, runs)
    ensures OmittedStartedEarlier(summaries, runs)
  {
    TopKSelects(runs, StartedAt, limit);
    forall i, j | 0 <= i < j < |summaries|
      ensures summaries[i].startedAt >= summaries[j].startedAt
    {
      assert StartedAt(top[i]) >= StartedAt(top[j]);
    }
    SummariesFromRuns(runs, top, summaries);
    if limit >= |runs| {
      SummariesCoverRuns(runs, top, summaries);
    }
    OmittedRunsStartEarlier(runs, top, summaries);
  }

  /** Summaries of valid runs are valid. */
  lemma ValidRunsValidSummaries(runs: seq<AnalysisResult>, summaries: seq<RunSummary>)
    requires ReportsOnly(summaries, runs)
    ensures (forall a :: a in runs ==> a.Valid()) ==> forall i :: 0 <= i < |summaries| ==> summaries[i].Valid()
  {
  }

  lemma SummariesFromRuns(runs: seq<AnalysisResult>, top: seq<AnalysisResult>, summaries: seq<RunSummary>)
    requires multiset(top) <= multiset(runs)
    requires SummariesOf(summaries, top)
    ensures ReportsOnly(summaries, runs)
    ensures SummarisesRunsOf(summaries, runs)
  {
    forall i | 0 <= i < |summaries|
      ensures top[i] in runs
    {
      assert top[i] in multiset(top);
    }
    assert forall i :: 0 <= i < |summaries| ==> top[i] in runs && summaries[i] == Summary(top[i]);
  }

  lemma SummariesCoverRuns(runs: seq<AnalysisResult>, top: seq<AnalysisResult>, summaries: seq<RunSummary>)
    requires forall a :: a in runs ==> a in top
    requires SummariesOf(summaries, top)
    ensures ReportsAll(summaries, runs)
  {
    forall a | a in runs
      ensures Summary(a) in summaries
    {
      var k :| 0 <= k < |top| && top[k] == a;
      assert summaries[k] == Summary(a);
    }
  }

  lemma OmittedRunsStartEarlier(runs: seq<AnalysisResult>, top: seq<AnalysisResult>, summaries: seq<RunSummary>)
    requires forall x, y :: x in runs && x !in top && y in top ==> StartedAt(x) <= StartedAt(y)
    requires SummariesOf(summaries, top)
    ensures OmittedStartedEarlier(summaries, runs)
  {
    forall a, i | a in runs && Summary(a) !in summaries && 0 <= i < |summaries|
      ensures a.startedAt <= summaries[i].startedAt
    {
      assert top[i] in top;
      assert a !in top;
      assert StartedAt(a) <= StartedAt(top[i]);
    }
  }
}
