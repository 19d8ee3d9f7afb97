/** The exchange routes: the filtered, name-ordered listing and the health
    summary computed over every registered exchange. */
module Exchanges {
  import opened Common
  import opened Ordering
  import opened Paging
  import opened Models

  /** From this many errors in a row an exchange is reported as unhealthy. */
  const UnhealthyConsecutiveErrors: int := 3

  // ----------------------------------------------------------------- listing

  /** Optional listing filters; an absent (or empty) exchange type filters nothing. */
  datatype ExchangeQuery = ExchangeQuery(exchangeType: Option<Tag>, isActive: Option<bool>)

  predicate ExchangeMatches(q: ExchangeQuery, e: Exchange)
  {
    && (q.exchangeType.None? || q.exchangeType.value == "" || e.exchangeType == q.exchangeType.value)
    && (q.isActive.None? || e.isActive == q.isActive.value)
  }

  function ExchangeMatching(store: seq<Exchange>, q: ExchangeQuery): (m: seq<Exchange>)
    ensures forall e :: e in m <==> e in store && ExchangeMatches(q, e)
  {
    Filter(store, (e: Exchange) => ExchangeMatches(q, e))
  }

  function ExchangeName(e: Exchange): string
  {
    e.name
  }

  /** Every matching exchange exactly once, in ascending name order. */
  function OrderedExchanges(store: seq<Exchange>, q: ExchangeQuery): (s: seq<Exchange>)
    ensures multiset(s) == multiset(ExchangeMatching(store, q))
    ensures forall i, j :: 0 <= i < j < |s| ==> StrLe(s[i].name, s[j].name)
    ensures UniqueExchangeNames(store) ==> UniqueExchangeNames(s)
  {
    var sorted := SortByName(ExchangeMatching(store, q), ExchangeName);
    FilterSubMultiset(store, (e: Exchange) => ExchangeMatches(q, e));
    UniqueKeysSurvive(sorted, store, ExchangeName);
    sorted
  }

  /** One page of the matching exchanges in ascending name order. */
  function ListExchanges(store: seq<Exchange>, q: ExchangeQuery, page: nat, pageSize: nat): (r: Page<Exchange>)
    requires page >= 1 && 1 <= pageSize <= 100
    ensures r.total == |ExchangeMatching(store, q)|
    ensures |r.items| == PageLength(r.total, page, pageSize)
    ensures forall k :: 0 <= k < |r.items| ==> r.items[k] == OrderedExchanges(store, q)[Skip(page, pageSize) + k]
    ensures r.hasNext <==> Skip(page, pageSize) + pageSize < r.total
    ensures forall e :: e in r.items ==> e in store && ExchangeMatches(q, e)
    ensures forall i, j :: 0 <= i < j < |r.items| ==> StrLe(r.items[i].name, r.items[j].name)
    ensures UniqueExchangeNames(store) ==>
              forall i, j :: 0 <= i < j < |r.items| ==> StrLe(r.items[i].name, r.items[j].name) && r.items[i].name != r.items[j].name
  {
    var matching := ExchangeMatching(store, q);
    var ordered := OrderedExchanges(store, q);
    SameElements(matching, ordered);
    PageItemsFromSource(ordered, page, pageSize);
    Paginate(ordered, page, pageSize)
  }

  /** Paging through the exchange listing reaches every matching exchange. */
  lemma EveryExchangeIsListed(store: seq<Exchange>, q: ExchangeQuery, pageSize: nat, e: Exchange)
    requires 1 <= pageSize <= 100
    requires e in store && ExchangeMatches(q, e)
    ensures exists page :: page >= 1 && e in ListExchanges(store, q, page, pageSize).items
  {
    var page, k := ListedPosition(OrderedExchanges(store, q), ExchangeMatching(store, q), pageSize, e);
    assert ListExchanges(store, q, page, pageSize).items[k] == e;
  }

  /** Listing the active and the inactive exchanges of one type accounts for every exchange of that type. */
  lemma ActiveAndInactivePartitionType(store: seq<Exchange>, exchangeType: Option<Tag>, page: nat, pageSize: nat)
    requires page >= 1 && 1 <= pageSize <= 100
    ensures ListExchanges(store, ExchangeQuery(exchangeType, Some(true)), page, pageSize).total
            + ListExchanges(store, ExchangeQuery(exchangeType, Some(false)), page, pageSize).total
            == ListExchanges(store, ExchangeQuery(exchangeType, None), page, pageSize).total
  {
    var active := ExchangeQuery(exchangeType, Some(true));
    var inactive := ExchangeQuery(exchangeType, Some(false));
    var any := ExchangeQuery(exchangeType, None);
    FilterSplit(store, (e: Exchange) => ExchangeMatches(any, e), (e: Exchange) => ExchangeMatches(active, e),
                (e: Exchange) => ExchangeMatches(inactive, e));
  }

  // ----------------------------------------------------------- health summary

  /** What the summary reports about an exchange that needs attention. */
  datatype Issue = Issue(name: string, consecutiveErrors: int, lastError: Option<string>, isActive: bool)

  datatype HealthSummary = HealthSummary(
    totalExchanges: nat,
    activeExchanges: nat,
    healthyExchanges: nat,
    errorRatePercent: real,
    totalRequests: int,
    totalErrors: int,
    unhealthyExchanges: seq<Issue>)

  predicate IsActive(e: Exchange)
  {
    e.isActive
  }

  /** Active, and fewer than three errors in a row. */
  predicate Healthy(e: Exchange)
  {
    e.isActive && e.consecutiveErrors < UnhealthyConsecutiveErrors
  }

  /** Three or more errors in a row, or switched off. */
  predicate NeedsAttention(e: Exchange)
  {
    e.consecutiveErrors >= UnhealthyConsecutiveErrors || !e.isActive
  }

  function IssueOf(e: Exchange): Issue
  {
    Issue(e.name, e.consecutiveErrors, e.lastError, e.isActive)
  }

  function TotalRequests(e: Exchange): int
  {
    e.totalRequests
  }

  function TotalErrors(e: Exchange): int
  {
    e.totalErrors
  }

  /** The health summary: counters summed over every exchange, and the exchanges needing attention in store order. */
  method ExchangeHealth(exchanges: seq<Exchange>) returns (h: HealthSummary)
    ensures h.totalExchanges == |exchanges|
    ensures h.activeExchanges == |Filter(exchanges, IsActive)|
    ensures h.healthyExchanges == |Filter(exchanges, Healthy)|
    ensures h.healthyExchanges <= h.activeExchanges <= h.totalExchanges
    ensures h.totalRequests == SumInt(exchanges, TotalRequests)
    ensures h.totalErrors == SumInt(exchanges, TotalErrors)
    ensures |h.unhealthyExchanges| == |Filter(exchanges, NeedsAttention)|
    ensures forall k :: 0 <= k < |h.unhealthyExchanges| ==>
              h.unhealthyExchanges[k] == IssueOf(Filter(exchanges, NeedsAttention)[k])
    ensures h.healthyExchanges + |h.unhealthyExchanges| == h.totalExchanges
    ensures IsErrorRate(h.errorRatePercent, h.totalErrors, h.totalRequests)
  {
    var active, healthy, requests, errors := Tally(exchanges);
    FilterMonotone(exchanges, Healthy, IsActive);
    FilterPartition(exchanges, Healthy, NeedsAttention);
    var attention := Filter(exchanges, NeedsAttention);
    var issues := seq(|attention|, k requires 0 <= k < |attention| => IssueOf(attention[k]));
    var rate := ErrorRatePercent(errors, requests);
    h := HealthSummary(|exchanges|, active, healthy, rate, requests, errors, issues);
  }

  /** One pass over the exchanges: the active and healthy counts and the summed counters. */
  method Tally(exchanges: seq<Exchange>) returns (active: nat, healthy: nat, requests: int, errors: int)
    ensures active == |Filter(exchanges, IsActive)|
    ensures healthy == |Filter(exchanges, Healthy)|
    ensures requests == SumInt(exchanges, TotalRequests)
    ensures errors == SumInt(exchanges, TotalErrors)
  {
    active, healthy, requests, errors := 0, 0, 0, 0;
    for i := 0 to |exchanges|
      invariant active == |Filter(exchanges[..i], IsActive)|
      invariant healthy == |Filter(exchanges[..i], Healthy)|
      invariant requests == SumInt(exchanges[..i], TotalRequests)
      invariant errors == SumInt(exchanges[..i], TotalErrors)
    {
      var e := exchanges[i];
      FilterStep(exchanges, i, IsActive);
      FilterStep(exchanges, i, Healthy);
      SumIntStep(exchanges, i, TotalRequests);
      SumIntStep(exchanges, i, TotalErrors);
      if e.isActive {
        active := active + 1;
      }
      if Healthy(e) {
        healthy := healthy + 1;
      }
      requests := requests + e.totalRequests;
      errors := errors + e.totalErrors;
    }
    assert exchanges[..|exchanges|] == exchanges;
  }

  /** `rate` is `errors` per hundred `requests`, or 0 when there were no requests. */
  ghost predicate IsErrorRate(rate: real, errors: int, requests: int)
  {
    && (requests > 0 ==> IsPercentOf(rate, errors, requests))
    && (requests <= 0 ==> rate == 0.0)
  }

  method ErrorRatePercent(errors: int, requests: int) returns (rate: real)
    ensures IsErrorRate(rate, errors, requests)
  {
    rate := 0.0;
    if requests > 0 {
      var q := errors as real / requests as real;
      assert q * (requests as real) == errors as real;
      rate := q * 100.0;
    }
  }

  /** On valid exchanges the counters are non-negative, and the error rate stays
      within 0..100 as long as no exchange has counted more errors than requests. */
  lemma ErrorRateBounds(exchanges: seq<Exchange>, h: HealthSummary)
    requires forall e :: e in exchanges ==> e.Valid()
    requires h.totalRequests == SumInt(exchanges, TotalRequests)
    requires h.totalErrors == SumInt(exchanges, TotalErrors)
    requires IsErrorRate(h.errorRatePercent, h.totalErrors, h.totalRequests)
    ensures h.totalRequests >= 0 && h.totalErrors >= 0 && h.errorRatePercent >= 0.0
    ensures (forall e :: e in exchanges ==> e.totalErrors <= e.totalRequests) ==> h.errorRatePercent <= 100.0
  {
    SumIntNonNegative(exchanges, TotalRequests);
    SumIntNonNegative(exchanges, TotalErrors);
    if forall e :: e in exchanges ==> e.totalErrors <= e.totalRequests {
      SumIntMonotone(exchanges, TotalErrors, TotalRequests);
    }
    if h.totalRequests > 0 {
      RateBounds(h.errorRatePercent, h.totalRequests as real, h.totalErrors as real);
    }
  }

  lemma RateBounds(rate: real, requests: real, errors: real)
    requires requests > 0.0 && errors >= 0.0 && rate * requests == 100.0 * errors
    ensures rate >= 0.0
    ensures errors <= requests ==> rate <= 100.0
  {
  }
}
