# wiggle-service: a Dafny model of the opportunity and analytics routes

wiggle-service stores arbitrage opportunities, the tokens and exchanges they
involve, per-token multi-exchange rollups and the audit records of analysis
runs. It serves them through HTTP routes. This project models:

- the stored documents;
- the four route groups that read and write them;
- the properties those routes promise.

Every route becomes a pure function, or a method where the source loops, over
the document collection it queries. The collection is a `seq` in store order,
and "now" and the reporting window are parameters.

| file | module | what it holds |
|---|---|---|
| `common.dfy` | `Common` | `Option`/`Result`/`Error`, order-keeping `Filter`, sums, mean/min/max folds, de-duplication and distinctness, and `Percent` with its meaning |
| `ordering.dfy` | `Ordering` | insertion sort under a total preorder, code-point string order (`StrLe`), the store's order on field values (null, then numbers, then strings, then booleans), and `TopK` (sort descending by a key, keep the first `k`) |
| `paging.dfy` | `Paging` | `skip = (page - 1) * page_size` pagination with `has_next`, and `Take` (a `limit` without a `skip`) |
| `models.dfy` | `Models` | the token, exchange, opportunity, pair-observation, multi-exchange rollup and analysis-result documents; their field constraints as `Valid()`; their unique index keys; their defaults |
| `opportunities.dfy` | `Opportunities` | create with field validation and the net-return figure, the filtered/sorted/paginated listing, the multi-exchange listing, and the summary statistics |
| `analytics.dfy` | `Analytics` | the reporting window, the overview, token performance, exchange-pair analytics (profitability threshold 6 %), and the analysis-run history |
| `exchanges.dfy` | `Exchanges` | the name-ordered exchange listing, and the health summary (unhealthy from 3 consecutive errors, error rate in percent) |
| `tokens.dfy` | `Tokens` | token creation under the unique (symbol, chain) key with the 409 conflict, the symbol-ordered listing, and the active-token symbol search |

A refused request is a `Result` error.
- `Invalid(field)` stands for a 422 validation failure.
- `Conflict(detail)` stands for the 409 on a duplicate token.

Query-parameter bounds (`page >= 1`, `1 <= page_size <= 100`, `1 <= limit <= 100`, `1 <= limit <= 50`)
are preconditions, because the framework rejects out-of-range query values before a handler runs.

Rankings share one scheme. `TopK` sorts descending by a key and keeps the first `limit` entries.
- Token performance ranks the symbol groups by their mean estimated return.
- Pair analytics ranks the observed exchange pairs by their mean return.
- The history ranks the analysis runs by start time.

Each ranking proves what it selects:
- the kept entries are distinct and come from the input;
- all of them are kept when `limit` leaves room;
- nothing left out ranks above anything kept.

## Model

| member | source | states |
|---|---|---|
| Models.NewOpportunity | src/wiggle_service/models/opportunity.py:105-159 | An opportunity built from the required fields has gas cost 35, trading fees 0.6 %, confidence 50, is not executed, has no net return and is stamped `now`. It is `Valid` exactly when return >= 0, capital > 0, duration > 0 and there is at least one source exchange. |
| Opportunities.Validate | src/wiggle_service/api/routes/opportunities.py:25-37 | A create request is accepted exactly when no field breaks its declared range. A refusal names a field that does break it. |
| Opportunities.NetReturn | src/wiggle_service/api/routes/opportunities.py:250-252 | The net return is the estimate less gas as a percentage of capital and less the fees. Estimate minus net minus fees, times capital, equals 100 times gas. With non-negative costs the net return never exceeds the estimate. |
| Opportunities.CreateOpportunity | src/wiggle_service/api/routes/opportunities.py:246-271 | Creation fails exactly when a field is out of range. Otherwise the stored opportunity is valid and carries the consistent net return (at most the estimate) and the creation defaults, stamped `now`. It copies every request field: class, estimate, capital, duration, risk level, source exchanges, token symbol and name, gas, fees and notes. |
| Opportunities.DefaultCostsNetReturn | src/wiggle_service/api/routes/opportunities.py:246-268 | Any acceptable request (return >= 0, capital > 0, duration > 0, at least one exchange) that leaves gas and fees at their defaults (35 USD, 0.6 %) is stored, whatever its class, risk level and exchanges, with net return `estimate - 3500 / capital - 0.6`. |
| Opportunities.ListOpportunities | src/wiggle_service/api/routes/opportunities.py:79-151 | `total` counts every matching opportunity. Page `p` is exactly the slice `skip .. skip + page_size` (cut at the end) of the ordered matches `OrderedMatches`, so every item is a stored opportunity matching all supplied filters, including `min_return`. Items are ordered by the named field in the chosen direction, and `has_next` holds exactly when `skip + page_size < total`. |
| Opportunities.OrderedMatches | src/wiggle_service/api/routes/opportunities.py:111-121 | The sequence the listing pages through holds every matching opportunity exactly as often as the store does (same multiset). It is ordered by the value of the field `sort_by` names: descending or ascending, nulls first ascending and last descending, and all records equal when the name is not a scalar field. |
| Opportunities.EveryMatchIsListed | src/wiggle_service/api/routes/opportunities.py:116-121 | For any page size, every matching opportunity appears on some page of the listing. |
| Opportunities.EmptyQueryCountsAll | src/wiggle_service/api/routes/opportunities.py:99-119 | With no filter supplied, `total` is the number of stored opportunities. |
| Opportunities.ListMultiExchange | src/wiggle_service/api/routes/opportunities.py:158-208 | `total` counts the rollups matching symbol, priority and minimum return. Page `p` is exactly the slice `skip .. skip + page_size` of `OrderedMultiMatches`, so its items match, are ordered by best overall return (descending), and are non-negative when the stored rollups are valid. Under the unique symbol index no two items share a symbol. `has_next` holds exactly when `skip + page_size < total`. |
| Opportunities.OrderedMultiMatches | src/wiggle_service/api/routes/opportunities.py:181-184 | The sequence the multi-exchange listing pages through holds every matching rollup exactly as often as the store does, best overall return first, and keeps symbols unique when the store does. |
| Opportunities.EveryMultiMatchIsListed | src/wiggle_service/api/routes/opportunities.py:179-184 | For any page size, every matching rollup appears on some page of the multi-exchange listing. |
| Opportunities.OpportunityStats | src/wiggle_service/api/routes/opportunities.py:296-334 | Total, executed and pending (= total - executed) counts, and the count created in the last 24 hours. Mean, maximum and minimum return are attained and bracket every record; an empty store reports zeros. |
| Opportunities.SummarizeReturns | src/wiggle_service/api/routes/opportunities.py:312-322 | Over a non-empty store, min <= mean <= max, max and min are attained, and every estimated return lies between them. |
| Paging.Paginate | src/wiggle_service/api/routes/opportunities.py:116-143 | Item `k` of page `p` is record `(p - 1) * page_size + k` of the ordered result. The page is empty past the end and never longer than `page_size`. `has_next` holds exactly when `skip + page_size < total`. |
| Paging.HasNextIffNextPageNonEmpty | src/wiggle_service/api/routes/opportunities.py:143 | `has_next` is set exactly when the following page is non-empty. |
| Paging.EveryRecordOnItsPage | src/wiggle_service/api/routes/opportunities.py:116-121 | Record `i` appears at position `i % page_size` of page `i / page_size + 1`, so walking the pages visits the whole result. |
| Paging.PageOfIndex | src/wiggle_service/api/routes/opportunities.py:116-121 | Record `i` of the ordered result lies at position `i % page_size` of page `i / page_size + 1`, inside that page's length. |
| Paging.ListedPosition | src/wiggle_service/api/routes/opportunities.py:116-121 | Any record of a result that is a permutation of the matches sits at some position inside the length of some page of that result. |
| Paging.Take | src/wiggle_service/api/routes/tokens.py:195-198 | A limit without a skip keeps the first `min(limit, n)` entries in order. |
| Ordering.Sort | src/wiggle_service/api/routes/opportunities.py:121 | Sorting yields a permutation of the input that is ordered under any total preorder. |
| Ordering.SortByValue | src/wiggle_service/api/routes/opportunities.py:112-121 | Sorting on a field value gives a permutation of the input ordered by the store's comparison: ascending with nulls first, or descending with nulls last. |
| Ordering.TopKSelects | src/wiggle_service/api/routes/analytics.py:155-160 | Sort-then-limit keeps a sub-multiset of the input, and all of it when `k` covers the input. Any entry left out has a key at most every kept key. |
| Analytics.WindowOf | src/wiggle_service/api/routes/analytics.py:61-66 | The window of the last `days` days includes both its start `now - days * SecondsPerDay` and its end `now`, and nothing beyond either. |
| Analytics.AnalyticsOverview | src/wiggle_service/api/routes/analytics.py:54-119 | Over the opportunities created in the window, it gives the total, executed and pending counts. The average is their mean, and the maximum bounds the average and every return and is attained. It counts distinct non-empty symbols (no more than the total) and distinct source exchanges. An empty window reports zeros, and valid data gives non-negative returns. |
| Analytics.WiderWindowCountsMore | src/wiggle_service/api/routes/analytics.py:62-67 | A window that covers another counts at least as many opportunities. |
| Analytics.SymbolsIn | src/wiggle_service/api/routes/analytics.py:139-154 | The group keys are distinct, each names a non-empty group of the symbol-carrying opportunities in the window, and every such opportunity's symbol is a key. |
| Analytics.TokenRowMeaning | src/wiggle_service/api/routes/analytics.py:146-153 | A token row counts its group and reports the group's mean return. Its maximum is attained and bounds the mean and every return, and its volume is the summed capital. Valid data gives non-negative mean and volume. |
| Analytics.TokenPerformance | src/wiggle_service/api/routes/analytics.py:126-174 | There are `min(limit, groups)` rows, descending by average return, each the aggregate of a non-empty symbol group, with distinct symbols. Every symbol has a row when `limit` covers the groups, and a symbol without a row has a mean no larger than any listed row's. |
| Analytics.TopSymbols | src/wiggle_service/api/routes/analytics.py:155-160 | Ranking symbols by group mean keeps distinct grouped symbols, descending by mean, and all of them when `limit` allows. No omitted symbol outranks a kept one. |
| Analytics.RankedRows | src/wiggle_service/api/routes/analytics.py:163-174 | The rows built for the ranked symbols are descending and distinct, and list every symbol when `limit` allows. An omitted symbol's mean is at most every row's average. |
| Analytics.PairObservationsMembers | src/wiggle_service/api/routes/analytics.py:211-228 | The observations collected under a pair name are exactly those of the rollup entries keyed by that name. |
| Analytics.ObservedIffNonEmptyEntry | src/wiggle_service/api/routes/analytics.py:211-233 | A pair has observations exactly when one of its rollup entries is non-empty. |
| Analytics.ObservedPairs | src/wiggle_service/api/routes/analytics.py:209-233 | The pairs that get a row are distinct and are exactly the pairs with at least one observation. |
| Analytics.SuccessRateMeaning | src/wiggle_service/api/routes/analytics.py:224-236 | The success rate lies in 0..100. It is 0 exactly when no observation returns above 6 %, and 100 exactly when all do. Rate times count equals 100 times the profitable count. |
| Analytics.PairRowMeaning | src/wiggle_service/api/routes/analytics.py:232-244 | A pair row counts its observations. Its average lies between their minimum and maximum, and the maximum is attained. Its success rate has the meaning above. |
| Analytics.PairAnalytics | src/wiggle_service/api/routes/analytics.py:191-257 | `total_pairs` counts the pairs with an observation. There are `min(limit, total_pairs)` rows, descending by average return, each the statistics row of an observed pair, with distinct names. Every observed pair is listed when `limit` allows, and an unlisted pair's mean is at most every listed average. |
| Analytics.TopPairs | src/wiggle_service/api/routes/analytics.py:246-255 | Ranking pairs by mean keeps distinct observed pairs, descending by mean, and all of them when `limit` allows. No omitted pair outranks a kept one. |
| Analytics.RankedPairs | src/wiggle_service/api/routes/analytics.py:231-255 | The rows built for the ranked pairs are descending and distinct, and list every observed pair when `limit` allows. An unlisted pair's mean is at most every row's average. |
| Analytics.AnalysisHistory | src/wiggle_service/api/routes/analytics.py:264-306 | `min(limit, runs in window)` summaries, newest start first, with `total_analyses` equal to the number returned. Each summarises a run started in the window, and no run is summarised more often than it occurs. Every run is listed when `limit` allows, and an unlisted run started no later than any listed one. When every stored run is valid, every summary reports a positive duration and non-negative counts and returns. |
| Analytics.ValidRunsValidSummaries | src/wiggle_service/models/opportunity.py:279-287 | Summaries drawn from valid runs carry a positive duration and non-negative counts and returns, as the run document's field bounds demand. |
| Analytics.LatestRuns | src/wiggle_service/api/routes/analytics.py:277-279 | The newest-first, limited runs are a sub-multiset of the runs. Their summaries are newest first and come from the runs, each at most as often as it occurs. They include all runs when the limit allows, and none omitted is newer than a listed one. |
| Exchanges.ListExchanges | src/wiggle_service/api/routes/exchanges.py:38-89 | `total` counts the exchanges matching type and active status. Page `p` is exactly the slice `skip .. skip + page_size` of `OrderedExchanges`, so it holds matching stored exchanges in ascending name order, strictly ascending under the unique name index. `has_next` holds exactly when `skip + page_size < total`. |
| Exchanges.OrderedExchanges | src/wiggle_service/api/routes/exchanges.py:56-61 | The sequence the exchange listing pages through holds every matching exchange exactly as often as the store does, in ascending name order, and keeps names unique when the store does. |
| Exchanges.EveryExchangeIsListed | src/wiggle_service/api/routes/exchanges.py:56-61 | For any page size, every matching exchange appears on some page of the listing. |
| Exchanges.ActiveAndInactivePartitionType | src/wiggle_service/api/routes/exchanges.py:49-59 | For any type filter, the active total plus the inactive total is the total with no active filter. |
| Exchanges.ExchangeHealth | src/wiggle_service/api/routes/exchanges.py:127-164 | Total, active and healthy (active with fewer than 3 consecutive errors) counts, with healthy <= active <= total. It sums requests and errors, and sets the error rate to errors per hundred requests, or 0 with no requests. It lists, in store order, exactly the exchanges with 3+ consecutive errors or inactive, and healthy + listed = total. |
| Exchanges.Tally | src/wiggle_service/api/routes/exchanges.py:135-141 | One pass over the exchanges yields the active count, the healthy count (active with fewer than 3 consecutive errors), and the summed requests and errors, each agreeing with its filter or sum over the whole list. |
| Exchanges.ErrorRatePercent | src/wiggle_service/api/routes/exchanges.py:142 | The rate is `errors / requests * 100` when there were requests, and 0 otherwise. |
| Exchanges.ErrorRateBounds | src/wiggle_service/api/routes/exchanges.py:140-142 | On valid exchanges the summed counters and the rate are non-negative. The rate is at most 100 when no exchange has more errors than requests. |
| Tokens.DefaultTokenRequest | src/wiggle_service/api/routes/tokens.py:21-30 | A request naming only symbol, name and chain passes validation exactly when the symbol has 1..20 characters and the name 1..100. The default of 18 decimals is never the field a refusal names. |
| Tokens.ValidateToken | src/wiggle_service/api/routes/tokens.py:21-30 | A token request is accepted exactly when symbol length is 1..20, name length is 1..100 and decimals are absent or 0..18. A refusal names a broken field. |
| Tokens.FindToken | src/wiggle_service/api/routes/tokens.py:137-141 | The lookup finds nothing exactly when no stored token has the (symbol, chain) key. What it finds is stored and has that key. |
| Tokens.CreateToken | src/wiggle_service/api/routes/tokens.py:133-162 | Range errors come first. A valid request conflicts, with detail "Token S already exists on C", exactly when the key is taken. Otherwise the store gains one active token copying the request and stamped `now`. Key uniqueness is preserved. |
| Tokens.DefaultRequestCreates | src/wiggle_service/api/routes/tokens.py:133-162 | A default request with admissible lengths for a free (symbol, chain) creates and appends a valid, active token with 18 decimals and no address. |
| Tokens.CreateTwiceConflicts | src/wiggle_service/api/routes/tokens.py:137-147 | Creating the same token a second time is refused as a conflict. |
| Tokens.CreationKeepsKeysUnique | src/wiggle_service/models/opportunity.py:49-57 | Any sequence of create requests keeps the (symbol, chain) keys of the store unique, as the unique index demands. |
| Tokens.KeyIdentifiesToken | src/wiggle_service/models/opportunity.py:54 | Under the unique (symbol, chain) index, looking up a stored token's key finds exactly that token. |
| Tokens.ListTokens | src/wiggle_service/api/routes/tokens.py:47-99 | `total` counts tokens matching symbol pattern, chain and active status. Page `p` is exactly the slice `skip .. skip + page_size` of `OrderedTokens`, so it holds matching stored tokens in ascending symbol order. `has_next` holds exactly when `skip + page_size < total`. |
| Tokens.OrderedTokens | src/wiggle_service/api/routes/tokens.py:68-73 | The sequence the token listing pages through holds every matching token exactly as often as the store does, in ascending symbol order. |
| Tokens.EveryTokenIsListed | src/wiggle_service/api/routes/tokens.py:68-73 | For any page size, every matching token appears on some page of the listing. |
| Tokens.SearchTokens | src/wiggle_service/api/routes/tokens.py:186-209 | The search returns the first `min(limit, n)` active tokens whose symbol matches, in store order, reporting symbol, name, chain and address. All of them are returned when `limit` allows. |
| Tokens.SearchAgreesWithListing | src/wiggle_service/api/routes/tokens.py:186-198 | A search finds as many tokens as the active-token listing with the same symbol filter counts, capped by the search limit. |
| Models.Token.Valid | src/wiggle_service/models/opportunity.py:36 | A token's decimals are absent or lie in 0..18. |
| Models.UniqueTokenKeys | src/wiggle_service/models/opportunity.py:54 | No two stored tokens share a (symbol, chain) key. |
| Models.Exchange.Valid | src/wiggle_service/models/opportunity.py:73-84 | The rate limit is at least 1; consecutive errors, total requests and total errors are non-negative; a known average response time is non-negative. |
| Models.UniqueExchangeNames | src/wiggle_service/models/opportunity.py:98 | No two stored exchanges share a name. |
| Models.Opportunity.Valid | src/wiggle_service/models/opportunity.py:116-143 | Estimated return >= 0, capital > 0, duration > 0, at least one source exchange, and confidence in 0..100. |
| Models.PairObservation.Valid | src/wiggle_service/models/opportunity.py:189-194 | Both prices are positive and both volumes non-negative. |
| Models.MultiExchangeOpportunity.Valid | src/wiggle_service/models/opportunity.py:208-244 | At least two supported exchanges, priority high, medium or low, positive scan frequency, non-negative opportunity count and best return, a known success rate in 0..100, distinct pair keys, and valid observations. |
| Models.UniqueMultiSymbols | src/wiggle_service/models/opportunity.py:249 | No two stored rollups share a symbol. |
| Models.AnalysisResult.Valid | src/wiggle_service/models/opportunity.py:279-287 | Counts, returns, API calls and errors are non-negative, and the duration is positive. |
| Common.PercentMeaning | src/wiggle_service/api/routes/analytics.py:236 | `c` out of `n` in percent lies in 0..100, is 0 exactly at none and 100 exactly at all, and times `n` is `100 * c`. |
| Common.MeanBetweenExtremes | src/wiggle_service/api/routes/analytics.py:92-94 | The mean of a non-empty list lies between its minimum and maximum, and times the count it is the sum. |

## Left out

- Persistence, the database driver, logging and the HTTP error-500 paths are not modelled. Each route is a function of the collection it reads, and the collection is a sequence in store order.
- Fetching one document by id (the 404 paths) is not modelled: it is a plain lookup without logic of its own.
- `datetime.now()` is the parameter `now`, and timestamps are integers in seconds.
- Opportunity class, risk level, chain and exchange type are enumerations defined outside the modelled files. Here they are strings (`Tag`). The framework admits only the enumeration's members as filter values, and none of them is empty. The model treats an empty filter value like an absent one, as the route's `if value:` tests do for plain strings.
- Regular-expression matching of token symbols (case-insensitive `$regex`) is the parameter `matches(pattern, symbol)`; its semantics are not modelled.
- Money and percentages are `real`. Floating-point rounding is not modelled.
- Exchanges.ExchangeHealth: the error rate is reported exactly, whereas the route rounds it with `round(error_rate, 2)` (exchanges.py:160).
- Analytics.PairRowMeaning: the maximum return and the success rate are exact, whereas the route rounds them to two decimals (analytics.py:242-243).
- Analytics.AnalyticsOverview: figures are reported unrounded, whereas the route rounds them to two decimals for the response.
- Analytics.TokenPerformance: rows carry unrounded figures; the route rounds them after ranking, so the ranking itself is unaffected.
- Analytics.PairAnalytics: pairs are ranked by their exact mean, whereas the route sorts on the average already rounded to two decimals. Pairs whose means round to the same value may therefore appear in another order.
- Ties: the pair ranking uses a stable in-memory sort, so pairs with equal averages keep the order in which their names were first seen; the contracts state only the non-increasing order, not that tie order. Symbol groups, runs and the four listings are sorted by the database, which leaves the order of equal keys unspecified, and the contracts leave it open too.
- Opportunities.ListOpportunities: sorting by an array field (`source_exchanges`, `tags`), by the document id or by the free-form `execution_result` is modelled as no ordering at all; the store orders such fields by their elements or their ids. Timestamps are compared as numbers, which matches the store because no field mixes dates with numbers.
- Opportunities.EveryMatchIsListed: the lemma takes one order of equal sort keys, shared by every page request. The database does not promise that order across separate `sort`/`skip`/`limit` queries, so records with equal keys (equal values of the chosen field, or any name that is not a scalar field) could be repeated or skipped between pages.
- Opportunities.EveryMultiMatchIsListed: as above for rollups with equal best overall return, such as the default 0.0.
- Tokens.EveryTokenIsListed: as above for tokens with equal symbols, such as one symbol on several chains. The exchange listing is free of this gap because exchange names are unique.
- Tokens.SearchTokens: the search without a sort is taken to return tokens in store order. The database's natural order is not specified.
- Exchanges.ErrorRateBounds: the rate is bounded by 100 only when no exchange counts more errors than requests. The documents do not enforce that relation, so the route does not promise it either.
- The reporting window includes both ends (`$gte` and `$lte`), as the code queries it. A half-open window `[start, end)` is not used.
- Token creation checks for an existing key and then saves. A concurrent create of the same key between those two steps, which the unique index would reject with an error 500, is not modelled.
- Lengths of symbols and names count characters (`seq<char>`). Unicode normalisation is not modelled.
- Free-form payloads are not modelled: execution results, rollup statistics, historical performance, analysis configuration and error details.
- Rollup fields that no modelled route computes or orders by are carried but unconstrained: best spreads per pair, the most profitable pair, and the next scan time.
- Recording of analysis runs is not modelled; only their history is read.
