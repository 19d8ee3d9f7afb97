/** The token routes: creation under the unique (symbol, chain) index, the
    filtered symbol-ordered listing, and the active-token symbol search.

    Symbol matching is a case-insensitive regular-expression search in the
    store; its semantics are outside this model and enter as the parameter
    `matches(pattern, symbol)`. */
module Tokens {
  import opened Common
  import opened Ordering
  import opened Paging
  import opened Models

  const MaxSymbolLength: int := 20
  const MaxNameLength: int := 100
  const MaxSearchLimit: int := 50

  /** Body of a create request. */
  datatype TokenCreateRequest = TokenCreateRequest(
    symbol: string,
    name: string,
    address: Option<string>,
    chain: Tag,
    decimals: Option<int>,
    coingeckoId: Option<string>,
    tags: seq<string>,
    notes: string)

  /** A request naming only the required fields; decimals default to 18. Such a
      request is accepted exactly when its symbol and name have admissible lengths:
      the default decimals never fail validation. */
  function DefaultTokenRequest(symbol: string, name: string, chain: Tag): (req: TokenCreateRequest)
    ensures ValidateToken(req).Ok? <==> 1 <= |symbol| <= MaxSymbolLength && 1 <= |name| <= MaxNameLength
    ensures ValidateToken(req).Err? ==> ValidateToken(req).error.field in {"symbol", "name"}
  {
    TokenCreateRequest(symbol, name, None, chain, Some(DefaultDecimals), None, [], "")
  }

  /** The request field `field` is outside its declared range. An absent decimals value is accepted. */
  predicate TokenViolates(req: TokenCreateRequest, field: string)
  {
    || (field == "symbol" && !(1 <= |req.symbol| <= MaxSymbolLength))
    || (field == "name" && !(1 <= |req.name| <= MaxNameLength))
    || (field == "decimals" && req.decimals.Some? && !(0 <= req.decimals.value <= MaxDecimals))
  }

  function ValidateToken(req: TokenCreateRequest): (r: Result<TokenCreateRequest>)
    ensures r.Ok? ==> r.value == req
    ensures r.Ok? <==> forall field :: !TokenViolates(req, field)
    ensures r.Err? ==> r.error.Invalid? && TokenViolates(req, r.error.field)
  {
    if !(1 <= |req.symbol| <= MaxSymbolLength) then
      assert TokenViolates(req, "symbol");
      Err(Invalid("symbol"))
    else if !(1 <= |req.name| <= MaxNameLength) then
      assert TokenViolates(req, "name");
      Err(Invalid("name"))
    else if req.decimals.Some? && !(0 <= req.decimals.value <= MaxDecimals) then
      assert TokenViolates(req, "decimals");
      Err(Invalid("decimals"))
    else Ok(req)
  }

  /** The stored token with this symbol on this chain, if there is one. */
  function FindToken(store: seq<Token>, symbol: string, chain: Tag): (found: Option<Token>)
    ensures found.None? <==> forall t :: t in store ==> t.Key() != (symbol, chain)
    ensures found.Some? ==> found.value in store && found.value.Key() == (symbol, chain)
  {
    if |store| == 0 then None
    else if store[0].Key() == (symbol, chain) then Some(store[0])
    else
      assert forall t :: t in store ==> t == store[0] || t in store[1..];
      FindToken(store[1..], symbol, chain)
  }

  /** The document built from a validated request at time `now`. */
  function NewToken(req: TokenCreateRequest, now: int): Token
  {
    Token(req.symbol, req.name, req.address, req.chain, req.decimals, req.coingeckoId, None,
          true, now, now, req.tags, req.notes)
  }

  function ConflictDetail(symbol: string, chain: Tag): string
  {
    "Token " + symbol + " already exists on " + chain
  }

  /** The store after a successful creation, and the token created. */
  datatype Created = Created(store: seq<Token>, token: Token)

  /** Create a token: range errors first, then a conflict if (symbol, chain) is
      taken, otherwise the new active token is appended to the store. */
  function CreateToken(store: seq<Token>, req: TokenCreateRequest, now: int): (r: Result<Created>)
    ensures (exists field :: TokenViolates(req, field)) ==> r.Err? && r.error.Invalid? && TokenViolates(req, r.error.field)
    ensures (forall field :: !TokenViolates(req, field)) ==>
              (r.Err? <==> exists t :: t in store && t.Key() == (req.symbol, req.chain))
    ensures (forall field :: !TokenViolates(req, field)) && r.Err? ==> r.error == Conflict(ConflictDetail(req.symbol, req.chain))
    ensures r.Ok? ==> r.value.store == store + [r.value.token]
    ensures r.Ok? ==> var t := r.value.token;
              && t.Key() == (req.symbol, req.chain) && t.name == req.name && t.address == req.address
              && t.decimals == req.decimals && t.coingeckoId == req.coingeckoId && t.tags == req.tags
              && t.notes == req.notes && t.isActive && t.createdAt == now && t.updatedAt == now && t.Valid()
    ensures r.Ok? && UniqueTokenKeys(store) ==> UniqueTokenKeys(r.value.store)
  {
    match ValidateToken(req)
    case Err(e) => Err(e)
    case Ok(_) =>
      if FindToken(store, req.symbol, req.chain).Some? then
        Err(Conflict(ConflictDetail(req.symbol, req.chain)))
      else
        var t := NewToken(req, now);
        var s := store + [t];
        assert forall i :: 0 <= i < |store| ==> store[i] in store && s[i] == store[i];
        Ok(Created(s, t))
  }

  /** A default request for a free (symbol, chain) with admissible lengths creates a
      valid active token with 18 decimals and no address. */
  lemma DefaultRequestCreates(store: seq<Token>, symbol: string, name: string, chain: Tag, now: int)
    requires 1 <= |symbol| <= MaxSymbolLength && 1 <= |name| <= MaxNameLength
    requires forall t :: t in store ==> t.Key() != (symbol, chain)
    ensures var r := CreateToken(store, DefaultTokenRequest(symbol, name, chain), now);
      && r.Ok? && r.value.token.Valid() && r.value.token.isActive
      && r.value.token.decimals == Some(DefaultDecimals) && r.value.token.address.None?
      && r.value.token.Key() == (symbol, chain) && r.value.store == store + [r.value.token]
  {
  }

  /** Under the unique (symbol, chain) index a key names exactly one stored token,
      the one the lookup finds. */
  lemma KeyIdentifiesToken(store: seq<Token>, t: Token)
    requires UniqueTokenKeys(store) && t in store
    ensures FindToken(store, t.symbol, t.chain) == Some(t)
  {
    var found := FindToken(store, t.symbol, t.chain).value;
    var i :| 0 <= i < |store| && store[i] == t;
    var j :| 0 <= j < |store| && store[j] == found;
    assert i == j;
  }

  /** The second creation of the same token is refused as a conflict, and the store keeps one copy. */
  lemma CreateTwiceConflicts(store: seq<Token>, req: TokenCreateRequest, now: int, later: int)
    requires CreateToken(store, req, now).Ok?
    ensures var again := CreateToken(CreateToken(store, req, now).value.store, req, later);
      again.Err? && again.error == Conflict(ConflictDetail(req.symbol, req.chain))
  {
    var created := CreateToken(store, req, now).value;
    assert created.token in created.store;
  }

  /** Whether the store holds a token of this symbol and chain is exactly what decides a conflict,
      so creation never yields two tokens with one key. */
  lemma {:induction false} CreationKeepsKeysUnique(store: seq<Token>, reqs: seq<TokenCreateRequest>, now: int)
    requires UniqueTokenKeys(store)
    ensures UniqueTokenKeys(CreateAll(store, reqs, now))
    decreases |reqs|
  {
    if |reqs| > 0 {
      match CreateToken(store, reqs[0], now)
      case Ok(c) => CreationKeepsKeysUnique(c.store, reqs[1..], now);
      case Err(_) => CreationKeepsKeysUnique(store, reqs[1..], now);
    }
  }

  /** A sequence of create requests applied in turn; refused ones leave the store as it was. */
  function CreateAll(store: seq<Token>, reqs: seq<TokenCreateRequest>, now: int): seq<Token>
    decreases |reqs|
  {
    if |reqs| == 0 then store
    else
      match CreateToken(store, reqs[0], now)
      case Ok(c) => CreateAll(c.store, reqs[1..], now)
      case Err(_) => CreateAll(store, reqs[1..], now)
  }

  // ----------------------------------------------------------------- listing

  /** Optional listing filters; an absent or empty symbol or chain filters nothing. */
  datatype TokenQuery = TokenQuery(symbol: Option<string>, chain: Option<Tag>, isActive: Option<bool>)

  predicate TokenMatches(q: TokenQuery, matches: (string, string) -> bool, t: Token)
  {
    && (q.symbol.None? || q.symbol.value == "" || matches(q.symbol.value, t.symbol))
    && (q.chain.None? || q.chain.value == "" || t.chain == q.chain.value)
    && (q.isActive.None? || t.isActive == q.isActive.value)
  }

  function TokenMatching(store: seq<Token>, q: TokenQuery, matches: (string, string) -> bool): (m: seq<Token>)
    ensures forall t :: t in m <==> t in store && TokenMatches(q, matches, t)
  {
    Filter(store, (t: Token) => TokenMatches(q, matches, t))
  }

  function TokenSymbol(t: Token): string
  {
    t.symbol
  }

  /** Every matching token exactly once, in ascending symbol order. */
  function OrderedTokens(store: seq<Token>, q: TokenQuery, matches: (string, string) -> bool): (s: seq<Token>)
    ensures multiset(s) == multiset(TokenMatching(store, q, matches))
    ensures forall i, j :: 0 <= i < j < |s| ==> StrLe(s[i].symbol, s[j].symbol)
  {
    SortByName(TokenMatching(store, q, matches), TokenSymbol)
  }

  /** One page of the matching tokens in ascending symbol order. */
  function ListTokens(store: seq<Token>, q: TokenQuery, matches: (string, string) -> bool,
                      page: nat, pageSize: nat): (r: Page<Token>)
    requires page >= 1 && 1 <= pageSize <= 100
    ensures r.total == |TokenMatching(store, q, matches)|
    ensures |r.items| == PageLength(r.total, page, pageSize)
    ensures forall k :: 0 <= k < |r.items| ==> r.items[k] == OrderedTokens(store, q, matches)[Skip(page, pageSize) + k]
    ensures r.hasNext <==> Skip(page, pageSize) + pageSize < r.total
    ensures forall t :: t in r.items ==> t in store && TokenMatches(q, matches, t)
    ensures forall i, j :: 0 <= i < j < |r.items| ==> StrLe(r.items[i].symbol, r.items[j].symbol)
  {
    var matching := TokenMatching(store, q, matches);
    var ordered := OrderedTokens(store, q, matches);
    SameElements(matching, ordered);
    PageItemsFromSource(ordered, page, pageSize);
    Paginate(ordered, page, pageSize)
  }

  /** Paging through the token listing reaches every matching token. */
  lemma EveryTokenIsListed(store: seq<Token>, q: TokenQuery, matches: (string, string) -> bool,
                           pageSize: nat, t: Token)
    requires 1 <= pageSize <= 100
    requires t in store && TokenMatches(q, matches, t)
    ensures exists page :: page >= 1 && t in ListTokens(store, q, matches, page, pageSize).items
  {
    var page, k := ListedPosition(OrderedTokens(store, q, matches), TokenMatching(store, q, matches), pageSize, t);
    assert ListTokens(store, q, matches, page, pageSize).items[k] == t;
  }

  // ------------------------------------------------------------------ search

  /** What a search reports of a token. */
  datatype SearchHit = SearchHit(symbol: string, name: string, chain: Tag, address: Option<string>)

  function HitOf(t: Token): SearchHit
  {
    SearchHit(t.symbol, t.name, t.chain, t.address)
  }

  /** The active tokens whose symbol matches `symbol`, in store order. */
  function ActiveMatching(store: seq<Token>, symbol: string, matches: (string, string) -> bool): (m: seq<Token>)
    ensures forall t :: t in m <==> t in store && t.isActive && matches(symbol, t.symbol)
  {
    Filter(store, (t: Token) => t.isActive && matches(symbol, t.symbol))
  }

  /** The first `limit` active tokens whose symbol matches. */
  function SearchTokens(store: seq<Token>, symbol: string, matches: (string, string) -> bool, limit: nat): (r: seq<SearchHit>)
    requires 1 <= limit <= MaxSearchLimit
    ensures |r| == Min(limit, |ActiveMatching(store, symbol, matches)|)
    ensures forall k :: 0 <= k < |r| ==> r[k] == HitOf(ActiveMatching(store, symbol, matches)[k])
    ensures |ActiveMatching(store, symbol, matches)| <= limit ==>
              forall t :: t in store && t.isActive && matches(symbol, t.symbol) ==> HitOf(t) in r
  {
    var active := ActiveMatching(store, symbol, matches);
    var found := Take(active, limit);
    var hits := seq(|found|, k requires 0 <= k < |found| => HitOf(found[k]));
    forall t | |active| <= limit && t in store && t.isActive && matches(symbol, t.symbol)
      ensures HitOf(t) in hits
    {
      var j :| 0 <= j < |active| && active[j] == t;
      assert hits[j] == HitOf(t);
    }
    hits
  }

  /** A search finds as many tokens as the listing of active tokens with that symbol filter counts,
      up to the search limit. */
  lemma SearchAgreesWithListing(store: seq<Token>, symbol: string, matches: (string, string) -> bool,
                                limit: nat, pageSize: nat)
    requires symbol != "" && 1 <= limit <= MaxSearchLimit && 1 <= pageSize <= 100
    ensures |SearchTokens(store, symbol, matches, limit)|
            == Min(limit, ListTokens(store, TokenQuery(Some(symbol), None, Some(true)), matches, 1, pageSize).total)
  {
    var q := TokenQuery(Some(symbol), None, Some(true));
    FilterAgrees(store, (t: Token) => t.isActive && matches(symbol, t.symbol), (t: Token) => TokenMatches(q, matches, t));
  }
}
