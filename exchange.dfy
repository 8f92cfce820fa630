/** The exchange object itself: its credentials, the markets it has loaded, the registry of
    orders it has placed, and the operations of the adapter that work by updating state
    step by step (loops over a reply, writes into the caller's parameters or the registry). */
module Exchange {
  import opened Base
  import opened Text
  import opened Dicts
  import opened Parsers
  import opened Requests
  import Signing

  // ---------------------------------------------------------------- fetch_tickers

  /** The `tickers` reply: pairs of market id and ticker record, in reply order. */
  type TickerReply = seq<(string, RawTicker)>

  /** What `fetch_tickers` returns: every ticker keyed by symbol when no symbols were asked
      for; otherwise the first requested symbol's ticker, or, when none of them has one, a
      dictionary of the requested symbols, each mapped to None. */
  datatype TickersReply =
    | AllTickers(table: map<Option<string>, Ticker>)
    | OneTicker(ticker: Ticker)
    | NoneFound(misses: map<string, Option<Ticker>>)

  /** The table the first loop of `fetch_tickers` builds from the first entries: each entry's
      market is looked up by id (an unknown id is a KeyError) and the parsed ticker is stored
      under that market's symbol. */
  function TickerTable(reply: TickerReply, marketsById: map<string, Market>): Result<map<Option<string>, Ticker>>
    decreases |reply|
  {
    if reply == [] then Ok(map[])
    else
      var last := reply[|reply| - 1];
      match TickerTable(reply[..|reply| - 1], marketsById)
      case Err(e) => Err(e)
      case Ok(t) =>
        if last.0 in marketsById then Ok(t[marketsById[last.0].symbol := ParseTicker(last.1, Some(marketsById[last.0]))])
        else Err(KeyError(last.0))
  }

  predicate AllKnown(reply: TickerReply, marketsById: map<string, Market>)
  {
    forall i :: 0 <= i < |reply| ==> reply[i].0 in marketsById
  }

  /** The table is built exactly when every id of the reply is a known market; otherwise the
      error names the first unknown id. */
  lemma {:induction false} TickerTableDefined(reply: TickerReply, marketsById: map<string, Market>)
    ensures TickerTable(reply, marketsById).Ok? <==> AllKnown(reply, marketsById)
    ensures TickerTable(reply, marketsById).Err? ==>
      exists k :: 0 <= k < |reply| && reply[k].0 !in marketsById &&
        AllKnown(reply[..k], marketsById) && TickerTable(reply, marketsById).error == KeyError(reply[k].0)
    decreases |reply|
  {
    if reply != [] {
      var init := reply[..|reply| - 1];
      TickerTableDefined(init, marketsById);
      if TickerTable(init, marketsById).Err? {
        var k :| 0 <= k < |init| && init[k].0 !in marketsById &&
          AllKnown(init[..k], marketsById) && TickerTable(init, marketsById).error == KeyError(init[k].0);
        assert init[..k] == reply[..k];
        assert reply[k] == init[k];
      } else {
        assert init == reply[..|reply| - 1];
        if reply[|reply| - 1].0 !in marketsById {
          assert reply[..|reply| - 1] == init;
        } else {
          forall i | 0 <= i < |reply| ensures reply[i].0 in marketsById {
            if i < |reply| - 1 { assert reply[i] == init[i]; }
          }
        }
      }
    }
  }

  /** The symbol under which the entry at index `i` is stored. */
  function SymbolAt(reply: TickerReply, marketsById: map<string, Market>, i: nat): Option<string>
    requires AllKnown(reply, marketsById) && i < |reply|
  {
    marketsById[reply[i].0].symbol
  }

  /** Leaving out the last entry of a reply whose ids are all known leaves ids all known. */
  lemma KnownPrefix(reply: TickerReply, marketsById: map<string, Market>, n: nat)
    requires AllKnown(reply, marketsById) && n <= |reply|
    ensures AllKnown(reply[..n], marketsById)
    ensures forall i :: 0 <= i < n ==> SymbolAt(reply[..n], marketsById, i) == SymbolAt(reply, marketsById, i)
  {
    forall i | 0 <= i < n ensures reply[..n][i].0 in marketsById {
      assert reply[..n][i] == reply[i];
    }
  }

  /** The keys of the table are the symbols of the reply's markets. */
  lemma {:induction false} TickerTableKeys(reply: TickerReply, marketsById: map<string, Market>)
    requires AllKnown(reply, marketsById)
    ensures TickerTable(reply, marketsById).Ok?
    ensures TickerTable(reply, marketsById).value.Keys == set i | 0 <= i < |reply| :: SymbolAt(reply, marketsById, i)
    decreases |reply|
  {
    TickerTableDefined(reply, marketsById);
    if reply != [] {
      var n := |reply| - 1;
      var init := reply[..n];
      KnownPrefix(reply, marketsById, n);
      TickerTableKeys(init, marketsById);
      var before := set i | 0 <= i < n :: SymbolAt(init, marketsById, i);
      var after := set i | 0 <= i < |reply| :: SymbolAt(reply, marketsById, i);
      forall x ensures x in after <==> x in before + {SymbolAt(reply, marketsById, n)} {
        if x in after {
          var i :| 0 <= i < |reply| && SymbolAt(reply, marketsById, i) == x;
          if i < n { assert SymbolAt(init, marketsById, i) == x; }
        }
        if x in before {
          var i :| 0 <= i < n && SymbolAt(init, marketsById, i) == x;
          assert SymbolAt(reply, marketsById, i) == x;
        }
      }
    }
  }

  /** Under each symbol sits the ticker of the LAST entry with that symbol: a later market
      with the same symbol overwrites an earlier one. */
  lemma {:induction false} TickerTableLastWins(reply: TickerReply, marketsById: map<string, Market>, i: nat)
    requires AllKnown(reply, marketsById) && i < |reply|
    requires forall j :: i < j < |reply| ==> SymbolAt(reply, marketsById, j) != SymbolAt(reply, marketsById, i)
    ensures TickerTable(reply, marketsById).Ok?
    ensures SymbolAt(reply, marketsById, i) in TickerTable(reply, marketsById).value
    ensures TickerTable(reply, marketsById).value[SymbolAt(reply, marketsById, i)]
         == ParseTicker(reply[i].1, Some(marketsById[reply[i].0]))
    decreases |reply|
  {
    TickerTableDefined(reply, marketsById);
    var n := |reply| - 1;
    var init := reply[..n];
    KnownPrefix(reply, marketsById, n);
    TickerTableDefined(init, marketsById);
    if i < n {
      assert init[i] == reply[i];
      TickerTableLastWins(init, marketsById, i);
      var t := TickerTable(init, marketsById).value;
      assert SymbolAt(reply, marketsById, n) != SymbolAt(reply, marketsById, i);
      assert TickerTable(reply, marketsById).value
          == t[SymbolAt(reply, marketsById, n) := ParseTicker(reply[n].1, Some(marketsById[reply[n].0]))];
    }
  }

  /** The symbols in `syms[..n]`, as a set. */
  function Listed(syms: seq<string>, n: nat): set<string>
    requires n <= |syms|
  {
    set j | 0 <= j < n :: syms[j]
  }

  // ---------------------------------------------------------------- the caller's parameters

  /** A parameter dictionary the caller owns, which `sign` writes into. */
  class Params {
    var items: Dict

    constructor (items: Dict)
      ensures this.items == items
    {
      this.items := items;
    }
  }

  // ---------------------------------------------------------------- the exchange

  class Graviex {
    /** The credentials; either may be unset. */
    var apiKey: Option<string>
    var secret: Option<string>
    /** The loaded markets, by exchange id (the framework's `markets_by_id`). */
    var marketsById: map<string, Market>
    /** The registry of orders placed through `create_order`, by order id. */
    var orders: map<Option<string>, Order>

    constructor (apiKey: Option<string>, secret: Option<string>, marketsById: map<string, Market>)
      ensures this.apiKey == apiKey && this.secret == secret && this.marketsById == marketsById
      ensures orders == map[]
    {
      this.apiKey := apiKey;
      this.secret := secret;
      this.marketsById := marketsById;
      orders := map[];
    }

    /** `fetch_markets`, given the decoded `tickers` reply: one market entry per reply entry,
        in reply order, or the error of the first entry that cannot be read. */
    method FetchMarkets(reply: seq<(string, RawMarket)>, currencyCode: string -> string) returns (r: Result<seq<Market>>)
      ensures r.Ok? <==> forall i :: 0 <= i < |reply| ==> MarketEntry(reply[i].0, reply[i].1, currencyCode).Ok?
      ensures r.Ok? ==> |r.value| == |reply|
      ensures r.Ok? ==> forall i :: 0 <= i < |reply| ==>
        MarketEntry(reply[i].0, reply[i].1, currencyCode) == Ok(r.value[i]) && r.value[i].id == reply[i].0
      ensures r.Err? ==> exists k :: (0 <= k < |reply|
        && (forall i :: 0 <= i < k ==> MarketEntry(reply[i].0, reply[i].1, currencyCode).Ok?)
        && MarketEntry(reply[k].0, reply[k].1, currencyCode) == Err(r.error))
    {
      var result: seq<Market> := [];
      var i := 0;
      while i < |reply|
        invariant 0 <= i <= |reply| && |result| == i
        invariant forall j :: 0 <= j < i ==>
          MarketEntry(reply[j].0, reply[j].1, currencyCode) == Ok(result[j]) && result[j].id == reply[j].0
      {
        var entry := MarketEntry(reply[i].0, reply[i].1, currencyCode);
        if entry.Err? {
          return Err(entry.error);
        }
        result := result + [entry.value];
        i := i + 1;
      }
      return Ok(result);
    }

    /** `fetch_tickers`, given the decoded `tickers` reply. */
    method FetchTickers(reply: TickerReply, symbols: Option<seq<string>>) returns (r: Result<TickersReply>)
      ensures TickerTable(reply, marketsById).Err? ==> r == Err(TickerTable(reply, marketsById).error)
      ensures TickerTable(reply, marketsById).Ok? ==> r.Ok?
      ensures symbols.None? && TickerTable(reply, marketsById).Ok? ==>
        r == Ok(AllTickers(TickerTable(reply, marketsById).value))
      ensures symbols.Some? && TickerTable(reply, marketsById).Ok? ==>
        var table := TickerTable(reply, marketsById).value;
        var syms := symbols.value;
        && (r.value.OneTicker? <==> exists j :: 0 <= j < |syms| && Some(syms[j]) in table)
        && (r.value.OneTicker? ==> exists k :: (0 <= k < |syms| && Some(syms[k]) in table
              && r.value.ticker == table[Some(syms[k])] && (forall j :: 0 <= j < k ==> Some(syms[j]) !in table)))
        && (!r.value.OneTicker? ==> (r.value.NoneFound? && r.value.misses.Keys == Listed(syms, |syms|)
              && (forall s :: s in r.value.misses ==> r.value.misses[s] == None)))
    {
      var result: map<Option<string>, Ticker> := map[];
      var i := 0;
      while i < |reply|
        invariant 0 <= i <= |reply|
        invariant TickerTable(reply[..i], marketsById) == Ok(result)
      {
        assert reply[..i + 1][..i] == reply[..i];
        var (id, raw) := reply[i];
        if id !in marketsById {
          assert TickerTable(reply[..i + 1], marketsById) == Err(KeyError(id));
          ErrorPersists(reply, marketsById, i + 1);
          return Err(KeyError(id));
        }
        var market := marketsById[id];
        result := result[market.symbol := ParseTicker(raw, Some(market))];
        i := i + 1;
      }
      assert reply[..|reply|] == reply;
      if symbols.None? {
        return Ok(AllTickers(result));
      }
      var syms := symbols.value;
      var symresult: map<string, Option<Ticker>> := map[];
      var k := 0;
      while k < |syms|
        invariant 0 <= k <= |syms|
        invariant forall j :: 0 <= j < k ==> Some(syms[j]) !in result
        invariant symresult.Keys == Listed(syms, k)
        invariant forall s :: s in symresult ==> symresult[s] == None
      {
        if Some(syms[k]) in result {
          return Ok(OneTicker(result[Some(syms[k])]));
        }
        assert Listed(syms, k + 1) == Listed(syms, k) + {syms[k]};
        symresult := symresult[syms[k] := None];
        k := k + 1;
      }
      return Ok(NoneFound(symresult));
    }

    /** `fetch_ticker`: `fetch_tickers` asked for the one symbol. */
    method FetchTicker(reply: TickerReply, symbol: string) returns (r: Result<TickersReply>)
      ensures TickerTable(reply, marketsById).Err? ==> r == Err(TickerTable(reply, marketsById).error)
      ensures TickerTable(reply, marketsById).Ok? ==>
        var table := TickerTable(reply, marketsById).value;
        if Some(symbol) in table then r == Ok(OneTicker(table[Some(symbol)]))
        else r == Ok(NoneFound(map[symbol := None]))
    {
      r := FetchTickers(reply, Some([symbol]));
      if TickerTable(reply, marketsById).Ok? && r.value.NoneFound? {
        assert [symbol][0] == symbol;
        assert Listed([symbol], 1) == {symbol};
        assert r.value.misses == map[symbol := None];
      }
    }

    /** `create_order`, given the resolved market, the amount as rounded by
        `amount_to_precision`, and the decoded reply: the request that is sent, and the
        parsed order, which is also recorded under its id. */
    method CreateOrder(market: Market, ordType: Option<string>, side: string, volume: string, price: Option<real>,
                       params: Dict, reply: RawOrder) returns (request: Dict, order: Order)
      requires DistinctKeys(params)
      modifies this`orders
      ensures request == CreateOrderRequest(market.id, volume, side, price, ordType, params)
      ensures order == ParseOrder(reply, Some(market), marketsById)
      ensures orders == old(orders)[order.id := order]
      ensures forall id :: id != order.id && id in old(orders) ==> id in orders && orders[id] == old(orders)[id]
    {
      request := CreateOrderRequest(market.id, volume, side, price, ordType, params);
      order := ParseOrder(reply, Some(market), marketsById);
      orders := orders[order.id := order];
    }

    /** `sign`. An unknown endpoint group fails before anything is written; otherwise the
        caller's `params` receive the api key (when set) and the tonce, and the request is
        the one `Signing.Sign` describes. */
    method Sign(path: string, api: string, httpMethod: string, params: Params, nonce: nat, headers: Option<Dict>,
                body: Option<string>, hmac: (string, string) -> string, urlencode: Dict -> string)
      returns (r: Result<Signing.SignedRequest>)
      modifies params
      ensures Signing.ApiBase(api).Err? ==> params.items == old(params.items)
      ensures Signing.ApiBase(api).Ok? ==> params.items == Signing.WithCredentials(old(params.items), apiKey, nonce)
      ensures r == Signing.Sign(path, api, httpMethod, old(params.items), apiKey, secret, nonce, headers, body, hmac, urlencode)
    {
      var base := Signing.ApiBase(api);
      if base.Err? {
        return Err(base.error);
      }
      var url := base.value;
      url := url + "/" + Signing.Version + "/" + path;
      if apiKey.Some? {
        params.items := Put(params.items, "access_key", Str(apiKey.value));
      }
      params.items := Put(params.items, "tonce", Str(Signing.Tonce(nonce)));
      var keysort := KeySort(params.items);
      if api != "public" {
        if secret.None? {
          return Err(AttributeError("'NoneType' object has no attribute 'encode'"));
        }
        var signStr := Signing.StringToSign(httpMethod, url, keysort, urlencode);
        keysort := Put(keysort, "signature", Str(hmac(signStr, secret.value)));
      }
      var encoded := urlencode(keysort);
      var sentBody := body;
      if httpMethod == "POST" {
        sentBody := Some(encoded);
      } else {
        url := url + "?" + encoded;
      }
      return Ok(Signing.SignedRequest(url, httpMethod, sentBody, headers));
    }
  }

  /** Once a prefix of the reply has failed, the whole reply fails with the same error. */
  lemma {:induction false} ErrorPersists(reply: TickerReply, marketsById: map<string, Market>, n: nat)
    requires n <= |reply| && TickerTable(reply[..n], marketsById).Err?
    ensures TickerTable(reply, marketsById) == TickerTable(reply[..n], marketsById)
    decreases |reply| - n
  {
    if n < |reply| {
      assert reply[..n + 1][..n] == reply[..n];
      ErrorPersists(reply, marketsById, n + 1);
    } else {
      assert reply[..n] == reply;
    }
  }
}
