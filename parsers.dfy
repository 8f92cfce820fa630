/** The response normalisers: one exchange record in, one unified record out.
    Every field the exchange may omit is an `Option`; prices are `real`. */
module Parsers {
  import opened Base
  import opened Text
  import opened OrderStatus

  // ---------------------------------------------------------------- markets

  /** A JSON scalar as `safe_value` returns it. */
  datatype Scalar = Bool(b: bool) | Number(x: real) | Text(s: string)

  /** Python's `v == True`: true for `True` and also for the number 1 (`1 == True`). */
  predicate EqualsTrue(v: Scalar)
  {
    v == Bool(true) || v == Number(1.0)
  }

  /** One entry of the `tickers` listing, as far as `fetch_markets` reads it. */
  datatype RawMarket = RawMarket(
    api: Option<Scalar>,
    wstatus: Option<string>,
    baseMin: Option<real>,
    baseUnit: Option<string>,
    quoteUnit: Option<string>,
    name: Option<string>)

  /** A unified market. `percentage` comes from the trading-fee defaults; `taker` and
      `maker` are the entry's own values, which override those defaults. */
  datatype Market = Market(
    id: string,
    symbol: Option<string>,
    base: string,
    quote: string,
    baseId: string,
    quoteId: string,
    active: bool,
    percentage: bool,
    taker: Option<real>,
    maker: Option<real>,
    minAmount: Option<real>,
    info: RawMarket)

  /** The trading-fee defaults that every market entry extends. */
  const DefaultPercentage := true
  const DefaultMaker: real := 0.0
  const DefaultTaker: real := 0.2 / 100.0

  /** The body of the loop in `fetch_markets`, for the entry under key `id`.
      `currencyCode` is the framework's `safe_currency_code`. A missing unit field
      makes `.upper()` fail on `None`. */
  function MarketEntry(id: string, raw: RawMarket, currencyCode: string -> string): Result<Market>
  {
    if raw.baseUnit.None? || raw.quoteUnit.None? then
      Err(AttributeError("'NoneType' object has no attribute 'upper'"))
    else
      var active := raw.api.Some? && EqualsTrue(raw.api.value) && raw.wstatus == Some("on");
      var baseId := Upper(raw.baseUnit.value);
      var quoteId := Upper(raw.quoteUnit.value);
      Ok(Market(id, raw.name, currencyCode(baseId), currencyCode(quoteId), baseId, quoteId,
                active, DefaultPercentage, None, None, raw.baseMin, raw))
  }

  /** A market entry exists exactly when both unit fields are present; it is active exactly
      when `api == True` and `wstatus == "on"` (so a missing field means inactive); its id
      is the response key; its unit ids are the upper-cased unit fields; its fee rates are
      None whatever the defaults say. */
  lemma MarketEntryFields(id: string, raw: RawMarket, currencyCode: string -> string)
    ensures MarketEntry(id, raw, currencyCode).Ok? <==> raw.baseUnit.Some? && raw.quoteUnit.Some?
    ensures MarketEntry(id, raw, currencyCode).Ok? ==>
      var m := MarketEntry(id, raw, currencyCode).value;
      && (m.active <==> (raw.api == Some(Bool(true)) || raw.api == Some(Number(1.0))) && raw.wstatus == Some("on"))
      && m.id == id
      && m.symbol == raw.name
      && m.baseId == Upper(raw.baseUnit.value) && m.quoteId == Upper(raw.quoteUnit.value)
      && m.base == currencyCode(m.baseId) && m.quote == currencyCode(m.quoteId)
      && m.taker == None && m.maker == None && m.percentage
      && m.minAmount == raw.baseMin
  {
  }

  // ---------------------------------------------------------------- tickers

  /** A ticker record of the exchange: `at` is in seconds. */
  datatype RawTicker = RawTicker(
    at: Option<int>,
    buy: Option<real>,
    sell: Option<real>,
    low: Option<real>,
    high: Option<real>,
    last: Option<real>,
    open: Option<real>,
    volume: Option<real>,
    volume2: Option<real>)

  /** A unified ticker: `timestamp` is in milliseconds. */
  datatype Ticker = Ticker(
    symbol: Option<string>,
    timestamp: Option<int>,
    high: Option<real>,
    low: Option<real>,
    bid: Option<real>,
    ask: Option<real>,
    open: Option<real>,
    close: Option<real>,
    last: Option<real>,
    change: Option<real>,
    percentage: Option<real>,
    average: Option<real>,
    baseVolume: Option<real>,
    quoteVolume: Option<real>,
    info: RawTicker)

  /** Seconds to milliseconds, keeping an absent timestamp absent. */
  function Millis(at: Option<int>): Option<int>
  {
    if at.Some? then Some(at.value * 1000) else None
  }

  /** `parse_ticker`. */
  function ParseTicker(raw: RawTicker, market: Option<Market>): Ticker
  {
    var symbol := if market.Some? then market.value.symbol else None;
    var derived :=
      if raw.last.Some? && raw.open.Some? then
        var change := raw.last.value - raw.open.value;
        var percentage :=
          if raw.open.value > 0.0 && change > 0.0 then Some(change / raw.open.value * 100.0) else None;
        (Some(change), percentage, Some((raw.open.value + raw.last.value) / 2.0))
      else (None, None, None);
    Ticker(symbol, Millis(raw.at), raw.high, raw.low, raw.buy, raw.sell, raw.open, raw.last, raw.last,
           derived.0, derived.1, derived.2, raw.volume, raw.volume2, raw)
  }

  /** The derived ticker fields. `change` exists exactly when both prices do; the
      percentage exists exactly when the open price is positive and the price went UP
      (a fall never has one); the average needs both prices and nothing else. */
  lemma TickerDerivedFields(raw: RawTicker, market: Option<Market>)
    ensures var t := ParseTicker(raw, market);
      (t.change.Some? <==> raw.last.Some? && raw.open.Some?)
    ensures var t := ParseTicker(raw, market);
      (t.change.Some? ==> t.change.value == raw.last.value - raw.open.value)
    ensures var t := ParseTicker(raw, market);
      (t.percentage.Some? <==>
            raw.last.Some? && raw.open.Some? && raw.open.value > 0.0 && raw.last.value > raw.open.value)
    ensures var t := ParseTicker(raw, market);
      (t.percentage.Some? ==>
            t.percentage.value * raw.open.value == (raw.last.value - raw.open.value) * 100.0)
    ensures var t := ParseTicker(raw, market);
      (t.average.Some? <==> raw.last.Some? && raw.open.Some?)
    ensures var t := ParseTicker(raw, market);
      (t.average.Some? ==> t.average.value * 2.0 == raw.open.value + raw.last.value)
  {
  }

  /** The copied ticker fields: `close` and `last` are both the last price, bid/ask are
      buy/sell, the volumes are `volume`/`volume2`, the symbol is the given market's. */
  lemma TickerCopiedFields(raw: RawTicker, market: Option<Market>)
    ensures var t := ParseTicker(raw, market);
      t.close == t.last == raw.last
    ensures var t := ParseTicker(raw, market);
      t.open == raw.open
    ensures var t := ParseTicker(raw, market);
      t.bid == raw.buy && t.ask == raw.sell
    ensures var t := ParseTicker(raw, market);
      t.high == raw.high && t.low == raw.low
    ensures var t := ParseTicker(raw, market);
      t.baseVolume == raw.volume && t.quoteVolume == raw.volume2
    ensures var t := ParseTicker(raw, market);
      t.symbol == (if market.Some? then market.value.symbol else None)
    ensures var t := ParseTicker(raw, market);
      t.info == raw
  {
  }

  /** A rise from 100 to 110: change 10, percentage 10, average 105. */
  lemma TickerRise()
    ensures var t := ParseTicker(RawTicker(None, None, None, None, None, Some(110.0), Some(100.0), None, None), None);
      t.change == Some(10.0) && t.percentage == Some(10.0) && t.average == Some(105.0)
  {
  }

  /** A fall from 100 to 90: change -10, no percentage, average 95. */
  lemma TickerFall()
    ensures var t := ParseTicker(RawTicker(None, None, None, None, None, Some(90.0), Some(100.0), None, None), None);
      t.change == Some(-10.0) && t.percentage == None && t.average == Some(95.0)
  {
  }

  // ---------------------------------------------------------------- candles

  /** `parse_ohlcv`: the row `[at, open, high, low, close, volume]` with the time in
      milliseconds. A row shorter than six raises at the first missing index. */
  function ParseOhlcv(row: seq<real>): Result<seq<real>>
  {
    if |row| < 6 then Err(IndexError(|row|))
    else Ok([row[0] * 1000.0, row[1], row[2], row[3], row[4], row[5]])
  }

  /** A candle is six numbers: the time scaled to milliseconds, then the five prices and
      volume in their original order; longer rows lose their tail. */
  lemma CandleShape(row: seq<real>)
    ensures ParseOhlcv(row).Ok? <==> |row| >= 6
    ensures ParseOhlcv(row).Ok? ==>
      var c := ParseOhlcv(row).value;
      |c| == 6 && c[0] == row[0] * 1000.0 && c[1..] == row[1..6]
  {
  }

  // ---------------------------------------------------------------- trades

  datatype RawTrade = RawTrade(
    id: Option<string>,
    at: Option<int>,
    price: Option<real>,
    volume: Option<real>,
    market: Option<string>,
    side: Option<string>,
    orderId: Option<string>)

  /** A unified trade; `cost` is the framework's rounded string for price × amount. */
  datatype Trade = Trade(
    id: Option<string>,
    order: Option<string>,
    timestamp: Option<int>,
    symbol: Option<string>,
    side: Option<string>,
    price: real,
    amount: real,
    cost: string,
    info: RawTrade)

  /** `parse_trade`. The symbol is the given market's, not the one the trade names.
      `costToPrecision` is the framework's `cost_to_precision`. A missing price or
      volume makes `price * amount` fail on `None`. */
  function ParseTrade(raw: RawTrade, market: Option<Market>, costToPrecision: (Option<string>, real) -> string): Result<Trade>
  {
    var symbol := if market.Some? then market.value.symbol else None;
    if raw.price.None? || raw.volume.None? then
      Err(TypeError("unsupported operand type(s) for *: NoneType"))
    else
      Ok(Trade(raw.id, raw.orderId, Millis(raw.at), symbol, raw.side, raw.price.value, raw.volume.value,
               costToPrecision(symbol, Notional(raw.price.value, raw.volume.value)), raw))
  }

  /** The unrounded cost of a fill. */
  function Notional(price: real, amount: real): real
  {
    price * amount
  }

  /** A trade parses exactly when price and volume are present; its cost is the rounding of
      price × amount for the given market's symbol (whatever the trade's own `market` says);
      its timestamp is `at` in milliseconds. */
  lemma TradeFields(raw: RawTrade, market: Option<Market>, costToPrecision: (Option<string>, real) -> string)
    ensures ParseTrade(raw, market, costToPrecision).Ok? <==> raw.price.Some? && raw.volume.Some?
    ensures ParseTrade(raw, market, costToPrecision).Ok? ==>
      var t := ParseTrade(raw, market, costToPrecision).value;
      && t.symbol == (if market.Some? then market.value.symbol else None)
      && t.cost == costToPrecision(t.symbol, Notional(t.price, t.amount))
      && t.price == raw.price.value && t.amount == raw.volume.value
      && t.timestamp == Millis(raw.at)
      && t.id == raw.id && t.order == raw.orderId && t.side == raw.side
  {
  }

  // ---------------------------------------------------------------- orders

  datatype RawOrder = RawOrder(
    id: Option<string>,
    at: Option<int>,
    market: Option<string>,
    state: Option<string>,
    ordType: Option<string>,
    side: Option<string>,
    price: Option<real>,
    avgPrice: Option<real>,
    volume: Option<real>,
    executedVolume: Option<real>,
    remainingVolume: Option<real>,
    tradesCount: Option<int>)

  /** A unified order; the fee carries only its currency (its cost is always None). */
  datatype Order = Order(
    id: Option<string>,
    timestamp: Option<int>,
    status: Option<string>,
    symbol: Option<string>,
    ordType: Option<string>,
    side: Option<string>,
    price: Option<real>,
    average: Option<real>,
    amount: Option<real>,
    filled: Option<real>,
    remaining: Option<real>,
    trades: Option<int>,
    feeCurrency: Option<string>,
    info: RawOrder)

  /** `parse_order`. The market is looked up by the order's own `market` field in
      `marketsById`; the `market` argument is accepted and ignored. */
  function ParseOrder(raw: RawOrder, market: Option<Market>, marketsById: map<string, Market>): Order
  {
    var found: Option<Market> :=
      if raw.market.Some? && raw.market.value in marketsById then Some(marketsById[raw.market.value]) else None;
    var symbol := if found.Some? then found.value.symbol else None;
    var feeCurrency := if found.Some? then Some(found.value.quote) else None;
    var status := if raw.state.Some? then Some(ParseOrderStatus(raw.state.value)) else None;
    Order(raw.id, Millis(raw.at), status, symbol, raw.ordType, raw.side, raw.price, raw.avgPrice,
          raw.volume, raw.executedVolume, raw.remainingVolume, raw.tradesCount, feeCurrency, raw)
  }

  /** The order's symbol and fee currency are those of the market its own `market` field
      names, or None when that market is unknown; the status is translated; the market
      argument makes no difference. */
  lemma OrderFields(raw: RawOrder, market: Option<Market>, other: Option<Market>, marketsById: map<string, Market>)
    ensures var o := ParseOrder(raw, market, marketsById);
      o.symbol == (if raw.market.Some? && raw.market.value in marketsById then marketsById[raw.market.value].symbol else None)
    ensures var o := ParseOrder(raw, market, marketsById);
      o.feeCurrency == (if raw.market.Some? && raw.market.value in marketsById then Some(marketsById[raw.market.value].quote) else None)
    ensures var o := ParseOrder(raw, market, marketsById);
      o.status == (if raw.state.Some? then Some(ParseOrderStatus(raw.state.value)) else None)
    ensures var o := ParseOrder(raw, market, marketsById);
      o.timestamp == Millis(raw.at)
    ensures var o := ParseOrder(raw, market, marketsById);
      o.id == raw.id && o.amount == raw.volume && o.filled == raw.executedVolume
    ensures var o := ParseOrder(raw, market, marketsById);
      o.remaining == raw.remainingVolume && o.average == raw.avgPrice
    ensures ParseOrder(raw, market, marketsById) == ParseOrder(raw, other, marketsById)
  {
  }

  /** Timestamps throughout: `at` seconds become milliseconds, absence stays absence. */
  lemma TimestampsInMillis(rt: RawTicker, tr: RawTrade, ro: RawOrder, m: Option<Market>, tbl: map<string, Market>,
                           costToPrecision: (Option<string>, real) -> string)
    ensures ParseTicker(rt, m).timestamp == (if rt.at.Some? then Some(rt.at.value * 1000) else None)
    ensures ParseOrder(ro, m, tbl).timestamp == (if ro.at.Some? then Some(ro.at.value * 1000) else None)
    ensures ParseTrade(tr, m, costToPrecision).Ok? ==>
      ParseTrade(tr, m, costToPrecision).value.timestamp == (if tr.at.Some? then Some(tr.at.value * 1000) else None)
  {
  }
}
