/** The request dictionaries the adapter builds before handing them to the transport.
    Each builder takes the market id that the framework's `market(symbol)` resolved and
    the caller's extra `params`, which `extend` lays over the built request last. */
module Requests {
  import opened Base
  import opened Text
  import opened Dicts
  import opened OrderStatus

  // ---------------------------------------------------------------- timeframes

  /** The `timeframes` table: unified timeframe to the exchange's period code. */
  const Timeframes: map<string, string> := map[
    "1m" := "1", "5m" := "5", "15m" := "15", "30m" := "30",
    "1h" := "60", "2h" := "120", "4h" := "240", "6h" := "360", "12h" := "720",
    "1d" := "1440", "3d" := "4320", "1w" := "10080"]

  /** Minutes in one unit of a timeframe suffix (m, h, d, w). */
  function UnitMinutes(unit: char): nat
  {
    match unit
    case 'm' => 1
    case 'h' => 60
    case 'd' => 1440
    case 'w' => 10080
    case _ => 0
  }

  /** A timeframe written as a count followed by a unit letter. */
  predicate WellFormedTimeframe(tf: string)
  {
    |tf| >= 2 && AllDigits(tf[..|tf| - 1]) && UnitMinutes(tf[|tf| - 1]) > 0
  }

  /** The length of a timeframe in minutes, read from its own name. */
  function DurationMinutes(tf: string): nat
    requires WellFormedTimeframe(tf)
  {
    DecimalValue(tf[..|tf| - 1]) * UnitMinutes(tf[|tf| - 1])
  }

  /** The period code of a timeframe is the decimal numeral of its length in minutes. */
  predicate CodeIsMinutes(tf: string)
    requires tf in Timeframes
  {
    WellFormedTimeframe(tf) && Timeframes[tf] == NatToDecimal(DurationMinutes(tf))
  }

  /** Every period code is the decimal numeral of its timeframe's length in minutes. */
  lemma TimeframeCodesAreMinutes(tf: string)
    requires tf in Timeframes
    ensures CodeIsMinutes(tf)
  {
    assert tf in {"1m", "5m", "15m", "30m", "1h", "2h", "4h", "6h", "12h", "1d", "3d", "1w"};
    if tf == "1m" {
      Code1m();
    } else if tf == "5m" {
      Code5m();
    } else if tf == "15m" {
      Code15m();
    } else if tf == "30m" {
      Code30m();
    } else if tf == "1h" {
      Code1h();
    } else if tf == "2h" {
      Code2h();
    } else if tf == "4h" {
      Code4h();
    } else if tf == "6h" {
      Code6h();
    } else if tf == "12h" {
      Code12h();
    } else if tf == "1d" {
      Code1d();
    } else if tf == "3d" {
      Code3d();
    } else {
      Code1w();
    }
  }

  // One lemma per table entry: the count read from the name, scaled by the unit, and the
  // numeral of the product built digit by digit.

  lemma Code1m()
    ensures "1m" in Timeframes && CodeIsMinutes("1m")
  {
    assert "1m"[..1] == "1";
    assert DecimalValue("1") == 1;
  }

  lemma Code5m()
    ensures "5m" in Timeframes && CodeIsMinutes("5m")
  {
    assert "5m"[..1] == "5";
    assert DecimalValue("5") == 5;
  }

  lemma Code15m()
    ensures "15m" in Timeframes && CodeIsMinutes("15m")
  {
    assert "15m"[..2] == "15";
    assert "15"[..1] == "1";
    assert DecimalValue("15") == 15;
    assert NatToDecimal(15) == NatToDecimal(1) + "5";
  }

  lemma Code30m()
    ensures "30m" in Timeframes && CodeIsMinutes("30m")
  {
    assert "30m"[..2] == "30";
    assert "30"[..1] == "3";
    assert DecimalValue("30") == 30;
    assert NatToDecimal(30) == NatToDecimal(3) + "0";
  }

  lemma Code1h()
    ensures "1h" in Timeframes && CodeIsMinutes("1h")
  {
    assert "1h"[..1] == "1";
    assert DecimalValue("1") == 1;
    assert NatToDecimal(60) == NatToDecimal(6) + "0";
  }

  lemma Code2h()
    ensures "2h" in Timeframes && CodeIsMinutes("2h")
  {
    assert "2h"[..1] == "2";
    assert DecimalValue("2") == 2;
    assert NatToDecimal(12) == NatToDecimal(1) + "2";
    assert NatToDecimal(120) == NatToDecimal(12) + "0";
  }

  lemma Code4h()
    ensures "4h" in Timeframes && CodeIsMinutes("4h")
  {
    assert "4h"[..1] == "4";
    assert DecimalValue("4") == 4;
    assert NatToDecimal(24) == NatToDecimal(2) + "4";
    assert NatToDecimal(240) == NatToDecimal(24) + "0";
  }

  lemma Code6h()
    ensures "6h" in Timeframes && CodeIsMinutes("6h")
  {
    assert "6h"[..1] == "6";
    assert DecimalValue("6") == 6;
    assert NatToDecimal(36) == NatToDecimal(3) + "6";
    assert NatToDecimal(360) == NatToDecimal(36) + "0";
  }

  lemma Code12h()
    ensures "12h" in Timeframes && CodeIsMinutes("12h")
  {
    assert "12h"[..2] == "12";
    assert "12"[..1] == "1";
    assert DecimalValue("12") == 12;
    assert NatToDecimal(72) == NatToDecimal(7) + "2";
    assert NatToDecimal(720) == NatToDecimal(72) + "0";
  }

  lemma Code1d()
    ensures "1d" in Timeframes && CodeIsMinutes("1d")
  {
    assert "1d"[..1] == "1";
    assert DecimalValue("1") == 1;
    assert NatToDecimal(14) == NatToDecimal(1) + "4";
    assert NatToDecimal(144) == NatToDecimal(14) + "4";
    assert NatToDecimal(1440) == NatToDecimal(144) + "0";
  }

  lemma Code3d()
    ensures "3d" in Timeframes && CodeIsMinutes("3d")
  {
    assert "3d"[..1] == "3";
    assert DecimalValue("3") == 3;
    assert NatToDecimal(43) == NatToDecimal(4) + "3";
    assert NatToDecimal(432) == NatToDecimal(43) + "2";
    assert NatToDecimal(4320) == NatToDecimal(432) + "0";
  }

  lemma Code1w()
    ensures "1w" in Timeframes && CodeIsMinutes("1w")
  {
    assert "1w"[..1] == "1";
    assert DecimalValue("1") == 1;
    assert NatToDecimal(10) == NatToDecimal(1) + "0";
    assert NatToDecimal(100) == NatToDecimal(10) + "0";
    assert NatToDecimal(1008) == NatToDecimal(100) + "8";
    assert NatToDecimal(10080) == NatToDecimal(1008) + "0";
  }

  // A dictionary literal `{k1: v1, k2: v2, ...}` is written below as assignments into the
  // empty dictionary in the same order, which is how Python builds it.

  const DefaultOhlcvLimit := 20

  /** `since` values above this are taken to be milliseconds. */
  const SinceThreshold := 9999999999

  /** The `since` rule of `fetch_ohlcv`: a value above ten digits is milliseconds and is
      reduced to whole seconds (`int(since / 1000)`); anything else is sent as it is. */
  function NormaliseSince(since: int): int
  {
    if since > SinceThreshold then since / 1000 else since
  }

  /** Values up to the threshold are untouched; values above it become their whole number
      of seconds, which is at least ten million. */
  lemma NormaliseSinceBounds(since: int)
    ensures since <= SinceThreshold ==> NormaliseSince(since) == since
    ensures since > SinceThreshold ==>
      && NormaliseSince(since) * 1000 <= since < NormaliseSince(since) * 1000 + 1000
      && NormaliseSince(since) >= 10000000
  {
  }

  /** A time in seconds and any millisecond time inside that second normalise to the same
      value, as long as the seconds have at most ten digits and the milliseconds more. */
  lemma NormaliseSinceAgrees(seconds: int, ms: int)
    requires 10000000 <= seconds <= SinceThreshold && 0 <= ms < 1000
    requires seconds * 1000 + ms > SinceThreshold
    ensures NormaliseSince(seconds * 1000 + ms) == seconds == NormaliseSince(seconds)
  {
    assert (seconds * 1000 + ms) / 1000 == seconds;
  }

  /** The request of `fetch_ohlcv`, before `params` are laid over it. An unknown timeframe
      raises a KeyError on the table. */
  function OhlcvBase(marketId: string, timeframe: string, since: Option<int>, limit: Option<int>): Result<Dict>
  {
    if timeframe !in Timeframes then Err(KeyError(timeframe))
    else Ok(Assign(OhlcvItems(marketId, timeframe, since, limit)))
  }

  /** The display `{market, period, limit}`, then `timestamp` only when `since` is given. */
  function OhlcvItems(marketId: string, timeframe: string, since: Option<int>, limit: Option<int>): seq<(string, Option<Value>)>
    requires timeframe in Timeframes
  {
    [("market", Some(Str(marketId))), ("period", Some(Str(Timeframes[timeframe]))),
     ("limit", Some(Int(OrElse(limit, DefaultOhlcvLimit)))),
     ("timestamp", if since.Some? then Some(Int(NormaliseSince(since.value))) else None)]
  }

  /** The dictionary `fetch_ohlcv` sends: the request extended with `params`. */
  function OhlcvRequest(marketId: string, timeframe: string, since: Option<int>, limit: Option<int>, params: Dict): Result<Dict>
    requires DistinctKeys(params)
  {
    match OhlcvBase(marketId, timeframe, since, limit)
    case Err(e) => Err(e)
    case Ok(request) => Ok(Extend(request, params))
  }

  /** What a key of a sent request holds: the caller's value when `params` has the key,
      otherwise the value the adapter put there. */
  function Sent(params: Dict, k: string, built: Option<Value>): Option<Value>
  {
    if HasKey(params, k) then Get(params, k) else built
  }

  /** Laying the caller's `params` over a built request: every built key holds what `Sent`
      says, and a key the request does not build is the caller's. */
  lemma Overlay(items: seq<(string, Option<Value>)>, params: Dict)
    requires DistinctItemKeys(items) && DistinctKeys(params)
    ensures DistinctKeys(Extend(Assign(items), params))
    ensures forall i :: 0 <= i < |items| ==>
      Get(Extend(Assign(items), params), items[i].0) == Sent(params, items[i].0, items[i].1)
    ensures forall k :: (forall i :: 0 <= i < |items| ==> items[i].0 != k) ==>
      Get(Extend(Assign(items), params), k) == Get(params, k)
  {
    AssignContents(items);
  }

  /** The OHLCV request exists exactly for a known timeframe; it carries the market, the
      period code of the timeframe, the limit (20 by default) and, only when a `since` is
      given, its normalised value; any other key is the caller's. */
  lemma OhlcvRequestContents(marketId: string, timeframe: string, since: Option<int>, limit: Option<int>, params: Dict)
    requires DistinctKeys(params)
    ensures OhlcvRequest(marketId, timeframe, since, limit, params).Ok? <==> timeframe in Timeframes
    ensures OhlcvRequest(marketId, timeframe, since, limit, params).Ok? ==>
      DistinctKeys(OhlcvRequest(marketId, timeframe, since, limit, params).value)
    ensures OhlcvRequest(marketId, timeframe, since, limit, params).Ok? ==>
      Get(OhlcvRequest(marketId, timeframe, since, limit, params).value, "market") == Sent(params, "market", Some(Str(marketId)))
    ensures OhlcvRequest(marketId, timeframe, since, limit, params).Ok? ==>
      Get(OhlcvRequest(marketId, timeframe, since, limit, params).value, "period")
      == Sent(params, "period", Some(Str(Timeframes[timeframe])))
    ensures OhlcvRequest(marketId, timeframe, since, limit, params).Ok? ==>
      Get(OhlcvRequest(marketId, timeframe, since, limit, params).value, "limit")
      == Sent(params, "limit", Some(Int(if limit.Some? then limit.value else 20)))
    ensures OhlcvRequest(marketId, timeframe, since, limit, params).Ok? ==>
      Get(OhlcvRequest(marketId, timeframe, since, limit, params).value, "timestamp")
      == Sent(params, "timestamp", if since.Some? then Some(Int(NormaliseSince(since.value))) else None)
    ensures OhlcvRequest(marketId, timeframe, since, limit, params).Ok? ==>
      forall k :: k !in {"market", "period", "limit", "timestamp"} ==>
        Get(OhlcvRequest(marketId, timeframe, since, limit, params).value, k) == Get(params, k)
  {
    if timeframe in Timeframes {
      var items := OhlcvItems(marketId, timeframe, since, limit);
      Overlay(items, params);
      assert items[0].0 == "market" && items[1].0 == "period" && items[2].0 == "limit" && items[3].0 == "timestamp";
    }
  }

  /** The timeframe `fetch_ohlcv` uses when the caller gives none. */
  const DefaultTimeframe := "5m"

  /** Without a timeframe, candles of five minutes are asked for: the request exists and its
      period is "5" unless the caller's params override it. */
  lemma DefaultTimeframePeriod(marketId: string, since: Option<int>, limit: Option<int>, params: Dict)
    requires DistinctKeys(params)
    ensures OhlcvRequest(marketId, DefaultTimeframe, since, limit, params).Ok?
    ensures Get(OhlcvRequest(marketId, DefaultTimeframe, since, limit, params).value, "period")
         == Sent(params, "period", Some(Str("5")))
  {
    OhlcvRequestContents(marketId, DefaultTimeframe, since, limit, params);
  }

  // ---------------------------------------------------------------- fetch_orders_by_status

  const DefaultOrdersLimit := 100

  /** The request of `fetch_orders_by_status`, before `params`: always page 1, the status in
      the exchange's vocabulary, and the market only when a symbol was given. */
  function OrdersByStatusBase(status: string, marketId: Option<string>, limit: Option<int>): Dict
  {
    Assign(OrdersByStatusItems(status, marketId, limit))
  }

  function OrdersByStatusItems(status: string, marketId: Option<string>, limit: Option<int>): seq<(string, Option<Value>)>
  {
    [("page", Some(Int(1))), ("limit", Some(Int(OrElse(limit, DefaultOrdersLimit)))),
     ("state", Some(Str(ParseOrderStatusRe(status)))),
     ("market", if marketId.Some? then Some(Str(marketId.value)) else None)]
  }

  function OrdersByStatusRequest(status: string, marketId: Option<string>, limit: Option<int>, params: Dict): Dict
    requires DistinctKeys(params)
  {
    Extend(OrdersByStatusBase(status, marketId, limit), params)
  }

  lemma OrdersByStatusContents(status: string, marketId: Option<string>, limit: Option<int>, params: Dict)
    requires DistinctKeys(params)
    ensures DistinctKeys(OrdersByStatusRequest(status, marketId, limit, params))
    ensures Get(OrdersByStatusRequest(status, marketId, limit, params), "page") == Sent(params, "page", Some(Int(1)))
    ensures Get(OrdersByStatusRequest(status, marketId, limit, params), "limit")
         == Sent(params, "limit", Some(Int(if limit.Some? then limit.value else 100)))
    ensures Get(OrdersByStatusRequest(status, marketId, limit, params), "state")
         == Sent(params, "state", Some(Str(ParseOrderStatusRe(status))))
    ensures Get(OrdersByStatusRequest(status, marketId, limit, params), "market")
         == Sent(params, "market", if marketId.Some? then Some(Str(marketId.value)) else None)
    ensures forall k :: k !in {"page", "limit", "state", "market"} ==>
      Get(OrdersByStatusRequest(status, marketId, limit, params), k) == Get(params, k)
  {
    var items := OrdersByStatusItems(status, marketId, limit);
    Overlay(items, params);
    assert items[0].0 == "page" && items[1].0 == "limit" && items[2].0 == "state" && items[3].0 == "market";
  }

  /** Open orders are asked for as `wait`, closed ones as `done`. */
  lemma OrdersByStatusScenario(marketId: Option<string>, limit: Option<int>)
    ensures Get(OrdersByStatusRequest("open", marketId, limit, []), "state") == Some(Str("wait"))
    ensures Get(OrdersByStatusRequest("closed", marketId, limit, []), "state") == Some(Str("done"))
  {
    StatusTranslation("open");
    OrdersByStatusContents("open", marketId, limit, []);
    OrdersByStatusContents("closed", marketId, limit, []);
  }

  // ---------------------------------------------------------------- create_order

  /** The request of `create_order`, before `params`. `volume` is the amount as the
      framework's `amount_to_precision` rounded it; price and order type are sent only
      when given. */
  function CreateOrderBase(marketId: string, volume: string, side: string, price: Option<real>, ordType: Option<string>): Dict
  {
    Assign(CreateOrderItems(marketId, volume, side, price, ordType))
  }

  function CreateOrderItems(marketId: string, volume: string, side: string, price: Option<real>, ordType: Option<string>): seq<(string, Option<Value>)>
  {
    [("market", Some(Str(marketId))), ("volume", Some(Str(volume))), ("side", Some(Str(side))),
     ("price", if price.Some? then Some(Num(price.value)) else None),
     ("ord_type", if ordType.Some? then Some(Str(ordType.value)) else None)]
  }

  function CreateOrderRequest(marketId: string, volume: string, side: string, price: Option<real>, ordType: Option<string>, params: Dict): Dict
    requires DistinctKeys(params)
  {
    Extend(CreateOrderBase(marketId, volume, side, price, ordType), params)
  }

  /** The built request holds the market, the rounded volume and the side, the price only
      when one is given and the order type only when one is given. */
  lemma CreateOrderBaseContents(marketId: string, volume: string, side: string, price: Option<real>, ordType: Option<string>)
    ensures DistinctKeys(CreateOrderBase(marketId, volume, side, price, ordType))
    ensures Get(CreateOrderBase(marketId, volume, side, price, ordType), "market") == Some(Str(marketId))
    ensures Get(CreateOrderBase(marketId, volume, side, price, ordType), "volume") == Some(Str(volume))
    ensures Get(CreateOrderBase(marketId, volume, side, price, ordType), "side") == Some(Str(side))
    ensures Get(CreateOrderBase(marketId, volume, side, price, ordType), "price")
         == (if price.Some? then Some(Num(price.value)) else None)
    ensures Get(CreateOrderBase(marketId, volume, side, price, ordType), "ord_type")
         == (if ordType.Some? then Some(Str(ordType.value)) else None)
    ensures forall k :: k !in {"market", "volume", "side", "price", "ord_type"} ==>
      Get(CreateOrderBase(marketId, volume, side, price, ordType), k) == None
  {
    var items := CreateOrderItems(marketId, volume, side, price, ordType);
    AssignContents(items);
    assert items[0].0 == "market" && items[1].0 == "volume" && items[2].0 == "side"
        && items[3].0 == "price" && items[4].0 == "ord_type";
  }

  lemma CreateOrderContents(marketId: string, volume: string, side: string, price: Option<real>, ordType: Option<string>, params: Dict)
    requires DistinctKeys(params)
    ensures DistinctKeys(CreateOrderRequest(marketId, volume, side, price, ordType, params))
    ensures Get(CreateOrderRequest(marketId, volume, side, price, ordType, params), "market")
         == Sent(params, "market", Some(Str(marketId)))
    ensures Get(CreateOrderRequest(marketId, volume, side, price, ordType, params), "volume")
         == Sent(params, "volume", Some(Str(volume)))
    ensures Get(CreateOrderRequest(marketId, volume, side, price, ordType, params), "side")
         == Sent(params, "side", Some(Str(side)))
    ensures Get(CreateOrderRequest(marketId, volume, side, price, ordType, params), "price")
         == Sent(params, "price", if price.Some? then Some(Num(price.value)) else None)
    ensures Get(CreateOrderRequest(marketId, volume, side, price, ordType, params), "ord_type")
         == Sent(params, "ord_type", if ordType.Some? then Some(Str(ordType.value)) else None)
    ensures forall k :: k !in {"market", "volume", "side", "price", "ord_type"} ==>
      Get(CreateOrderRequest(marketId, volume, side, price, ordType, params), k) == Get(params, k)
  {
    var items := CreateOrderItems(marketId, volume, side, price, ordType);
    Overlay(items, params);
    assert items[0].0 == "market" && items[1].0 == "volume" && items[2].0 == "side"
        && items[3].0 == "price" && items[4].0 == "ord_type";
  }

  // ---------------------------------------------------------------- fetch_my_trades

  /** The request of `fetch_my_trades`, before `params`. */
  function MyTradesBase(marketId: Option<string>, limit: Option<int>): Dict
  {
    Assign(MyTradesItems(marketId, limit))
  }

  function MyTradesItems(marketId: Option<string>, limit: Option<int>): seq<(string, Option<Value>)>
  {
    [("limit", Some(Int(OrElse(limit, DefaultOrdersLimit)))),
     ("market", if marketId.Some? then Some(Str(marketId.value)) else None)]
  }

  function MyTradesRequest(marketId: Option<string>, limit: Option<int>, params: Dict): Dict
    requires DistinctKeys(params)
  {
    Extend(MyTradesBase(marketId, limit), params)
  }

  lemma MyTradesContents(marketId: Option<string>, limit: Option<int>, params: Dict)
    requires DistinctKeys(params)
    ensures DistinctKeys(MyTradesRequest(marketId, limit, params))
    ensures Get(MyTradesRequest(marketId, limit, params), "limit")
         == Sent(params, "limit", Some(Int(if limit.Some? then limit.value else 100)))
    ensures Get(MyTradesRequest(marketId, limit, params), "market")
         == Sent(params, "market", if marketId.Some? then Some(Str(marketId.value)) else None)
    ensures forall k :: k !in {"limit", "market"} ==> Get(MyTradesRequest(marketId, limit, params), k) == Get(params, k)
  {
    var items := MyTradesItems(marketId, limit);
    Overlay(items, params);
    assert items[0].0 == "limit" && items[1].0 == "market";
  }
}
