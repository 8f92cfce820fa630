# Graviex exchange adapter — a Dafny model

The project models the deterministic core of the `graviex` adapter of the ccxt trading
library (`python/ccxt/graviex.py`). That core is the set of rules that turn the
exchange's replies into the library's unified records, and the library's calls into the
exchange's requests:

- **Order statuses** (`status.dfy`): the two-way translation between the exchange's order
  states (`wait`, `done`, `cancel`) and the unified ones (`open`, `closed`, `canceled`).
- **Response normalisers** (`parsers.dfy`):
  - market entries of `fetch_markets`;
  - `parse_ticker`, with its derived change, percentage and average;
  - `parse_ohlcv`, `parse_trade` and `parse_order`.
- **Request builders** (`requests.dfy`):
  - the timeframe table;
  - the requests of `fetch_ohlcv`, `fetch_orders_by_status`, `create_order` and
    `fetch_my_trades`, each overlaid by the caller's `params` through the framework's
    `extend`.
- **Signing** (`signing.dfy`): the layout of `sign`. This covers:
  - the tonce;
  - the api key;
  - the parameters sorted by key;
  - the HMAC over `METHOD|path|encoded parameters` on every non-public call;
  - the choice between body and query string.
- **Error classification** (`errors.dfy`): `handle_errors` as an ordered decision over the
  HTTP status and the exchange's error code. It comes as written and in a corrected form
  (see Findings).
- **The exchange object** (`exchange.dfy`): a class `Graviex` holding the credentials, the
  loaded markets and the order registry. Its methods are:
  - `fetch_markets`, `fetch_tickers` and `fetch_ticker` (loops over a decoded reply);
  - `create_order`, which records the parsed order in the registry;
  - `sign`, which writes the api key and tonce into the caller's parameter dictionary.

The supporting modules are `base.dfy` (option, result, Python errors, JSON scalars),
`text.dfy` (`str.upper`, `str(int)`, string order, `str.replace`) and `dicts.dfy`. The
last one models Python dictionaries as item sequences in insertion order, with item
assignment, `extend` and `keysort`.

Decoded replies are inputs. Each is a record whose fields are optional exactly where the
adapter reads them with a `safe_*` accessor. The exchange's HTTP transport, the clock, the
HMAC, URL encoding, precision rounding and currency-code lookup are function parameters or
plain inputs. Prices are mathematical reals.

Where the code behaves differently from what a caller might expect, the model follows the code:

- A 502/503 reply raises the generic `ExchangeError` with the message "Exchange
  Overloaded". There is no separate overload class.
- Error code 2007 is tested by object identity (`is`), so it is not recognised. An error body
  with an unrecognised code on status 200/201 is returned to the caller, not raised.
- The OHLCV request's default limit is 20, not 1000.
- A trade's symbol is that of the market the caller passed, not the one the trade names.
- An order's fee carries only the market's quote currency; its cost is `None`.
- The access key is sent on public calls too, whenever an api key is set.
- `create_order` sends a price whenever one is given, whatever the order type.

## Model

| member | source | states |
|---|---|---|
| OrderStatus.TablesInverse | python/ccxt/graviex.py:437-445 | the tables of `parse_order_status` and `parse_order_status_re` are each other's inverse: keys of one are the values of the other and each composition is the identity |
| OrderStatus.StatusTranslation | python/ccxt/graviex.py:551-560 | wait/done/cancel map to open/closed/canceled and back; every other word passes through both maps unchanged |
| OrderStatus.StatusRoundTrip | python/ccxt/graviex.py:551-560 | reverse-mapping a unified status and then mapping it gives it back exactly when it is not one of the three upstream words |
| OrderStatus.StatusReverseRoundTrip | python/ccxt/graviex.py:437-445 | mapping an upstream status and reverse-mapping it gives it back exactly when it is not one of the three unified words |
| Parsers.MarketEntryFields | python/ccxt/graviex.py:189-222 | an entry exists iff both unit fields are present; active iff `api == True` (True or 1) and `wstatus == 'on'`; the id is the reply key; base/quote ids are the upper-cased units; taker and maker are None whatever the fee defaults say |
| Parsers.TickerDerivedFields | python/ccxt/graviex.py:287-296 | change exists iff last and open both do, and is last − open; percentage exists iff open > 0 and last > open, and is change/open × 100; average exists iff both prices do, and is their mean |
| Parsers.TickerCopiedFields | python/ccxt/graviex.py:297-318 | close and last are the last price, bid/ask are buy/sell, the volumes and extremes are copied, the symbol is the given market's |
| Parsers.TickerRise | python/ccxt/graviex.py:292-296 | a rise from 100 to 110 gives change 10, percentage 10 and average 105 |
| Parsers.TickerFall | python/ccxt/graviex.py:292-296 | a fall from 100 to 90 gives change −10, no percentage and average 95 |
| Parsers.CandleShape | python/ccxt/graviex.py:368-376 | a row parses iff it has at least six entries; the candle is the time × 1000 followed by entries 1..5 in order |
| Parsers.TradeFields | python/ccxt/graviex.py:399-424 | a trade parses iff price and volume are present; the symbol is the given market's; the cost is the rounding of price × amount for that symbol; the timestamp is `at` × 1000 |
| Parsers.OrderFields | python/ccxt/graviex.py:447-481 | symbol and fee currency come from the market named by the order's own `market` field (None if unknown); the status is translated; the market argument makes no difference |
| Parsers.TimestampsInMillis | python/ccxt/graviex.py:282-285 | ticker, trade and order timestamps are `at` × 1000 when present and absent otherwise |
| Requests.TimeframeCodesAreMinutes | python/ccxt/graviex.py:49-62 | every period code in the timeframe table is the decimal numeral of the timeframe's length in minutes |
| Requests.NormaliseSinceBounds | python/ccxt/graviex.py:391-394 | `since` up to 9999999999 is unchanged; above it, it becomes its whole number of seconds |
| Requests.NormaliseSinceAgrees | python/ccxt/graviex.py:391-394 | a ten-digit time in seconds and any millisecond time within that second normalise to the same value |
| Requests.OhlcvRequestContents | python/ccxt/graviex.py:378-396 | the request exists iff the timeframe is in the table; it holds market, period code, limit (20 by default) and, only when given, the normalised `since`; the caller's params override each key, and every other key is the caller's |
| Requests.DefaultTimeframePeriod | python/ccxt/graviex.py:378 | without a timeframe argument the "5m" default applies: the request exists and asks for period "5" unless params override it |
| Requests.OrdersByStatusContents | python/ccxt/graviex.py:586-605 | page 1, limit 100 by default, the reverse-mapped state, and the market only when a symbol is given; params override |
| Requests.OrdersByStatusScenario | python/ccxt/graviex.py:583-584 | open orders are asked for as `wait` and closed ones as `done` |
| Requests.CreateOrderBaseContents | python/ccxt/graviex.py:487-496 | the request holds market, rounded volume and side; price and ord_type only when non-None; no other key |
| Requests.CreateOrderContents | python/ccxt/graviex.py:487-498 | the request sent is the built request overlaid by the caller's params |
| Requests.MyTradesContents | python/ccxt/graviex.py:616-629 | limit 100 by default and the market only when a symbol is given; params override |
| Dicts.Put | python/ccxt/graviex.py:949-951 | item assignment: the assigned key holds the new value and every other key its old one; in a dictionary with distinct keys an existing key keeps its position and every other item stays where it was; a new key goes at the end; distinct keys stay distinct |
| Dicts.Extend | python/ccxt/graviex.py:396 | `extend(request, params)`: a key of `params` takes the caller's value, any other key keeps the request's; distinct keys stay distinct |
| Text.ReplaceAll | python/ccxt/graviex.py:955 | `url.replace(origin, '')`: a string without the origin is returned unchanged; a replacement no longer than the pattern, the deletion `''` included, never lengthens the string; one of the same length keeps the length; replacing a pattern by itself changes nothing |
| Text.AbsentMeansNoWindow | python/ccxt/graviex.py:955 | "without the pattern" means exactly that no window of the string equals the pattern |
| Dicts.KeySortCorrect | python/ccxt/graviex.py:952 | `keysort` keeps every item and value, and orders the keys strictly |
| Dicts.KeySortDeterminedByContents | python/ccxt/graviex.py:952 | two parameter dictionaries with the same contents sort to the same sequence, however they were built |
| Signing.TonceMeaning | python/ccxt/graviex.py:946-951 | the tonce is a digit string ending in "000" whose value is (clock + 10) × 1000 |
| Signing.CredentialsContents | python/ccxt/graviex.py:948-951 | after `sign` the caller's params hold the tonce, the api key when one is set, and otherwise what they held |
| Signing.SignOutcome | python/ccxt/graviex.py:943-966 | signing succeeds iff the endpoint group is public, or private with a secret |
| Signing.PublicPayload | python/ccxt/graviex.py:952-959 | on a public call the encoded parameters are the params in strict key order, values unchanged, with no signature added |
| Signing.SignedPayload | python/ccxt/graviex.py:954-959 | on any other call the encoded parameters are the sorted params with the HMAC of `METHOD\|path\|encoded sorted params` under `signature`, placed after all sorted keys when the caller sent none; every other key keeps the caller's value |
| Signing.SignPlacement | python/ccxt/graviex.py:959-966 | POST carries the encoded parameters as its body and keeps the URL; any other method appends `?` and them to the URL and keeps the given body |
| Signing.SignedPath | python/ccxt/graviex.py:955 | the signed path is `/api/v3/` and the request path with the exchange origin removed |
| Signing.PublicCallCarriesCredentials | python/ccxt/graviex.py:948-954 | a public call sends the tonce and any api key that is set, and no signature |
| Errors.HandleErrorsAsWritten | python/ccxt/graviex.py:969-988 | 502/503 raise "Exchange Overloaded" before the body is read; a recognised code (2002, 2005, 1001) raises its class with the error's own message, None included; otherwise a bad status raises ExchangeError with "Invalid response from exchange: " and the message; the reply is returned iff the status is 200/201 and no recognised code is present; the handler itself fails iff a bad status meets an unrecognised code without a message |
| Errors.Code2007FallsThrough | python/ccxt/graviex.py:980 | code 2007 is returned as data on status 200 and reported only as an invalid response otherwise |
| Errors.MissingMessageCrashes | python/ccxt/graviex.py:977-986 | status 400 with code 9999 and no message makes the handler fail on `str + None` |
| Errors.CodeKind | python/ccxt/graviex.py:978-983 | corrected table: 2005 and 2007 are authentication failures, 2002 insufficient funds, 1001 an exchange error, nothing else is recognised |
| Errors.HandleErrors | python/ccxt/graviex.py:969-988 | corrected handler: never fails itself; overload first; a recognised code raises its class with the message or "Unknown error"; otherwise a bad status raises "Invalid response from exchange: " + message; else the reply is returned |
| Errors.CorrectionIsLocal | python/ccxt/graviex.py:969-988 | the corrected handler agrees with the code as written on every reply where the latter does not fail, the code is not 2007, and a code comes with a message |
| Exchange.TickerTableDefined | python/ccxt/graviex.py:351-354 | the ticker table is built iff every id of the reply is a loaded market; otherwise the KeyError names the first unknown id |
| Exchange.TickerTableKeys | python/ccxt/graviex.py:351-354 | the table's keys are exactly the symbols of the reply's markets |
| Exchange.TickerTableLastWins | python/ccxt/graviex.py:354 | under each symbol sits the ticker of the last reply entry with that symbol |
| Exchange.ErrorPersists | python/ccxt/graviex.py:352 | once an unknown id has failed the loop, the whole reply fails with that error |
| Exchange.Graviex.FetchMarkets | python/ccxt/graviex.py:182-223 | one market per reply entry in reply order, with the reply key as id, or the error of the first entry that cannot be read |
| Exchange.Graviex.FetchTickers | python/ccxt/graviex.py:347-366 | without symbols, the whole ticker table; with symbols, the ticker of the first requested symbol in the table, or else a dictionary mapping every requested symbol to None; an unknown id fails first |
| Exchange.Graviex.FetchTicker | python/ccxt/graviex.py:331-334 | the symbol's ticker, or a dictionary mapping that symbol to None |
| Exchange.Graviex.CreateOrder | python/ccxt/graviex.py:484-502 | the request sent is the create-order request; the order is the reply parsed; the registry gains the order under its id and every other entry is unchanged |
| Exchange.Graviex.Sign | python/ccxt/graviex.py:943-966 | an unknown endpoint group fails before the caller's params are touched; otherwise the params receive the credentials and the result is the signed request above |

## Left out

- The HTTP transport and the framework's helpers are not modelled. Decoded replies and
  resolved markets are inputs instead. This covers the `publicGet*`/`privateGet*` calls,
  `load_markets`, `market`, `parse_trades`, `parse_orders`, `parse_order_book`,
  `parse_balance` and `iso8601`.
- Small request builders around a transport call lie outside the modelled core and are not
  modelled:
  - `fetch_order_book` (267-279) and `fetch_trades` (426-435), which default `limit` to 20
    and send `{market, limit}` under `extend`, the same shape as the modelled
    `fetch_my_trades`;
  - `fetch_order` (504-512) and `cancel_order` (610-614), which send `{id}`;
  - `fetch_open_orders` and `fetch_closed_orders`, beyond the status each passes (583-608).
- `fetch_balance` (244-265) is not modelled. It depends on the framework's `sum` and
  `parse_balance`, which are not shown.
- `fetch_deposit_address` (865-879) is not modelled. It sends the lower-cased currency
  under `extend`, decodes the reply as JSON twice and checks the address with library code.
- `create_deposit_address` (881-887) is not modelled. It sends the lower-cased currency
  under `extend` and decodes the reply as JSON once, with no address check.
- The debug `print` in `fetch_markets` (202-203) is I/O.
- Commented-out code is not live and is not modelled: `calculate_fee`, `fetch_status`,
  `parse_tickers`, `fetch_orders`, dust trades, transactions, funding fees and withdraw.
- `fetch_orders_by_status` is defined twice with the same body (562 and 586). Python keeps
  the later one, which is the one modelled.
- The clock: `nonce()` reads the system clock in seconds. The model takes the reading as
  the parameter `nonce`.
- HMAC-SHA256 (RFC 2104 over FIPS 180-4 SHA-256) and `application/x-www-form-urlencoded`
  encoding appear only as the function parameters `hmac` and `urlencode`. The model
  proves what is fed to them, not what they compute. Since they are uninterpreted, "a
  different parameter gives a different signature" is not stated.
- Signing.SignedPayload: when the caller's params already carry a `signature` key, the signature does not go after the sorted keys; the assignment replaces the caller's value at its sorted place, as Python item assignment does.
- `amount_to_precision` and `cost_to_precision` are framework rounding. The rounded
  volume is an input, and the trade cost is an uninterpreted function of the symbol and
  price × amount.
- `safe_currency_code` is the uninterpreted parameter `currencyCode`.
- Floating point: prices, percentages and averages are reals. IEEE rounding, and the float
  division inside `int(since / 1000)` for huge values, are not modelled.
- Python default arguments: `fetch_ohlcv`'s `timeframe='5m'` (378) is the constant `Requests.DefaultTimeframe` that a caller passes in its place, and `sign`'s `api='public'` and `method='GET'` (943) are not defaulted: `Signing.Sign` and `Exchange.Graviex.Sign` always take both, so a call relying on the defaults is modelled by passing "public" and "GET".
- `parse_ohlcv`'s `float()` conversions of entries 1..5 (371-375): the model's candle row already holds numbers, so a string entry and its conversion, or the ValueError of a non-numeric one, are not modelled.
- `str.upper` is modelled on ASCII letters only. Unit codes are ASCII.
- Python's string identity tests `api is not 'public'` (954) and `method is 'POST'` (961)
  are modelled as equality, which is how interned literals behave. The identity test on
  2007 (980) is modelled as never true (see Findings).
- Exchange.Graviex.FetchTickers: the order in which a returned dictionary lists its keys is
  not modelled. Tables are Dafny maps.
- `handle_errors` is modelled on decoded replies whose `error` value is an object. A reply
  body that is a list or a string, for which `'error' in response` means something else,
  is not modelled.
- Parsers.MarketEntryFields: `safe_string` on a non-string unit field is not modelled. Unit
  fields are strings or absent.
- Concurrent use of the order registry is not modelled. The model is sequential.

## Findings

| source | as written | input that shows it | evidently intended | confidence | as-written member | corrected member |
|---|---|---|---|---|---|---|
| python/ccxt/graviex.py:980 | `errorCode is 2007` compares a freshly parsed integer by identity, which CPython does not satisfy for 2007 | status 200, body `{"error": {"code": 2007, "message": m}}` is returned as data | code 2007 raises AuthenticationError like 2005 | not executed | Errors.Code2007FallsThrough | Errors.CodeKind |
| python/ccxt/graviex.py:977-986 | a code is read, `message` is absent, so `msg` becomes None, and a bad status then evaluates `'Invalid response from exchange: ' + None` | status 400, body `{"error": {"code": 9999}}` fails with TypeError | the message stays "Unknown error" when none is given, and ExchangeError is raised | not executed | Errors.MissingMessageCrashes | Errors.HandleErrors |
