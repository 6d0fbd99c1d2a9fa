/**
 * The market data the scan consumes: exchange symbols, candle payloads as
 * the klines endpoint returns them, and the fetch step that turns a request
 * into a payload (eye.py, fetch_klines and the gathered task lists).
 */
module Market {
  import opened Wrappers

  type Symbol = string
  type Interval = string

  /** One field of a kline row: either `float(field)` succeeds or it raises. */
  datatype Cell = Numeric(value: real) | Unparsable

  /** A kline row `[openTime, open, high, low, close, volume, ...]`. */
  type Row = seq<Cell>

  const OpenField: nat := 1
  const CloseField: nat := 4

  /** `float(row[k])`: it raises when the row is too short or the field does not parse. */
  function Field(row: Row, k: nat): Option<real> {
    if k < |row| && row[k].Numeric? then Some(row[k].value) else None
  }

  /**
   * The decoded JSON of one klines response: a list of rows, or any other
   * JSON value (such as the exchange's `{code, msg}` error object), on which
   * every candle access raises.
   */
  datatype Payload = Candles(rows: seq<Row>) | Malformed

  /** The outcome of one HTTP request for klines. */
  datatype FetchResult = Received(payload: Payload) | Raised

  /**
   * A snapshot of the market data source: what a klines request for
   * (symbol, interval, limit) yields. It stands for the network.
   */
  type Fetcher = (Symbol, Interval, nat) -> FetchResult

  /** A ranked pair `(symbol, value)` as the analyses build them. */
  datatype Entry = Entry(symbol: Symbol, value: real)

  /** fetch_klines: a request that raises yields the empty list. */
  function FetchKlines(r: FetchResult): Payload
  {
    match r
    case Received(payload) => payload
    case Raised => Candles([])
  }

  /**
   * The result of gathering one fetch_klines task per symbol: one payload per
   * symbol, at the symbol's own index.
   */
  function Gather(fetch: Fetcher, symbols: seq<Symbol>, interval: Interval, limit: nat): seq<Payload> {
    seq(|symbols|, i requires 0 <= i < |symbols| => FetchKlines(fetch(symbols[i], interval, limit)))
  }
}
