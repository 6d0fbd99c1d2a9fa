# THE-GREAT-EYE scan core, modelled in Dafny

The program polls the Binance REST API and ranks USDT trading pairs. One
scan (`DataFetcher.fetch_data` in `eye.py`):

1. reads the exchange-info records and keeps the symbol of every record
   quoted in USDT whose status is TRADING, in record order (`get_usdt_pairs`);
2. fetches 60 one-minute candles per symbol, computes a volatility score
   from the closes of every symbol whose candles parse, and keeps the ten
   highest scores (`get_volatility`);
3. for each of the intervals `1h`, `4h` and `1d`, fetches two candles per
   symbol, computes the percentage change from the open of the next-to-last
   candle to the close of the last one, skips the symbols where that raises,
   and keeps the five largest and the five smallest changes (`get_movers`).

The model takes the network as a parameter: `fetch: (symbol, interval,
limit) -> FetchResult` is a snapshot of what each klines request returns
(`Fetcher`), and the exchange-info response is an argument. Gathering the
tasks is modelled by its result: one payload per symbol at the symbol's own
index. The volatility score (pandas `pct_change().dropna().std() * 100`) is a
parameter `score: seq<real> -> real`. Float arithmetic is modelled with
`real`.

Modules, one per component:

- `Wrappers` (`wrappers.dfy`): `Option` (None stands for "raised") and `Min`.
- `Market` (`market.dfy`): cells, rows, payloads, fetch results, `Entry`
  (a `(symbol, value)` pair), `fetch_klines` and the gathered task list.
- `Universe` (`universe.dfy`): the symbol filter.
- `Ranking` (`ranking.dfy`): Python's stable `sorted(..., key=x[1],
  reverse=...)` and the `[:k]` slice.
- `PerSymbol` (`persymbol.dfy`): the compute-or-exclude loop over
  `zip(symbols, klines)` that both analyses run (`try: ...append... except:
  continue`).
- `Volatility` (`volatility.dfy`), `Movers` (`movers.dfy`): the two analyses,
  as methods with loops proved against specification functions.
- `Scan` (`scan.dfy`): one scan, from exchange info to a snapshot.

Two behaviours of the code are worth stating outright:

- A symbol whose request failed or whose series is short is still ranked by
  volatility: a failed request returns `[]`, which parses to no closes,
  pandas returns NaN for the standard deviation without raising, and the
  entry is appended (`Volatility.FailedFetchIsScored`).
- The change is taken from `data[-2][1]` and `data[-1][4]`, the open of the
  next-to-last row and the close of the last row, whatever the number of
  rows (`Movers.ChangeFormula`).

## Model

| member | source | states |
|---|---|---|
| `Universe.UsdtPairsOrder` | eye.py:93 | the universe is exactly the symbols of the records quoted in USDT with status TRADING, each once per such record, in record order |
| `Universe.SelectedIndices` | eye.py:93 | the positions of the records the comprehension keeps, strictly increasing, each record's outcome is its symbol, and every kept record's position is among them |
| `Universe.UsdtPairsMembers` | eye.py:93 | a symbol is in the universe if and only if some USDT/TRADING record carries it |
| `Universe.UsdtPairsRaises` | eye.py:93 | the filter fails (the scan raises) exactly when some record lacks a key that Python's short-circuit `and` reaches |
| `Ranking.Sort` | eye.py:116 | the sort returns a permutation of its input |
| `Ranking.SortSorted` | eye.py:116 | the sort is ordered: no later entry outranks an earlier one, for `reverse=True` and for the default order |
| `Ranking.SortStable` | eye.py:116 | the sort is stable: entries with equal values keep their input order |
| `Ranking.SortUnique` | eye.py:116 | sorted plus stable determines the output, so any stable sort (Python's included) gives the same list |
| `Ranking.Top` | eye.py:132-133 | `sorted(...)[:k]` holds `min(k, n)` entries, sorted, drawn from the input, and no entry left out outranks one kept |
| `Ranking.TopStable` | eye.py:133 | among equal values the kept entries are the earliest of the input, in input order |
| `PerSymbol.CollectMember` | eye.py:108-115 | an entry is collected if and only if some symbol's own payload evaluates to its value (`zip` pairing) |
| `PerSymbol.CollectAppend` | eye.py:125-131 | the pass over a concatenation is the concatenation of the passes: symbol order is kept |
| `PerSymbol.CollectExcluded` | eye.py:130-131 | a symbol whose evaluation raises leaves the list exactly as if the symbol were not there |
| `PerSymbol.CollectNone` | eye.py:124-131 | when every evaluation raises the list is empty |
| `PerSymbol.CollectTruncate` | eye.py:108 | `zip` stops at the shorter input |
| `Volatility.Closes` | eye.py:110 | the closes parse exactly when every row has a parsable fifth field, and then list those fields row by row |
| `Volatility.GetVolatility` | eye.py:104-116 | the loop builds `results` from the gathered one-minute payloads (limit 60) and returns the slice of its descending sort to 10 |
| `Volatility.RankedShape` | eye.py:116 | the ranking has `min(10, |results|)` entries, non-increasing by score, drawn from `results`, ties in `results` order |
| `Volatility.RankedPairing` | eye.py:105-113 | every ranked entry pairs a symbol with the score of that same symbol's payload |
| `Volatility.ResultsMember` | eye.py:107-115 | `results` holds an entry exactly for the symbols whose closes parse, with their score |
| `Volatility.FailedFetchIsScored` | eye.py:101-113 | a symbol whose request raised is not excluded: it is scored on the empty list of closes |
| `Volatility.UnparsableExcluded` | eye.py:109-115 | a non-list payload or a row without a parsable close drops that symbol and changes nothing else |
| `Movers.IntervalChanges` | eye.py:124-131 | the loop over `zip(pairs, klines)` builds the specified `changes` list |
| `Movers.GetMovers` | eye.py:118-135 | the result has exactly the keys `1h`, `4h`, `1d`; each holds the gainers and losers of that interval's own two-candle payloads |
| `Movers.ChangeFormula` | eye.py:127-128 | with a parsable non-zero open in the next-to-last row and a parsable close in the last, the change is `(close - open) / open * 100`; earlier rows play no part |
| `Movers.ChangeInverse` | eye.py:127-128 | a recorded change recovers the close from the open; for a positive open it is positive exactly when the close is higher and negative exactly when it is lower |
| `Movers.UnusablePayloads` | eye.py:127-131 | a non-list payload, fewer than two rows, or a zero open is excluded |
| `Movers.ExcludedSymbol` | eye.py:125-131 | a symbol occurring once whose change raises is absent from `changes` |
| `Movers.ExcludedRemoved` | eye.py:125-131 | a symbol whose change raises, duplicated or not, leaves `changes` equal to the pass over the other symbols alone |
| `Movers.ChangesMember` | eye.py:125-129 | `changes` holds an entry exactly for each symbol whose payload yields a change, with that change |
| `Movers.EmptyInterval` | eye.py:124-134 | an interval where every symbol is excluded has empty gainers and losers |
| `Movers.IntervalIndependent` | eye.py:121-134 | an interval's section depends only on that interval's responses |
| `Movers.SectionShape` | eye.py:132-133 | gainers and losers each hold `min(5, |changes|)` entries from `changes`, non-increasing resp. non-decreasing, ties in `changes` order |
| `Movers.GainersAndLosers` | eye.py:132-133 | the first gainer has the largest change and the first loser the smallest; with at most five changes both lists hold all of them |
| `Movers.ExampleInterval` | eye.py:124-133 | A from 100 to 110, B from 50 to 45, C with one candle: gainers `[A +10, B -10]`, losers `[B -10, A +10]`, C in neither |
| `Scan.FetchData` | eye.py:27-31 | no snapshot exactly when the exchange info or the filter fails; otherwise the snapshot holds the volatility ranking and the movers of that universe |

## Left out

- The Qt interface (`CryptoTerminal`, its timer, button, loading animation,
  `display_data`; eye.py:137-220) and the program entry: user interface.
- `QThread.run`, the event loop, `aiohttp` sessions and the concurrent
  `asyncio.gather` fan-out (eye.py:18-25, 90-92, 95-106, 122-123): concurrency
  and network I/O. The requests are the `fetch` parameter, the exchange-info
  response is the `exchangeInfo` argument, and gathering is its aligned result.
- The HTML report and its timestamp (eye.py:33-88): rendering with `:.2f`
  float formatting and the wall clock. The snapshot holds what it displays.
- The API credentials and the `Client` object (eye.py:13-16): configuration
  of external I/O.
- Volatility.Score: the pandas score is an uninterpreted parameter. NaN (an
  empty, one- or two-close series) and infinities are not modelled, and the
  sortedness of the volatility ranking holds because scores are reals; with
  NaN keys Python's sort gives no such guarantee.
- Float rounding, overflow and infinities: all arithmetic is on `real`, so
  the change is exact and only a zero open raises.
- Market.Payload: a response that is not a list of rows is `Malformed`, and
  every candle access on it raises. This matches the exchange's error object
  `{"code", "msg"}`, whose keys are shorter than five characters, so that
  iterating it in `get_volatility` also raises; a dict with longer keys, or a
  row that is a string rather than a list, is not modelled.
- Scan.FetchData: a failing exchange-info request, bad JSON or a missing
  `symbols` key are folded into one `None` argument.
- Movers.GetMovers: the result is a `map`; the insertion order of the Python
  dict, which only the report uses, is not modelled.
