/**
 * fetch_data (eye.py:27-31): the universe, then the volatility ranking,
 * then the movers, over one market snapshot. The HTML report built from
 * them is not part of this model; the snapshot holds what it shows.
 */
module Scan {
  import opened Wrappers
  import opened Market
  import opened Universe
  import opened Volatility
  import opened Movers

  datatype Snapshot = Snapshot(volatility: seq<Entry>, movers: map<Interval, Section>)

  /**
   * `exchangeInfo` is `info['symbols']`, or None when the exchange-info
   * request, its JSON decoding or the `symbols` key failed. Any of those, or
   * a record the filter cannot read, makes the scan raise: no snapshot.
   */
  method FetchData(exchangeInfo: Option<seq<SymbolInfo>>, fetch: Fetcher, score: Score) returns (snapshot: Option<Snapshot>)
    ensures snapshot.None? <==> exchangeInfo.None? || UsdtPairs(exchangeInfo.value).None?
    ensures snapshot.Some? ==>
      var pairs := UsdtPairs(exchangeInfo.value).value;
      && snapshot.value.volatility == Ranked(pairs, Gather(fetch, pairs, VolatilityInterval, VolatilityCandles), score)
      && snapshot.value.movers.Keys == {"1h", "4h", "1d"}
      && forall interval | interval in snapshot.value.movers ::
           snapshot.value.movers[interval] == ForInterval(pairs, fetch, interval)
  {
    if exchangeInfo.None? {
      return None;
    }
    var pairs := UsdtPairs(exchangeInfo.value);
    if pairs.None? {
      return None;
    }
    var volatility := GetVolatility(pairs.value, fetch, score);
    var movers := GetMovers(pairs.value, fetch);
    snapshot := Some(Snapshot(volatility, movers));
  }
}
