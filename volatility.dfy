/**
 * get_volatility (eye.py:104-116): one-minute candles for every symbol, a
 * score per symbol whose closes parse, and the ten highest scores.
 */
module Volatility {
  import opened Wrappers
  import opened Market
  import opened Ranking
  import opened PerSymbol

  const VolatilityInterval: Interval := "1m"
  const VolatilityCandles: nat := 60
  const VolatilityTop: nat := 10

  /**
   * The score of a list of closes: `pd.Series(closes).pct_change().dropna()
   * .std() * 100`. It is a parameter of the model, not interpreted.
   */
  type Score = seq<real> -> real

  /** `[float(k[4]) for k in data]` over a list of rows. */
  function Closes(rows: seq<Row>): (r: Option<seq<real>>)
    ensures r.Some? <==> forall k | 0 <= k < |rows| :: Field(rows[k], CloseField).Some?
    ensures r.Some? ==> |r.value| == |rows|
    ensures r.Some? ==> forall k | 0 <= k < |rows| :: r.value[k] == Field(rows[k], CloseField).value
  {
    if rows == [] then Some([])
    else
      var rest := Closes(rows[1..]);
      assert forall k | 1 <= k < |rows| :: rows[k] == rows[1..][k - 1];
      if Field(rows[0], CloseField).Some? && rest.Some? then Some([Field(rows[0], CloseField).value] + rest.value)
      else None
  }

  /** The closes of a payload; iterating over anything but a list of rows raises. */
  function ClosesOf(p: Payload): Option<seq<real>> {
    match p
    case Candles(rows) => Closes(rows)
    case Malformed => None
  }

  /** The body of the `try` for one symbol. */
  function VolatilityOf(score: Score, p: Payload): Option<real> {
    match ClosesOf(p)
    case Some(cs) => Some(score(cs))
    case None => None
  }

  function Evaluate(score: Score): Payload -> Option<real> {
    p => VolatilityOf(score, p)
  }

  /** `results` after the loop: every symbol whose closes parse, in symbol order. */
  function Results(symbols: seq<Symbol>, klines: seq<Payload>, score: Score): seq<Entry> {
    Collect(symbols, klines, Evaluate(score))
  }

  /** `sorted(results, key=lambda x: x[1], reverse=True)[:10]`. */
  function Ranked(symbols: seq<Symbol>, klines: seq<Payload>, score: Score): seq<Entry> {
    Top(Descending, VolatilityTop, Results(symbols, klines, score))
  }

  method GetVolatility(symbols: seq<Symbol>, fetch: Fetcher, score: Score) returns (top: seq<Entry>)
    ensures top == Ranked(symbols, Gather(fetch, symbols, VolatilityInterval, VolatilityCandles), score)
  {
    var klines := Gather(fetch, symbols, VolatilityInterval, VolatilityCandles);
    var results: seq<Entry> := [];
    for i := 0 to |symbols|
      invariant results == Collect(symbols[..i], klines[..i], Evaluate(score))
    {
      CollectStep(symbols, klines, Evaluate(score), i);
      var closes := ClosesOf(klines[i]);
      if closes.Some? {
        results := results + [Entry(symbols[i], score(closes.value))];
      }
    }
    assert symbols[..|symbols|] == symbols && klines[..|symbols|] == klines;
    top := Top(Descending, VolatilityTop, results);
  }

  /**
   * The ranking holds `min(10, |results|)` entries, highest score first,
   * and among equal scores the symbols that come first in `results`, in
   * that order.
   */
  lemma RankedShape(symbols: seq<Symbol>, klines: seq<Payload>, score: Score)
    ensures var results, top := Results(symbols, klines, score), Ranked(symbols, klines, score);
            && |top| == Min(VolatilityTop, |results|)
            && SortedBy(Descending, top)
            && multiset(top) <= multiset(results)
            && forall v :: WithValue(top, v) <= WithValue(results, v)
  {
    forall v ensures WithValue(Ranked(symbols, klines, score), v) <= WithValue(Results(symbols, klines, score), v) {
      TopStable(Descending, VolatilityTop, Results(symbols, klines, score), v);
    }
  }

  /**
   * Each ranked entry pairs a symbol with the score of that same symbol's
   * own payload.
   */
  lemma RankedPairing(symbols: seq<Symbol>, klines: seq<Payload>, score: Score, e: Entry)
    requires e in Ranked(symbols, klines, score)
    ensures exists i | 0 <= i < |symbols| && i < |klines| ::
      symbols[i] == e.symbol && ClosesOf(klines[i]).Some? && e.value == score(ClosesOf(klines[i]).value)
  {
    var results := Results(symbols, klines, score);
    assert e in multiset(results);
    CollectMember(symbols, klines, Evaluate(score), e);
  }

  /**
   * `results` holds an entry for a symbol exactly when that symbol's closes
   * parse, and the entry carries their score.
   */
  lemma ResultsMember(symbols: seq<Symbol>, klines: seq<Payload>, score: Score, e: Entry)
    ensures e in Results(symbols, klines, score) <==>
      exists i | 0 <= i < |symbols| && i < |klines| ::
        symbols[i] == e.symbol && ClosesOf(klines[i]).Some? && e.value == score(ClosesOf(klines[i]).value)
  {
    CollectMember(symbols, klines, Evaluate(score), e);
  }

  /**
   * A failed request is not excluded: fetch_klines turns it into `[]`,
   * whose closes are the empty list, and the symbol is ranked with the score
   * of no closes (NaN in pandas).
   */
  lemma FailedFetchIsScored(symbols: seq<Symbol>, fetch: Fetcher, score: Score, i: nat)
    requires i < |symbols| && fetch(symbols[i], VolatilityInterval, VolatilityCandles).Raised?
    ensures Entry(symbols[i], score([])) in Results(symbols, Gather(fetch, symbols, VolatilityInterval, VolatilityCandles), score)
  {
    var klines := Gather(fetch, symbols, VolatilityInterval, VolatilityCandles);
    assert ClosesOf(klines[i]) == Some([]);
    CollectMember(symbols, klines, Evaluate(score), Entry(symbols[i], score([])));
  }

  /** A malformed payload, or a row without a parsable close, drops the symbol and nothing else. */
  lemma UnparsableExcluded(symbols: seq<Symbol>, klines: seq<Payload>, score: Score, i: nat, k: nat)
    requires |symbols| == |klines| && i < |symbols|
    requires klines[i].Malformed? || (k < |klines[i].rows| && Field(klines[i].rows[k], CloseField).None?)
    ensures Results(symbols, klines, score)
         == Results(symbols[..i] + symbols[i + 1..], klines[..i] + klines[i + 1..], score)
  {
    assert Evaluate(score)(klines[i]).None?;
    CollectExcluded(symbols, klines, Evaluate(score), i);
  }
}
