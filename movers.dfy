/**
 * get_movers (eye.py:118-135): for each of the hourly, four-hourly and daily
 * intervals, the percentage change of every symbol over its last two
 * candles, and the five largest gains and the five largest losses.
 */
module Movers {
  import opened Wrappers
  import opened Market
  import opened Ranking
  import opened PerSymbol

  const Intervals: seq<Interval> := ["1h", "4h", "1d"]
  const MoverCandles: nat := 2
  const MoversTop: nat := 5

  /**
   * The body of the `try` for one symbol: `open_ = float(data[-2][1])`,
   * `close = float(data[-1][4])`, `(close - open_) / open_ * 100`. It raises
   * (None) on a non-list payload, on fewer than two rows, on a missing or
   * unparsable field, and on a zero open (ZeroDivisionError).
   */
  function ChangeOf(p: Payload): Option<real> {
    match p
    case Malformed => None
    case Candles(rows) =>
      if |rows| < 2 then None
      else
        var open := Field(rows[|rows| - 2], OpenField);
        var close := Field(rows[|rows| - 1], CloseField);
        if open.None? || close.None? || open.value == 0.0 then None
        else Some((close.value - open.value) / open.value * 100.0)
  }

  /** `changes` after the loop over one interval's payloads. */
  function Changes(pairs: seq<Symbol>, klines: seq<Payload>): seq<Entry> {
    Collect(pairs, klines, ChangeOf)
  }

  /** What `movers[interval]` holds. */
  datatype Section = Section(gainers: seq<Entry>, losers: seq<Entry>)

  /** `sorted(changes, ..., reverse=True)[:5]` and `sorted(changes, ...)[:5]`. */
  function Rank(changes: seq<Entry>): Section {
    Section(Top(Descending, MoversTop, changes), Top(Ascending, MoversTop, changes))
  }

  /** The section for one interval, from that interval's gathered payloads only. */
  function ForInterval(pairs: seq<Symbol>, fetch: Fetcher, interval: Interval): Section {
    Rank(Changes(pairs, Gather(fetch, pairs, interval, MoverCandles)))
  }

  /** The loop of eye.py:125-131 over `zip(pairs, klines)`. */
  method IntervalChanges(pairs: seq<Symbol>, klines: seq<Payload>) returns (changes: seq<Entry>)
    ensures changes == Changes(pairs, klines)
  {
    var n := Min(|pairs|, |klines|);
    changes := [];
    for i := 0 to n
      invariant changes == Collect(pairs[..i], klines[..i], ChangeOf)
    {
      CollectStep(pairs, klines, ChangeOf, i);
      var change := ChangeOf(klines[i]);
      if change.Some? {
        changes := changes + [Entry(pairs[i], change.value)];
      }
    }
    CollectTruncate(pairs, klines, ChangeOf);
  }

  method GetMovers(pairs: seq<Symbol>, fetch: Fetcher) returns (movers: map<Interval, Section>)
    ensures movers.Keys == {"1h", "4h", "1d"}
    ensures forall interval | interval in movers :: movers[interval] == ForInterval(pairs, fetch, interval)
  {
    movers := map[];
    for j := 0 to |Intervals|
      invariant movers.Keys == set interval | interval in Intervals[..j]
      invariant forall interval | interval in movers :: movers[interval] == ForInterval(pairs, fetch, interval)
    {
      var interval := Intervals[j];
      var klines := Gather(fetch, pairs, interval, MoverCandles);
      var changes := IntervalChanges(pairs, klines);
      assert Intervals[..j + 1] == Intervals[..j] + [interval];
      movers := movers[interval := Rank(changes)];
    }
    assert Intervals[..|Intervals|] == Intervals;
  }

  /**
   * A payload whose last two rows carry a parsable open and close, with a
   * non-zero open, is recorded with the percentage change between them;
   * earlier rows play no part.
   */
  lemma ChangeFormula(rows: seq<Row>, open: real, close: real)
    requires |rows| >= 2
    requires Field(rows[|rows| - 2], OpenField) == Some(open) && open != 0.0
    requires Field(rows[|rows| - 1], CloseField) == Some(close)
    ensures ChangeOf(Candles(rows)) == Some((close - open) / open * 100.0)
    ensures ChangeOf(Candles(rows)) == ChangeOf(Candles(rows[|rows| - 2..]))
  {
  }

  /**
   * The change can be undone: the close is the open moved by `change`
   * percent of it. So the change is positive exactly when the close is above
   * a positive open, and negative exactly when it is below.
   */
  lemma ChangeInverse(p: Payload, change: real)
    requires ChangeOf(p) == Some(change)
    ensures p.Candles? && |p.rows| >= 2
    ensures var open := Field(p.rows[|p.rows| - 2], OpenField);
            var close := Field(p.rows[|p.rows| - 1], CloseField);
            && open.Some? && close.Some? && open.value != 0.0
            && close.value == open.value + open.value * change / 100.0
            && (open.value > 0.0 ==> (change > 0.0 <==> close.value > open.value))
            && (open.value > 0.0 ==> (change < 0.0 <==> close.value < open.value))
  {
    var o := Field(p.rows[|p.rows| - 2], OpenField).value;
    var c := Field(p.rows[|p.rows| - 1], CloseField).value;
    var d := c - o;
    assert change == d / o * 100.0;
    assert o * (d / o) == d;
    assert o * change / 100.0 == d;
    if o > 0.0 {
      assert change * o == 100.0 * d;
      if change > 0.0 { assert change * o > 0.0; }
      if d > 0.0 { assert change * o > 0.0; }
      if change < 0.0 { assert change * o < 0.0; }
      if d < 0.0 { assert change * o < 0.0; }
    }
  }

  /**
   * The payloads that cannot be evaluated (too few rows, a non-list
   * response, zero open) are excluded.
   */
  lemma UnusablePayloads(rows: seq<Row>)
    ensures ChangeOf(Malformed).None?
    ensures |rows| < 2 ==> ChangeOf(Candles(rows)).None?
    ensures |rows| >= 2 && Field(rows[|rows| - 2], OpenField) == Some(0.0) ==> ChangeOf(Candles(rows)).None?
  {
  }

  /** A symbol occurring once whose payload cannot be evaluated is absent from `changes`. */
  lemma ExcludedSymbol(pairs: seq<Symbol>, klines: seq<Payload>, i: nat)
    requires |pairs| == |klines| && i < |pairs| && ChangeOf(klines[i]).None?
    requires forall k | 0 <= k < |pairs| && pairs[k] == pairs[i] :: k == i
    ensures forall e | e in Changes(pairs, klines) :: e.symbol != pairs[i]
  {
    forall e | e in Changes(pairs, klines) ensures e.symbol != pairs[i] {
      CollectMember(pairs, klines, ChangeOf, e);
    }
  }

  /**
   * The absence of a symbol whose payload cannot be evaluated leaves the
   * other symbols' entries as they would be without it, also when the
   * symbol occurs more than once.
   */
  lemma ExcludedRemoved(pairs: seq<Symbol>, klines: seq<Payload>, i: nat)
    requires |pairs| == |klines| && i < |pairs| && ChangeOf(klines[i]).None?
    ensures Changes(pairs, klines) == Changes(pairs[..i] + pairs[i + 1..], klines[..i] + klines[i + 1..])
  {
    CollectExcluded(pairs, klines, ChangeOf, i);
  }

  /** An entry of `changes` carries the change of its own symbol's payload, and every such change is there. */
  lemma ChangesMember(pairs: seq<Symbol>, klines: seq<Payload>, e: Entry)
    ensures e in Changes(pairs, klines) <==>
      exists i | 0 <= i < |pairs| && i < |klines| :: pairs[i] == e.symbol && ChangeOf(klines[i]) == Some(e.value)
  {
    CollectMember(pairs, klines, ChangeOf, e);
  }

  /** An interval whose every payload is excluded ranks nothing, and is still reported. */
  lemma EmptyInterval(pairs: seq<Symbol>, klines: seq<Payload>)
    requires forall i | 0 <= i < |pairs| && i < |klines| :: ChangeOf(klines[i]).None?
    ensures Rank(Changes(pairs, klines)) == Section([], [])
  {
    CollectNone(pairs, klines, ChangeOf);
  }

  /** One interval's section depends on what the source reports for that interval alone. */
  lemma IntervalIndependent(pairs: seq<Symbol>, f: Fetcher, g: Fetcher, interval: Interval)
    requires forall k | 0 <= k < |pairs| :: f(pairs[k], interval, MoverCandles) == g(pairs[k], interval, MoverCandles)
    ensures ForInterval(pairs, f, interval) == ForInterval(pairs, g, interval)
  {
    assert Gather(f, pairs, interval, MoverCandles) == Gather(g, pairs, interval, MoverCandles);
  }

  /**
   * Gainers and losers each hold `min(5, |changes|)` entries drawn from
   * `changes`, gainers by falling change and losers by rising change, and
   * among equal changes the symbols that come first in `changes`, in that order.
   */
  lemma SectionShape(changes: seq<Entry>)
    ensures var s := Rank(changes);
            && |s.gainers| == |s.losers| == Min(MoversTop, |changes|)
            && SortedBy(Descending, s.gainers) && SortedBy(Ascending, s.losers)
            && multiset(s.gainers) <= multiset(changes) && multiset(s.losers) <= multiset(changes)
            && forall v :: WithValue(s.gainers, v) <= WithValue(changes, v) && WithValue(s.losers, v) <= WithValue(changes, v)
  {
    forall v ensures WithValue(Rank(changes).gainers, v) <= WithValue(changes, v)
                  && WithValue(Rank(changes).losers, v) <= WithValue(changes, v) {
      TopStable(Descending, MoversTop, changes, v);
      TopStable(Ascending, MoversTop, changes, v);
    }
  }

  /**
   * The leaders: the first gainer has the largest change and the first loser
   * the smallest. When there are at most five changes, both lists hold all of
   * them, so a symbol may be a gainer and a loser at once.
   */
  lemma GainersAndLosers(changes: seq<Entry>)
    ensures var s := Rank(changes);
            && (changes != [] ==> forall e | e in changes :: s.losers[0].value <= e.value <= s.gainers[0].value)
            && (|changes| <= MoversTop ==> multiset(s.gainers) == multiset(changes) == multiset(s.losers))
  {
    var s := Rank(changes);
    if changes != [] {
      forall e | e in changes ensures s.losers[0].value <= e.value <= s.gainers[0].value {
        LeaderBound(Descending, changes, e);
        LeaderBound(Ascending, changes, e);
      }
    }
    if |changes| <= MoversTop {
      WholeTop(Descending, changes);
      WholeTop(Ascending, changes);
    }
  }

  /** With at most five entries, the top list is the whole sorted list. */
  lemma WholeTop(o: Order, s: seq<Entry>)
    requires |s| <= MoversTop
    ensures multiset(Top(o, MoversTop, s)) == multiset(s)
  {
    assert Sort(o, s)[..|s|] == Sort(o, s);
  }

  /** No entry outranks the head of a top list. */
  lemma LeaderBound(o: Order, s: seq<Entry>, e: Entry)
    requires e in s
    ensures !Outranks(o, e.value, Top(o, MoversTop, s)[0].value)
  {
    var t := Sort(o, s);
    SortSorted(o, s);
    assert e in multiset(t);
    var j :| 0 <= j < |t| && t[j] == e;
    assert Top(o, MoversTop, s)[0] == t[0];
  }

  /** A candle whose open and close are given; the other fields parse too. */
  function Candle(open: real, close: real): Row {
    [Numeric(0.0), Numeric(open), Numeric(open), Numeric(close), Numeric(close)]
  }

  /**
   * Three symbols: A rises from 100 to 110, B falls from 50 to 45, C has a
   * single candle. A leads the gainers, B the losers, C is in neither.
   */
  lemma ExampleInterval(pairs: seq<Symbol>, klines: seq<Payload>)
    requires pairs == ["A", "B", "C"]
    requires klines == [Candles([Candle(100.0, 104.0), Candle(104.0, 110.0)]),
                        Candles([Candle(50.0, 48.0), Candle(48.0, 45.0)]),
                        Candles([Candle(10.0, 11.0)])]
    ensures Rank(Changes(pairs, klines))
         == Section([Entry("A", 10.0), Entry("B", -10.0)], [Entry("B", -10.0), Entry("A", 10.0)])
  {
    ExampleChanges(pairs, klines);
    ExampleSorts(Entry("A", 10.0), Entry("B", -10.0));
  }

  lemma ExampleChanges(pairs: seq<Symbol>, klines: seq<Payload>)
    requires pairs == ["A", "B", "C"]
    requires klines == [Candles([Candle(100.0, 104.0), Candle(104.0, 110.0)]),
                        Candles([Candle(50.0, 48.0), Candle(48.0, 45.0)]),
                        Candles([Candle(10.0, 11.0)])]
    ensures Changes(pairs, klines) == [Entry("A", 10.0), Entry("B", -10.0)]
  {
    var a, b := Entry("A", 10.0), Entry("B", -10.0);
    assert ChangeOf(klines[0]) == Some(10.0) by {
      ChangeFormula(klines[0].rows, 100.0, 110.0);
    }
    assert ChangeOf(klines[1]) == Some(-10.0) by {
      ChangeFormula(klines[1].rows, 50.0, 45.0);
    }
    assert ChangeOf(klines[2]).None?;
    assert Collect(pairs[2..], klines[2..], ChangeOf) == [] by {
      CollectSingle(pairs[2], klines[2], ChangeOf);
      assert pairs[2..] == [pairs[2]] && klines[2..] == [klines[2]];
    }
    assert Collect(pairs[1..], klines[1..], ChangeOf) == [b] by {
      assert pairs[1..][1..] == pairs[2..] && klines[1..][1..] == klines[2..];
    }
  }

  lemma ExampleSorts(a: Entry, b: Entry)
    requires a.value > b.value
    ensures Top(Descending, MoversTop, [a, b]) == [a, b]
    ensures Top(Ascending, MoversTop, [a, b]) == [b, a]
  {
    assert [a, b][1..] == [b];
    assert Sort(Descending, [b]) == [b] && Sort(Ascending, [b]) == [b];
  }
}
