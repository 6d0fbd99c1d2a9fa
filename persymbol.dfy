/**
 * The compute-or-exclude pass both analyses run over `zip(symbols, klines)`:
 * each symbol's payload is evaluated inside `try`; a value is appended as
 * `(symbol, value)`, and a payload whose evaluation raises is skipped by
 * `except: continue` (eye.py:107-115 and eye.py:124-131).
 */
module PerSymbol {
  import opened Wrappers
  import opened Market

  /** The entry one symbol contributes: none when its evaluation raised. */
  function Keep(sym: Symbol, outcome: Option<real>): seq<Entry> {
    match outcome
    case Some(v) => [Entry(sym, v)]
    case None => []
  }

  /**
   * The list the loop builds: `zip` stops at the shorter input, and the
   * entries appear in symbol order.
   */
  function Collect(symbols: seq<Symbol>, payloads: seq<Payload>, eval: Payload -> Option<real>): seq<Entry> {
    if symbols == [] || payloads == [] then []
    else Keep(symbols[0], eval(payloads[0])) + Collect(symbols[1..], payloads[1..], eval)
  }

  lemma CollectSingle(sym: Symbol, payload: Payload, eval: Payload -> Option<real>)
    ensures Collect([sym], [payload], eval) == Keep(sym, eval(payload))
  {
    assert [sym][1..] == [];
  }

  /** The pass over a concatenation is the concatenation of the passes: order is kept. */
  lemma {:induction false} CollectAppend(a: seq<Symbol>, pa: seq<Payload>, b: seq<Symbol>, pb: seq<Payload>, eval: Payload -> Option<real>)
    requires |a| == |pa|
    ensures Collect(a + b, pa + pb, eval) == Collect(a, pa, eval) + Collect(b, pb, eval)
  {
    if a == [] {
      assert a + b == b && pa + pb == pb;
    } else {
      assert (a + b)[1..] == a[1..] + b;
      assert (pa + pb)[1..] == pa[1..] + pb;
      CollectAppend(a[1..], pa[1..], b, pb, eval);
    }
  }

  /** One more loop iteration: the pass over a prefix extended by one symbol. */
  lemma CollectStep(symbols: seq<Symbol>, payloads: seq<Payload>, eval: Payload -> Option<real>, i: nat)
    requires i < |symbols| && i < |payloads|
    ensures Collect(symbols[..i + 1], payloads[..i + 1], eval)
         == Collect(symbols[..i], payloads[..i], eval) + Keep(symbols[i], eval(payloads[i]))
  {
    assert symbols[..i + 1] == symbols[..i] + [symbols[i]];
    assert payloads[..i + 1] == payloads[..i] + [payloads[i]];
    CollectAppend(symbols[..i], payloads[..i], [symbols[i]], [payloads[i]], eval);
    CollectSingle(symbols[i], payloads[i], eval);
  }

  /** `zip` ignores what lies past the shorter input. */
  lemma {:induction false} CollectTruncate(symbols: seq<Symbol>, payloads: seq<Payload>, eval: Payload -> Option<real>)
    ensures Collect(symbols, payloads, eval)
         == Collect(symbols[..Min(|symbols|, |payloads|)], payloads[..Min(|symbols|, |payloads|)], eval)
  {
    var n := Min(|symbols|, |payloads|);
    if n > 0 {
      CollectTruncate(symbols[1..], payloads[1..], eval);
      assert symbols[..n][1..] == symbols[1..][..n - 1];
      assert payloads[..n][1..] == payloads[1..][..n - 1];
    }
  }

  /** An entry is collected exactly when some symbol's own payload evaluates to its value. */
  lemma {:induction false} CollectMember(symbols: seq<Symbol>, payloads: seq<Payload>, eval: Payload -> Option<real>, e: Entry)
    ensures e in Collect(symbols, payloads, eval) <==>
      exists i | 0 <= i < |symbols| && i < |payloads| :: symbols[i] == e.symbol && eval(payloads[i]) == Some(e.value)
  {
    if symbols != [] && payloads != [] {
      var s', p' := symbols[1..], payloads[1..];
      CollectMember(s', p', eval, e);
      assert forall i | 1 <= i < |symbols| && i < |payloads| :: s'[i - 1] == symbols[i] && p'[i - 1] == payloads[i];
      if exists i | 0 <= i < |s'| && i < |p'| :: s'[i] == e.symbol && eval(p'[i]) == Some(e.value) {
        var i :| 0 <= i < |s'| && i < |p'| && s'[i] == e.symbol && eval(p'[i]) == Some(e.value);
        assert symbols[i + 1] == e.symbol && eval(payloads[i + 1]) == Some(e.value);
      }
    }
  }

  /**
   * A symbol whose evaluation raises leaves no trace: the pass gives the same
   * list as a pass over the other symbols alone.
   */
  lemma CollectExcluded(symbols: seq<Symbol>, payloads: seq<Payload>, eval: Payload -> Option<real>, i: nat)
    requires |symbols| == |payloads| && i < |symbols| && eval(payloads[i]).None?
    ensures Collect(symbols, payloads, eval)
         == Collect(symbols[..i] + symbols[i + 1..], payloads[..i] + payloads[i + 1..], eval)
  {
    var pre, post := symbols[..i], symbols[i + 1..];
    var ppre, ppost := payloads[..i], payloads[i + 1..];
    var mid, pmid := [symbols[i]] + post, [payloads[i]] + ppost;
    assert Collect(symbols, payloads, eval) == Collect(pre, ppre, eval) + Collect(mid, pmid, eval) by {
      assert symbols == pre + mid;
      assert payloads == ppre + pmid;
      CollectAppend(pre, ppre, mid, pmid, eval);
    }
    assert Collect(mid, pmid, eval) == Collect(post, ppost, eval) by {
      assert mid[1..] == post && pmid[1..] == ppost;
    }
    CollectAppend(pre, ppre, post, ppost, eval);
  }

  /** When every evaluation raises, nothing is collected. */
  lemma CollectNone(symbols: seq<Symbol>, payloads: seq<Payload>, eval: Payload -> Option<real>)
    requires forall i | 0 <= i < |symbols| && i < |payloads| :: eval(payloads[i]).None?
    ensures Collect(symbols, payloads, eval) == []
  {
    var r := Collect(symbols, payloads, eval);
    if r != [] {
      CollectMember(symbols, payloads, eval, r[0]);
    }
  }
}
