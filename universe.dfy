/**
 * get_usdt_pairs: the symbol universe of a scan, read from the records of
 * the exchange-info response (eye.py:90-93).
 */
module Universe {
  import opened Wrappers
  import opened Market

  /**
   * One record of `info['symbols']`. A field the record lacks is `None`;
   * reading it raises KeyError.
   */
  datatype SymbolInfo = SymbolInfo(symbol: Option<string>, quoteAsset: Option<string>, status: Option<string>)

  const Quote: string := "USDT"
  const Trading: string := "TRADING"

  /** The record passes the comprehension's test. */
  predicate Listed(info: SymbolInfo) {
    info.quoteAsset == Some(Quote) && info.status == Some(Trading)
  }

  /** What the comprehension does with one record. */
  datatype Selection = Raises | Skipped | Selected(symbol: Symbol)

  /**
   * `s['quoteAsset'] == 'USDT' and s['status'] == 'TRADING'`, then
   * `s['symbol']`: each key is read only when Python's `and` gets to it.
   */
  function Select(info: SymbolInfo): Selection {
    match info.quoteAsset
    case None => Raises
    case Some(q) =>
      if q != Quote then Skipped
      else
        match info.status
        case None => Raises
        case Some(st) =>
          if st != Trading then Skipped
          else
            match info.symbol
            case None => Raises
            case Some(sym) => Selected(sym)
  }

  /** The comprehension of eye.py:93; `None` when it raises. */
  function UsdtPairs(infos: seq<SymbolInfo>): Option<seq<Symbol>> {
    if infos == [] then Some([])
    else
      match Select(infos[0])
      case Raises => None
      case Skipped => UsdtPairs(infos[1..])
      case Selected(sym) =>
        match UsdtPairs(infos[1..])
        case None => None
        case Some(rest) => Some([sym] + rest)
  }

  /** The filter raises exactly when some record makes it read a missing key. */
  lemma {:induction false} UsdtPairsRaises(infos: seq<SymbolInfo>)
    ensures UsdtPairs(infos).None? <==> exists i | 0 <= i < |infos| :: Select(infos[i]).Raises?
  {
    if infos != [] {
      UsdtPairsRaises(infos[1..]);
      assert forall i | 1 <= i < |infos| :: infos[i] == infos[1..][i - 1];
      if exists i | 1 <= i < |infos| :: Select(infos[i]).Raises? {
        var i :| 1 <= i < |infos| && Select(infos[i]).Raises?;
        assert Select(infos[1..][i - 1]).Raises?;
      }
    }
  }

  /**
   * The result holds exactly the symbols of the records quoted in USDT and
   * in status TRADING, in the order of the records.
   */
  lemma UsdtPairsOrder(infos: seq<SymbolInfo>) returns (idx: seq<nat>)
    requires UsdtPairs(infos).Some?
    ensures |idx| == |UsdtPairs(infos).value|
    ensures forall j | 0 <= j < |idx| ::
      idx[j] < |infos| && Listed(infos[idx[j]]) && infos[idx[j]].symbol == Some(UsdtPairs(infos).value[j])
    ensures forall j, k | 0 <= j < k < |idx| :: idx[j] < idx[k]
    ensures forall i | 0 <= i < |infos| && Listed(infos[i]) :: i in idx
  {
    idx := SelectedIndices(infos);
    forall j | 0 <= j < |idx|
      ensures Listed(infos[idx[j]]) && infos[idx[j]].symbol == Some(UsdtPairs(infos).value[j])
    {
      SelectMeaning(infos[idx[j]]);
    }
    forall i | 0 <= i < |infos| && Listed(infos[i]) ensures i in idx {
      UsdtPairsRaises(infos);
      SelectMeaning(infos[i]);
    }
  }

  /**
   * The positions of the records the comprehension keeps, in order; the
   * result is their symbols.
   */
  lemma {:induction false} SelectedIndices(infos: seq<SymbolInfo>) returns (idx: seq<nat>)
    requires UsdtPairs(infos).Some?
    ensures |idx| == |UsdtPairs(infos).value|
    ensures forall j | 0 <= j < |idx| ::
      idx[j] < |infos| && Select(infos[idx[j]]) == Selected(UsdtPairs(infos).value[j])
    ensures forall j, k | 0 <= j < k < |idx| :: idx[j] < idx[k]
    ensures forall i | 0 <= i < |infos| && Select(infos[i]).Selected? :: i in idx
  {
    if infos == [] {
      idx := [];
    } else {
      UsdtPairsCons(infos);
      var tail := SelectedIndices(infos[1..]);
      var shifted := ShiftedSelection(infos, tail, UsdtPairs(infos[1..]).value);
      var rr := UsdtPairs(infos[1..]).value;
      var r := UsdtPairs(infos).value;
      if Select(infos[0]).Selected? {
        idx := [0] + shifted;
        HeadSelection(infos, shifted, rr, idx, r);
      } else {
        idx := shifted;
        SkippedHead(infos, shifted);
      }
    }
  }

  /** The kept positions of a list without its head, seen in the whole list. */
  lemma ShiftedSelection(infos: seq<SymbolInfo>, tail: seq<nat>, rr: seq<Symbol>) returns (shifted: seq<nat>)
    requires infos != [] && |tail| == |rr|
    requires forall j | 0 <= j < |tail| :: tail[j] < |infos[1..]| && Select(infos[1..][tail[j]]) == Selected(rr[j])
    requires forall j, k | 0 <= j < k < |tail| :: tail[j] < tail[k]
    requires forall i | 0 <= i < |infos[1..]| && Select(infos[1..][i]).Selected? :: i in tail
    ensures |shifted| == |tail|
    ensures forall j | 0 <= j < |shifted| :: 0 < shifted[j] < |infos| && Select(infos[shifted[j]]) == Selected(rr[j])
    ensures forall j, k | 0 <= j < k < |shifted| :: shifted[j] < shifted[k]
    ensures forall i | 1 <= i < |infos| && Select(infos[i]).Selected? :: i in shifted
  {
    shifted := ShiftIndices(tail);
    forall j | 0 <= j < |shifted|
      ensures 0 < shifted[j] < |infos| && Select(infos[shifted[j]]) == Selected(rr[j])
    {
      assert infos[1..][tail[j]] == infos[shifted[j]];
    }
    forall i | 1 <= i < |infos| && Select(infos[i]).Selected? ensures i in shifted {
      assert infos[1..][i - 1] == infos[i];
      var j :| 0 <= j < |tail| && tail[j] == i - 1;
      assert shifted[j] == i;
    }
  }

  /** Putting the head's position in front of the shifted ones. */
  lemma HeadSelection(infos: seq<SymbolInfo>, shifted: seq<nat>, rr: seq<Symbol>, idx: seq<nat>, r: seq<Symbol>)
    requires infos != [] && Select(infos[0]).Selected? && |shifted| == |rr|
    requires idx == [0] + shifted && r == [Select(infos[0]).symbol] + rr
    requires forall j | 0 <= j < |shifted| :: 0 < shifted[j] < |infos| && Select(infos[shifted[j]]) == Selected(rr[j])
    requires forall j, k | 0 <= j < k < |shifted| :: shifted[j] < shifted[k]
    requires forall i | 1 <= i < |infos| && Select(infos[i]).Selected? :: i in shifted
    ensures |idx| == |r|
    ensures forall j | 0 <= j < |idx| :: idx[j] < |infos| && Select(infos[idx[j]]) == Selected(r[j])
    ensures forall j, k | 0 <= j < k < |idx| :: idx[j] < idx[k]
    ensures forall i | 0 <= i < |infos| && Select(infos[i]).Selected? :: i in idx
  {
    forall j | 0 <= j < |idx| ensures idx[j] < |infos| && Select(infos[idx[j]]) == Selected(r[j]) {
      if j > 0 {
        assert idx[j] == shifted[j - 1] && r[j] == rr[j - 1];
      }
    }
    LeadingZeroIncreasing(shifted);
  }

  /** A skipped head adds no position. */
  lemma SkippedHead(infos: seq<SymbolInfo>, shifted: seq<nat>)
    requires infos != [] && !Select(infos[0]).Selected?
    requires forall i | 1 <= i < |infos| && Select(infos[i]).Selected? :: i in shifted
    ensures forall i | 0 <= i < |infos| && Select(infos[i]).Selected? :: i in shifted
  {
  }

  /** An increasing list of positive indices stays increasing behind a 0. */
  lemma LeadingZeroIncreasing(s: seq<nat>)
    requires forall j | 0 <= j < |s| :: 0 < s[j]
    requires forall j, k | 0 <= j < k < |s| :: s[j] < s[k]
    ensures forall j, k | 0 <= j < k < |[0] + s| :: ([0] + s)[j] < ([0] + s)[k]
  {
  }

  /** What Select's outcome says about a record. */
  lemma SelectMeaning(info: SymbolInfo)
    ensures Select(info).Selected? ==> Listed(info) && info.symbol == Some(Select(info).symbol)
    ensures Listed(info) ==> !Select(info).Skipped?
  {
  }

  /** The filter on a non-empty list, by its first record. */
  lemma UsdtPairsCons(infos: seq<SymbolInfo>)
    requires infos != [] && UsdtPairs(infos).Some?
    ensures Select(infos[0]).Selected? || Select(infos[0]).Skipped?
    ensures UsdtPairs(infos[1..]).Some?
    ensures Select(infos[0]).Selected? ==>
      UsdtPairs(infos).value == [Select(infos[0]).symbol] + UsdtPairs(infos[1..]).value
    ensures Select(infos[0]).Skipped? ==> UsdtPairs(infos).value == UsdtPairs(infos[1..]).value
  {
  }

  /** Moves every index one record further on. */
  function ShiftIndices(tail: seq<nat>): (r: seq<nat>)
    ensures |r| == |tail|
    ensures forall j | 0 <= j < |tail| :: r[j] == tail[j] + 1
  {
    seq(|tail|, j requires 0 <= j < |tail| => tail[j] + 1)
  }

  /** Membership in the universe, both directions. */
  lemma UsdtPairsMembers(infos: seq<SymbolInfo>, sym: Symbol)
    requires UsdtPairs(infos).Some?
    ensures sym in UsdtPairs(infos).value <==>
      exists i | 0 <= i < |infos| :: Listed(infos[i]) && infos[i].symbol == Some(sym)
  {
    var r := UsdtPairs(infos).value;
    var idx := UsdtPairsOrder(infos);
    if sym in r {
      var j :| 0 <= j < |r| && r[j] == sym;
      assert Listed(infos[idx[j]]) && infos[idx[j]].symbol == Some(sym);
    }
    if exists i | 0 <= i < |infos| :: Listed(infos[i]) && infos[i].symbol == Some(sym) {
      var i :| 0 <= i < |infos| && Listed(infos[i]) && infos[i].symbol == Some(sym);
      var j :| 0 <= j < |idx| && idx[j] == i;
      assert r[j] == sym;
    }
  }
}
