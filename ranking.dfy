/**
 * `sorted(xs, key=lambda x: x[1], reverse=...)[:k]` on lists of
 * (symbol, value) pairs. Python's sort is stable, also with `reverse=True`:
 * pairs with equal values keep their input order. The model sorts by
 * insertion, proves the result sorted, a permutation and stable, and proves
 * that these three facts determine the result, so any stable sort agrees.
 */
module Ranking {
  import opened Wrappers
  import opened Market

  /** `Descending` is `reverse=True`; `Ascending` is the default order. */
  datatype Order = Descending | Ascending

  /** `a` strictly comes first under `o`: the two values are not tied. */
  predicate Outranks(o: Order, a: real, b: real) {
    match o
    case Descending => a > b
    case Ascending => a < b
  }

  /** No later entry outranks an earlier one. */
  ghost predicate SortedBy(o: Order, s: seq<Entry>) {
    forall i, j | 0 <= i < j < |s| :: !Outranks(o, s[j].value, s[i].value)
  }

  /** The entries of `s` whose value is `v`, in the order of `s`. */
  function WithValue(s: seq<Entry>, v: real): seq<Entry> {
    if s == [] then []
    else (if s[0].value == v then [s[0]] else []) + WithValue(s[1..], v)
  }

  /** No entry of `s` outranks the value `v`: all of `s` may follow `v`. */
  ghost predicate AllFollow(o: Order, v: real, s: seq<Entry>) {
    forall j | 0 <= j < |s| :: !Outranks(o, s[j].value, v)
  }

  /** Inserts `x` before the first entry that `x` ties with or outranks. */
  function Insert(o: Order, x: Entry, s: seq<Entry>): (r: seq<Entry>)
    ensures |r| == |s| + 1
    ensures multiset(r) == multiset(s) + multiset{x}
  {
    if s == [] then [x]
    else if Outranks(o, s[0].value, x.value) then
      assert s == [s[0]] + s[1..];
      [s[0]] + Insert(o, x, s[1..])
    else
      [x] + s
  }

  lemma {:induction false} InsertSorted(o: Order, x: Entry, s: seq<Entry>)
    requires SortedBy(o, s)
    ensures SortedBy(o, Insert(o, x, s))
    ensures forall v | AllFollow(o, v, s) && !Outranks(o, x.value, v) :: AllFollow(o, v, Insert(o, x, s))
  {
    if s == [] {
    } else if Outranks(o, s[0].value, x.value) {
      var t := Insert(o, x, s[1..]);
      InsertSorted(o, x, s[1..]);
      assert AllFollow(o, s[0].value, s[1..]);
      assert AllFollow(o, s[0].value, t);
      forall v | AllFollow(o, v, s) && !Outranks(o, x.value, v)
        ensures AllFollow(o, v, Insert(o, x, s))
      {
        assert AllFollow(o, v, s[1..]);
      }
    } else {
      assert AllFollow(o, x.value, s);
    }
  }

  /** A stable sort of `s` under `o`. */
  function Sort(o: Order, s: seq<Entry>): (r: seq<Entry>)
    ensures |r| == |s|
    ensures multiset(r) == multiset(s)
  {
    if s == [] then []
    else
      assert s == [s[0]] + s[1..];
      Insert(o, s[0], Sort(o, s[1..]))
  }

  lemma {:induction false} SortSorted(o: Order, s: seq<Entry>)
    ensures SortedBy(o, Sort(o, s))
  {
    if s != [] {
      SortSorted(o, s[1..]);
      InsertSorted(o, s[0], Sort(o, s[1..]));
    }
  }

  lemma {:induction false} WithValueAppend(a: seq<Entry>, b: seq<Entry>, v: real)
    ensures WithValue(a + b, v) == WithValue(a, v) + WithValue(b, v)
  {
    if a == [] {
      assert a + b == b;
    } else {
      assert (a + b)[1..] == a[1..] + b;
      WithValueAppend(a[1..], b, v);
    }
  }

  lemma {:induction false} InsertStable(o: Order, x: Entry, s: seq<Entry>, v: real)
    ensures WithValue(Insert(o, x, s), v) == (if x.value == v then [x] else []) + WithValue(s, v)
  {
    if s != [] && Outranks(o, s[0].value, x.value) {
      var t := Insert(o, x, s[1..]);
      InsertStable(o, x, s[1..], v);
      assert Insert(o, x, s) == [s[0]] + t;
      WithValueCons(s[0], t, v);
      // x ties with none of the entries it passes, so at most one of the two is kept
      SwapKept(if s[0].value == v then [s[0]] else [], if x.value == v then [x] else [], WithValue(s[1..], v));
    } else if s != [] {
      assert Insert(o, x, s) == [x] + s;
      WithValueCons(x, s, v);
    }
  }

  lemma WithValueCons(x: Entry, t: seq<Entry>, v: real)
    ensures WithValue([x] + t, v) == (if x.value == v then [x] else []) + WithValue(t, v)
  {
    assert ([x] + t)[1..] == t;
  }

  lemma SwapKept(a: seq<Entry>, b: seq<Entry>, w: seq<Entry>)
    requires a == [] || b == []
    ensures a + (b + w) == b + (a + w)
  {
  }

  /** Stability: for every value, the entries with that value keep their input order. */
  lemma {:induction false} SortStable(o: Order, s: seq<Entry>, v: real)
    ensures WithValue(Sort(o, s), v) == WithValue(s, v)
  {
    if s != [] {
      SortStable(o, s[1..], v);
      InsertStable(o, s[0], Sort(o, s[1..]), v);
    }
  }

  lemma {:induction false} WithValueMember(s: seq<Entry>, v: real, x: Entry)
    ensures x in WithValue(s, v) <==> x in s && x.value == v
  {
    if s != [] {
      WithValueMember(s[1..], v, x);
      assert s == [s[0]] + s[1..];
    }
  }

  /**
   * The three properties pin the result down: a sorted sequence that keeps
   * the input order among equal values (and hence holds the same entries) is
   * the output of Sort. So Python's stable sort yields exactly Sort's result.
   */
  lemma {:induction false} SortUnique(o: Order, s: seq<Entry>, r: seq<Entry>)
    requires SortedBy(o, r)
    requires forall v :: WithValue(r, v) == WithValue(s, v)
    ensures r == Sort(o, s)
  {
    var t := Sort(o, s);
    SortSorted(o, s);
    forall v ensures WithValue(r, v) == WithValue(t, v) {
      SortStable(o, s, v);
    }
    SortedStableEqual(o, r, t);
  }

  lemma HeadIsMember(t: seq<Entry>)
    ensures t == [] || t[0] in t
  {
  }

  lemma {:induction false} SortedStableEqual(o: Order, r: seq<Entry>, t: seq<Entry>)
    requires SortedBy(o, r) && SortedBy(o, t)
    requires forall v :: WithValue(r, v) == WithValue(t, v)
    ensures r == t
    decreases |r|
  {
    forall x ensures x in r <==> x in t {
      WithValueMember(r, x.value, x);
      WithValueMember(t, x.value, x);
    }
    if r == [] {
      HeadIsMember(t);
    } else {
      assert r[0] in t;
      var a, b := r[0], t[0];
      assert b in r && a in t;
      assert !Outranks(o, b.value, a.value);
      assert !Outranks(o, a.value, b.value);
      assert a.value == b.value;
      assert WithValue(r, a.value) == [a] + WithValue(r[1..], a.value);
      assert WithValue(t, a.value) == [b] + WithValue(t[1..], a.value);
      assert WithValue(r, a.value)[0] == a && WithValue(t, a.value)[0] == b;
      forall v ensures WithValue(r[1..], v) == WithValue(t[1..], v) {
        if a.value == v {
          assert WithValue(r[1..], v) == WithValue(r, v)[1..];
          assert WithValue(t[1..], v) == WithValue(t, v)[1..];
        } else {
          assert WithValue(r[1..], v) == WithValue(r, v);
          assert WithValue(t[1..], v) == WithValue(t, v);
        }
      }
      SortedStableEqual(o, r[1..], t[1..]);
      assert r == [a] + r[1..] && t == [b] + t[1..];
    }
  }

  /** In a sorted sequence, nothing after position `n` outranks anything before it. */
  lemma PrefixSelection(o: Order, t: seq<Entry>, n: nat)
    requires SortedBy(o, t) && n <= |t|
    ensures multiset(t[..n]) <= multiset(t)
    ensures forall y, x | y in t[..n] && x in multiset(t) - multiset(t[..n]) :: !Outranks(o, x.value, y.value)
  {
    assert t == t[..n] + t[n..];
    assert multiset(t) - multiset(t[..n]) == multiset(t[n..]);
    forall y, x | y in t[..n] && x in multiset(t[n..])
      ensures !Outranks(o, x.value, y.value)
    {
      var i :| 0 <= i < n && t[..n][i] == y;
      var j :| 0 <= j < |t[n..]| && t[n..][j] == x;
      assert t[i] == y && t[n + j] == x;
    }
  }

  /**
   * `sorted(s, ...)[:k]`: the first `min(k, |s|)` entries of the stable sort.
   * It is sorted, is drawn from `s`, and no entry of `s` left out outranks
   * any entry kept.
   */
  function Top(o: Order, k: nat, s: seq<Entry>): (r: seq<Entry>)
    ensures |r| == Min(k, |s|)
    ensures SortedBy(o, r)
    ensures multiset(r) <= multiset(s)
    ensures forall y, x | y in r && x in multiset(s) - multiset(r) :: !Outranks(o, x.value, y.value)
  {
    var t := Sort(o, s);
    SortSorted(o, s);
    PrefixSelection(o, t, Min(k, |s|));
    t[..Min(k, |s|)]
  }

  /** Among entries with equal values, Top keeps the earliest ones of the input, in input order. */
  lemma {:induction false} TopStable(o: Order, k: nat, s: seq<Entry>, v: real)
    ensures WithValue(Top(o, k, s), v) <= WithValue(s, v)
  {
    var t := Sort(o, s);
    var n := Min(k, |s|);
    assert t == t[..n] + t[n..];
    WithValueAppend(t[..n], t[n..], v);
    SortStable(o, s, v);
  }
}
