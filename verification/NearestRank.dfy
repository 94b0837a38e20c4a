/** Nearest-rank quantiles of a list of measurements, by counting. */
module NearestRank {
  import opened Numerals

  /** An exact quantile `num / den` in (0, 1]. */
  datatype Quantile = Quantile(num: nat, den: nat)
  {
    ghost predicate Valid() { 0 < num <= den }
  }

  const MEDIAN := Quantile(1, 2)
  const NINETY_FIFTH := Quantile(19, 20)
  const NINETY_NINTH := Quantile(99, 100)

  function CeilDiv(a: nat, b: nat): (r: nat)
    requires b > 0
    ensures a <= r * b < a + b
  {
    var quotient := (a + b - 1) / b;
    assert a + b - 1 == b * quotient + (a + b - 1) % b;
    quotient
  }

  /** The least integer that is at least `n * q`. */
  function Rank(n: nat, q: Quantile): (r: nat)
    requires q.Valid()
    ensures n > 0 ==> 1 <= r <= n
  {
    CeilDivInRange(n, q.num, q.den);
    CeilDiv(n * q.num, q.den)
  }

  lemma CeilDivInRange(n: nat, num: nat, den: nat)
    requires 0 < num <= den
    ensures n > 0 ==> 1 <= CeilDiv(n * num, den) <= n
  {
    var r := CeilDiv(n * num, den);
    if n > 0 && r > n {
      MulLe(num, den, n);
      MulLe(n + 1, r, den);
    }
  }

  function CountUpTo(values: seq<real>, v: real): (c: nat)
    ensures c <= |values|
  {
    if values == [] then 0
    else CountUpTo(values[..|values| - 1], v) + if values[|values| - 1] <= v then 1 else 0
  }

  function CountBelow(values: seq<real>, v: real): (c: nat)
    ensures c <= |values|
  {
    if values == [] then 0
    else CountBelow(values[..|values| - 1], v) + if values[|values| - 1] < v then 1 else 0
  }

  /**
   `v` is one of the values; the values up to it reach the rank, and those
   strictly below it do not. Says nothing of any order of the values.
   */
  ghost predicate IsNearestRank(values: seq<real>, q: Quantile, v: real)
    requires q.Valid()
  {
    v in values && CountBelow(values, v) < Rank(|values|, q) <= CountUpTo(values, v)
  }

  ghost predicate IsSorted(values: seq<real>) {
    forall i, j :: 0 <= i <= j < |values| ==> values[i] <= values[j]
  }

  // ---------- Counting ----------

  lemma {:induction false} LowerCountsBelow(values: seq<real>, v: real, w: real)
    requires v < w
    ensures CountUpTo(values, v) <= CountBelow(values, w)
  {
    if values != [] {
      LowerCountsBelow(values[..|values| - 1], v, w);
    }
  }

  /** At most one value has the rank, and greater quantiles have greater or equal ones. */
  lemma NearestRankIsMonotone(values: seq<real>, q: Quantile, p: Quantile, v: real, w: real)
    requires q.Valid() && p.Valid()
    ensures AtMost(q, p) && IsNearestRank(values, q, v) && IsNearestRank(values, p, w) ==> v <= w
    ensures q == p && IsNearestRank(values, q, v) && IsNearestRank(values, p, w) ==> v == w
  {
    if AtMost(q, p) {
      RankIsMonotone(|values|, q, p);
    }
    if w < v {
      LowerCountsBelow(values, w, v);
    } else if q == p && v < w {
      LowerCountsBelow(values, v, w);
    }
  }

  predicate AtMost(q: Quantile, p: Quantile) { q.num * p.den <= p.num * q.den }

  lemma RankIsMonotone(n: nat, q: Quantile, p: Quantile)
    requires q.Valid() && p.Valid() && AtMost(q, p)
    ensures Rank(n, q) <= Rank(n, p)
  {
    MulLe(q.num * p.den, p.num * q.den, n);
    MulMoves(n, q.num, p.den);
    MulMoves(n, p.num, q.den);
    LeastOfGreaterRatio(Rank(n, q), n * q.num, q.den, Rank(n, p), n * p.num, p.den);
  }

  lemma MulMoves(a: int, b: int, c: int)
    ensures (b * c) * a == (a * b) * c
  {
  }

  /** From `a / d <= b / e`, the least `r >= a / d` is at most any `s >= b / e`. */
  lemma LeastOfGreaterRatio(r: nat, a: nat, d: nat, s: nat, b: nat, e: nat)
    requires d > 0 && e > 0 && r * d < a + d && b <= s * e && a * e <= b * d
    ensures r <= s
  {
    if s < r {
      MulLe(s + 1, r, d);
      assert s * d < a by { MulMoves(d, s, 1); }
      MulStrict(s * d, a, e);
      MulLe(b, s * e, d);
      assert s * d * e == s * e * d by { MulMoves(d, s, e); }
      assert false;
    }
  }

  lemma MulStrict(a: int, b: int, k: nat)
    requires a < b && k > 0
    ensures a * k < b * k
  {
  }

  lemma {:induction false} CountOfPrefix(values: seq<real>, v: real, k: nat)
    requires k <= |values|
    ensures (forall i :: 0 <= i < k ==> values[i] <= v) ==> CountUpTo(values, v) >= k
    ensures (forall i :: k <= i < |values| ==> v <= values[i]) ==> CountBelow(values, v) <= k
  {
    if values != [] {
      var last := |values| - 1;
      CountOfPrefix(values[..last], v, if k <= last then k else last);
    }
  }

  /** In a sorted list the value at the rank is the nearest-rank quantile. */
  lemma SortedHoldsTheRank(sorted: seq<real>, q: Quantile)
    requires IsSorted(sorted) && sorted != [] && q.Valid()
    ensures IsNearestRank(sorted, q, sorted[Rank(|sorted|, q) - 1])
  {
    var r := Rank(|sorted|, q);
    CountOfPrefix(sorted, sorted[r - 1], r);
    CountOfPrefix(sorted, sorted[r - 1], r - 1);
  }

  // ---------- The order of the values does not matter ----------

  lemma {:induction false} CountWithout(values: seq<real>, k: nat, v: real)
    requires k < |values|
    ensures CountUpTo(values, v) == CountUpTo(values[..k] + values[k + 1..], v) + if values[k] <= v then 1 else 0
    ensures CountBelow(values, v) == CountBelow(values[..k] + values[k + 1..], v) + if values[k] < v then 1 else 0
  {
    var last := |values| - 1;
    var rest := values[..k] + values[k + 1..];
    if k == last {
      assert rest == values[..last];
    } else {
      var front := values[..last];
      CountWithout(front, k, v);
      assert front[..k] == values[..k] && front[k + 1..] == values[k + 1..last];
      assert rest[..|rest| - 1] == front[..k] + front[k + 1..];
      assert rest[|rest| - 1] == values[last] && front[k] == values[k];
    }
  }

  lemma WithoutOne(values: seq<real>, k: nat)
    requires k < |values|
    ensures multiset(values[..k] + values[k + 1..]) == multiset(values) - multiset{values[k]}
  {
    assert values == values[..k] + [values[k]] + values[k + 1..];
  }

  lemma {:induction false} CountOfPermutation(a: seq<real>, b: seq<real>, v: real)
    requires multiset(a) == multiset(b)
    ensures CountUpTo(a, v) == CountUpTo(b, v) && CountBelow(a, v) == CountBelow(b, v)
  {
    assert |multiset(a)| == |a| && |multiset(b)| == |b|;
    if a != [] {
      var last := |a| - 1;
      assert a == a[..last] + [a[last]];
      assert a[last] in multiset(b);
      var k :| 0 <= k < |b| && b[k] == a[last];
      var rest := b[..k] + b[k + 1..];
      WithoutOne(b, k);
      CountOfPermutation(a[..last], rest, v);
      CountWithout(b, k, v);
    }
  }

  lemma NearestRankOfPermutation(a: seq<real>, b: seq<real>, q: Quantile, v: real)
    requires q.Valid() && multiset(a) == multiset(b) && IsNearestRank(a, q, v)
    ensures IsNearestRank(b, q, v)
  {
    CountOfPermutation(a, b, v);
    assert |multiset(a)| == |a| && |multiset(b)| == |b|;
    assert v in multiset(b);
  }

  // ---------- In plain terms ----------

  function PlacesUpTo(values: seq<real>, v: real): set<nat> { set i: nat | i < |values| && values[i] <= v }

  function PlacesBelow(values: seq<real>, v: real): set<nat> { set i: nat | i < |values| && values[i] < v }

  /** The counts are numbers of places. */
  lemma {:induction false} CountsArePlaces(values: seq<real>, v: real)
    ensures CountUpTo(values, v) == |PlacesUpTo(values, v)| && CountBelow(values, v) == |PlacesBelow(values, v)|
  {
    if values != [] {
      var front, last := values[..|values| - 1], values[|values| - 1];
      CountsArePlaces(front, v);
      PlacesUpToLast(front, last, v);
      PlacesBelowLast(front, last, v);
      hide PlacesUpTo, PlacesBelow;
      assert values == front + [last];
    }
  }

  lemma PlacesUpToLast(front: seq<real>, last: real, v: real)
    ensures |PlacesUpTo(front + [last], v)| == |PlacesUpTo(front, v)| + if last <= v then 1 else 0
  {
    var before, after := PlacesUpTo(front, v), PlacesUpTo(front + [last], v);
    if last <= v {
      assert after == before + {|front|};
    } else {
      assert after == before;
    }
  }

  lemma PlacesBelowLast(front: seq<real>, last: real, v: real)
    ensures |PlacesBelow(front + [last], v)| == |PlacesBelow(front, v)| + if last < v then 1 else 0
  {
    var before, after := PlacesBelow(front, v), PlacesBelow(front + [last], v);
    if last < v {
      assert after == before + {|front|};
    } else {
      assert after == before;
    }
  }

  /** The rank is the least integer that is at least `n * q`. */
  lemma RankIsCeiling(n: nat, q: Quantile)
    requires q.Valid()
    ensures n * q.num <= Rank(n, q) * q.den < n * q.num + q.den
  {
  }

  /** At least the share `q` of the values is up to the quantile, and less than that share is below it. */
  lemma QuantileSplits(values: seq<real>, q: Quantile, v: real)
    requires q.Valid() && IsNearestRank(values, q, v)
    ensures v in values
    ensures |PlacesBelow(values, v)| * q.den < |values| * q.num <= |PlacesUpTo(values, v)| * q.den
  {
    CountsArePlaces(values, v);
    RankIsCeiling(|values|, q);
    hide Rank, CountUpTo, CountBelow, PlacesBelow, PlacesUpTo;
    AroundRank(CountBelow(values, v), Rank(|values|, q), CountUpTo(values, v), q.den, |values| * q.num);
  }

  lemma AroundRank(below: nat, rank: nat, upTo: nat, den: nat, share: nat)
    requires below < rank <= upTo && share <= rank * den < share + den
    ensures below * den < share <= upTo * den
  {
    MulLe(below + 1, rank, den);
    MulLe(rank, upTo, den);
  }
}
