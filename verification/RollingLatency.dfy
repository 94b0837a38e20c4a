/**
 Request latencies: a ring buffer of the last values, shadowed by a sorted list
 that is kept up to date one removal and one insertion at a time, from which the
 quantiles are read.
 */
module RollingLatency {
  import opened Wrappers
  import opened NearestRank

  const SAMPLE_LIMIT: nat := 512

  /** A floating-point argument. */
  datatype Number = Finite(value: real) | NotFinite

  /** A measurement as it is stored: never negative, and zero if it was not finite. */
  function Safe(x: Number): (r: real)
    ensures r >= 0.0
    ensures x.Finite? && x.value >= 0.0 ==> r == x.value
  {
    if x.Finite? && x.value > 0.0 then x.value else 0.0
  }

  /** The last `SAMPLE_LIMIT` values, oldest first. */
  function Latest(history: seq<real>): (r: seq<real>)
    ensures |r| == Min(|history|, SAMPLE_LIMIT)
  {
    if |history| <= SAMPLE_LIMIT then history else history[|history| - SAMPLE_LIMIT..]
  }

  /** What is stored: a finite measurement that is not negative, and zero for any other. */
  lemma SafeExactly(x: Number)
    ensures Safe(x) == if x.Finite? && x.value >= 0.0 then x.value else 0.0
  {
  }

  /** The values looked at are the last 512. */
  lemma LatestExactly(history: seq<real>)
    ensures |history| <= 512 ==> Latest(history) == history
    ensures |history| > 512 ==> Latest(history) == history[|history| - 512..]
  {
  }

  /** Of the values looked at, the three quantiles split off half, nineteen in twenty, and ninety-nine in a hundred. */
  lemma QuantilesExactly(values: seq<real>, p50: real, p95: real, p99: real)
    requires IsNearestRank(values, MEDIAN, p50) && IsNearestRank(values, NINETY_FIFTH, p95)
    requires IsNearestRank(values, NINETY_NINTH, p99)
    ensures p50 in values && p95 in values && p99 in values
    ensures 2 * |PlacesBelow(values, p50)| < |values| <= 2 * |PlacesUpTo(values, p50)|
    ensures 20 * |PlacesBelow(values, p95)| < 19 * |values| <= 20 * |PlacesUpTo(values, p95)|
    ensures 100 * |PlacesBelow(values, p99)| < 99 * |values| <= 100 * |PlacesUpTo(values, p99)|
  {
    QuantileSplits(values, MEDIAN, p50);
    QuantileSplits(values, NINETY_FIFTH, p95);
    QuantileSplits(values, NINETY_NINTH, p99);
    hide PlacesBelow, PlacesUpTo, IsNearestRank;
  }

  /** The position of the first value equal to `x`. */
  method IndexOf(values: seq<real>, x: real) returns (index: Option<nat>)
    ensures index.None? <==> x !in values
    ensures index.Some? ==>
      index.value < |values| && values[index.value] == x && x !in values[..index.value]
  {
    var i := 0;
    while i < |values|
      invariant i <= |values| && x !in values[..i]
    {
      if values[i] == x {
        return Some(i);
      }
      i := i + 1;
    }
    return None;
  }

  /** Where `x` goes in a sorted list: after every value up to it. */
  method InsertionIndex(sorted: seq<real>, x: real) returns (index: nat)
    requires IsSorted(sorted)
    ensures index <= |sorted|
    ensures forall i :: 0 <= i < |sorted| ==> (i < index <==> sorted[i] <= x)
  {
    index := 0;
    while index < |sorted| && sorted[index] <= x
      invariant index <= |sorted| && forall i :: 0 <= i < index ==> sorted[i] <= x
    {
      index := index + 1;
    }
  }

  lemma RemovalKeepsSorted(sorted: seq<real>, k: nat)
    requires IsSorted(sorted) && k < |sorted|
    ensures IsSorted(sorted[..k] + sorted[k + 1..])
    ensures multiset(sorted[..k] + sorted[k + 1..]) == multiset(sorted) - multiset{sorted[k]}
  {
    WithoutOne(sorted, k);
  }

  lemma InsertionKeepsSorted(sorted: seq<real>, k: nat, x: real)
    requires IsSorted(sorted) && k <= |sorted|
    requires forall i :: 0 <= i < |sorted| ==> (i < k <==> sorted[i] <= x)
    ensures IsSorted(sorted[..k] + [x] + sorted[k..])
    ensures multiset(sorted[..k] + [x] + sorted[k..]) == multiset(sorted) + multiset{x}
  {
    assert multiset(sorted[..k] + [x] + sorted[k..]) == multiset(sorted) + multiset{x} by {
      assert sorted == sorted[..k] + sorted[k..];
      hide IsSorted;
    }
  }

  /** A ring buffer read from its cursor. */
  function Unrolled(ring: seq<real>, cursor: nat): seq<real>
    requires cursor <= |ring|
  {
    ring[cursor..] + ring[..cursor]
  }

  lemma UnrolledHasTheSameValues(ring: seq<real>, cursor: nat)
    requires cursor <= |ring|
    ensures multiset(Unrolled(ring, cursor)) == multiset(ring)
  {
    assert ring == ring[..cursor] + ring[cursor..];
  }

  lemma AppendToLatest(history: seq<real>, ring: seq<real>, x: real)
    requires |history| < SAMPLE_LIMIT && Unrolled(ring, 0) == Latest(history)
    ensures Unrolled(ring + [x], 0) == Latest(history + [x])
  {
  }

  /** Overwriting at the cursor and advancing it drops the oldest value and appends the new one. */
  lemma OverwriteOldest(history: seq<real>, ring: seq<real>, cursor: nat, x: real)
    requires |history| >= SAMPLE_LIMIT && |ring| == SAMPLE_LIMIT && cursor < SAMPLE_LIMIT
    requires Unrolled(ring, cursor) == Latest(history)
    ensures Unrolled(ring[cursor := x], (cursor + 1) % SAMPLE_LIMIT) == Latest(history + [x])
  {
    UnrollAfterOverwrite(ring, cursor, x);
    DropOldest(history, x);
  }

  lemma DropOldest(history: seq<real>, x: real)
    requires |history| >= SAMPLE_LIMIT
    ensures Latest(history + [x]) == Latest(history)[1..] + [x]
  {
  }

  lemma UnrollAfterOverwrite(ring: seq<real>, cursor: nat, x: real)
    requires cursor < |ring| == SAMPLE_LIMIT
    ensures Unrolled(ring[cursor := x], (cursor + 1) % SAMPLE_LIMIT) == Unrolled(ring, cursor)[1..] + [x]
  {
    var before, after := Unrolled(ring, cursor)[1..] + [x], Unrolled(ring[cursor := x], (cursor + 1) % SAMPLE_LIMIT);
    forall i | 0 <= i < |ring| ensures after[i] == before[i] {
      var at := cursor + 1 + i;
      assert before[i] == if i == |ring| - 1 then x else ring[if at < |ring| then at else at - |ring|];
    }
  }

  class LatencyWindow {
    var count: nat
    var total: real
    var window: seq<real>
    var cursor: nat
    var sorted: seq<real>
    var p50: real
    var p95: real
    var p99: real
    /** Every value observed, oldest first. */
    ghost var history: seq<real>

    /** The ring buffer and the sorted list hold the latest values of the history. */
    ghost predicate HoldsLatest()
      reads this`window, this`cursor, this`sorted, this`history
    {
      && |window| == Min(|history|, SAMPLE_LIMIT) && cursor < SAMPLE_LIMIT && cursor <= |window|
      && (|window| < SAMPLE_LIMIT ==> cursor == 0)
      && Unrolled(window, cursor) == Latest(history)
      && IsSorted(sorted) && multiset(sorted) == multiset(window)
    }

    /** Everything else is by its plain definition on the history. */
    ghost predicate Valid()
      reads this
    {
      && HoldsLatest()
      && count == |history| && total == Total(history)
      && (history == [] ==> p50 == p95 == p99 == 0.0)
      && (history != [] ==>
          && IsNearestRank(Latest(history), MEDIAN, p50)
          && IsNearestRank(Latest(history), NINETY_FIFTH, p95)
          && IsNearestRank(Latest(history), NINETY_NINTH, p99))
    }

    constructor ()
      ensures Valid() && history == []
    {
      count, total, window, cursor, sorted := 0, 0.0, [], 0, [];
      p50, p95, p99 := 0.0, 0.0, 0.0;
      history := [];
    }

    /** Records one request. The quantiles end ordered and exact for the latest values. */
    method Observe(milliseconds: Number)
      requires Valid()
      modifies this
      ensures Valid() && history == old(history) + [Safe(milliseconds)]
      ensures p50 <= p95 <= p99
    {
      hide IsNearestRank, HoldsLatest, Latest;
      var safe := Safe(milliseconds);
      count := count + 1;
      total := total + safe;
      assert Total(history + [safe]) == Total(history) + safe by {
        assert (history + [safe])[..|history|] == history;
      }
      Replace(safe);
      SetQuantiles();
    }

    method SetQuantiles()
      requires HoldsLatest() && history != []
      modifies this`p50, this`p95, this`p99
      ensures HoldsLatest() && p50 <= p95 <= p99
      ensures IsNearestRank(Latest(history), MEDIAN, p50)
      ensures IsNearestRank(Latest(history), NINETY_FIFTH, p95)
      ensures IsNearestRank(Latest(history), NINETY_NINTH, p99)
    {
      hide IsNearestRank, IsSorted, Unrolled, Latest;
      p50 := Percentile(MEDIAN);
      p95 := Percentile(NINETY_FIFTH);
      p99 := Percentile(NINETY_NINTH);
      NearestRankIsMonotone(Latest(history), MEDIAN, NINETY_FIFTH, p50, p95);
      NearestRankIsMonotone(Latest(history), NINETY_FIFTH, NINETY_NINTH, p95, p99);
    }

    /** Keeps ring buffer and sorted list in step; the value to remove is always found. */
    method Replace(safe: real)
      requires HoldsLatest()
      modifies this`window, this`cursor, this`sorted, this`history
      ensures HoldsLatest() && history == old(history) + [safe]
    {
      hide IsSorted, Unrolled, Latest;
      if |window| < SAMPLE_LIMIT {
        Append(safe);
      } else {
        Overwrite(safe);
      }
      Insert(safe);
      history := history + [safe];
    }

    /** The ring buffer is one value ahead of the history and of the sorted list. */
    ghost predicate IsAhead(safe: real)
      reads this`window, this`cursor, this`sorted, this`history
    {
      && |window| == Min(|history| + 1, SAMPLE_LIMIT) && cursor < SAMPLE_LIMIT && cursor <= |window|
      && (|window| < SAMPLE_LIMIT ==> cursor == 0)
      && Unrolled(window, cursor) == Latest(history + [safe])
      && IsSorted(sorted) && multiset(window) == multiset(sorted) + multiset{safe}
    }

    method Append(safe: real)
      requires HoldsLatest() && |window| < SAMPLE_LIMIT
      modifies this`window
      ensures IsAhead(safe)
    {
      hide IsSorted, Unrolled, Latest;
      AppendToLatest(history, window, safe);
      window := window + [safe];
    }

    method Overwrite(safe: real)
      requires HoldsLatest() && |window| == SAMPLE_LIMIT
      modifies this`window, this`cursor, this`sorted
      ensures IsAhead(safe)
    {
      hide IsSorted, Unrolled, Latest;
      OverwriteOldest(history, window, cursor, safe);
      var replaced := window[cursor];
      assert replaced in multiset(window);
      window := window[cursor := safe];
      cursor := (cursor + 1) % SAMPLE_LIMIT;
      Remove(replaced);
    }

    /** Removes one occurrence of a value that the sorted list holds. */
    method Remove(replaced: real)
      requires IsSorted(sorted) && replaced in multiset(sorted)
      modifies this`sorted
      ensures IsSorted(sorted) && multiset(sorted) == old(multiset(sorted)) - multiset{replaced}
    {
      hide IsSorted;
      var removalIndex := IndexOf(sorted, replaced);
      if removalIndex.Some? {
        RemovalKeepsSorted(sorted, removalIndex.value);
        sorted := sorted[..removalIndex.value] + sorted[removalIndex.value + 1..];
      }
    }

    method Insert(x: real)
      requires IsSorted(sorted)
      modifies this`sorted
      ensures IsSorted(sorted) && multiset(sorted) == old(multiset(sorted)) + multiset{x}
    {
      hide IsSorted;
      var index := InsertionIndex(sorted, x);
      InsertionKeepsSorted(sorted, index, x);
      sorted := sorted[..index] + [x] + sorted[index..];
    }

    /** The nearest-rank quantile of the latest values, read off the sorted list. */
    method Percentile(q: Quantile) returns (value: real)
      requires HoldsLatest() && history != [] && q.Valid()
      ensures IsNearestRank(Latest(history), q, value)
    {
      UnrolledHasTheSameValues(window, cursor);
      assert |multiset(sorted)| == |sorted| && |multiset(window)| == |window|;
      SortedHoldsTheRank(sorted, q);
      var index := Rank(|sorted|, q) - 1;
      value := if index < |sorted| then sorted[Max(0, index)] else 0.0;
      NearestRankOfPermutation(sorted, Latest(history), q, value);
    }
  }
}
