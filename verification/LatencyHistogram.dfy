/** Request durations as cumulative bucket counts, one series for each route and method. */
module LatencyHistogram {
  import opened Wrappers
  import opened NearestRank
  import opened RollingLatency

  datatype Label = Label(route: string, httpMethod: string)

  datatype Series = Series(buckets: seq<nat>, count: nat, sum: real)

  /** Bucket bounds are positive and strictly increasing, and there is at least one. */
  predicate AreBounds(bounds: seq<real>) {
    bounds != [] && (forall i :: 0 <= i < |bounds| ==> bounds[i] > 0.0) &&
    forall i, j :: 0 <= i < j < |bounds| ==> bounds[i] < bounds[j]
  }

  /** Compares neighbours only, which is enough. */
  method ValidateBuckets(input: seq<Number>) returns (ok: bool, bounds: seq<real>)
    ensures ok <==> (forall i :: 0 <= i < |input| ==> input[i].Finite?) && AreBounds(Finites(input))
    ensures ok ==> bounds == Finites(input)
  {
    bounds := [];
    if input == [] {
      return false, [];
    }
    for i := 0 to |input|
      invariant |bounds| == i && forall j :: 0 <= j < i ==> input[j] == Finite(bounds[j])
      invariant i > 0 ==> AreBounds(bounds)
    {
      if !input[i].Finite? || input[i].value <= 0.0 || (i > 0 && input[i].value <= bounds[i - 1]) {
        ok := false;
        if input[i].Finite? && i > 0 && input[i].value > 0.0 {
          assert Finites(input)[i] <= Finites(input)[i - 1];
        }
        return;
      }
      bounds := bounds + [input[i].value];
    }
    assert bounds == Finites(input);
    ok := true;
  }

  /** The values of a list of numbers, zero standing in for what is not finite. */
  function Finites(input: seq<Number>): (values: seq<real>)
    ensures |values| == |input|
    ensures forall i :: 0 <= i < |input| ==> values[i] == if input[i].Finite? then input[i].value else 0.0
  {
    seq(|input|, i requires 0 <= i < |input| => if input[i].Finite? then input[i].value else 0.0)
  }

  /** What a series must hold after the observations of a history. */
  ghost predicate Summarises(series: Series, bounds: seq<real>, history: seq<real>) {
    && series.count == |history| && series.sum == Total(history)
    && |series.buckets| == |bounds|
    && forall i :: 0 <= i < |bounds| ==> series.buckets[i] == CountUpTo(history, bounds[i])
  }

  lemma {:induction false} GreaterBoundCountsMore(history: seq<real>, low: real, high: real)
    requires low <= high
    ensures CountUpTo(history, low) <= CountUpTo(history, high)
  {
    if history != [] {
      GreaterBoundCountsMore(history[..|history| - 1], low, high);
    }
  }

  /** Bucket counts never fall from one bound to the next, and the total count closes them. */
  lemma BucketsAreCumulative(series: Series, bounds: seq<real>, history: seq<real>)
    requires AreBounds(bounds) && Summarises(series, bounds, history)
    ensures forall i, j :: 0 <= i <= j < |bounds| ==> series.buckets[i] <= series.buckets[j] <= series.count
  {
    forall i, j | 0 <= i <= j < |bounds| ensures series.buckets[i] <= series.buckets[j] <= series.count {
      GreaterBoundCountsMore(history, bounds[i], bounds[j]);
    }
  }

  lemma OneMore(history: seq<real>, x: real, bound: real)
    ensures CountUpTo(history + [x], bound) == CountUpTo(history, bound) + (if x <= bound then 1 else 0)
    ensures Total(history + [x]) == Total(history) + x
  {
    assert (history + [x])[..|history|] == history;
  }

  /** Adds one to every bucket whose bound the value does not exceed. */
  method CountIn(bounds: seq<real>, before: seq<nat>, x: real, ghost history: seq<real>) returns (buckets: seq<nat>)
    requires |before| == |bounds| && forall i :: 0 <= i < |bounds| ==> before[i] == CountUpTo(history, bounds[i])
    ensures |buckets| == |bounds| && forall i :: 0 <= i < |bounds| ==> buckets[i] == CountUpTo(history + [x], bounds[i])
  {
    buckets := before;
    for i := 0 to |bounds|
      invariant |buckets| == |bounds|
      invariant forall j :: 0 <= j < i ==> buckets[j] == CountUpTo(history + [x], bounds[j])
      invariant forall j :: i <= j < |bounds| ==> buckets[j] == CountUpTo(history, bounds[j])
    {
      OneMore(history, x, bounds[i]);
      if x <= bounds[i] {
        buckets := buckets[i := buckets[i] + 1];
      }
    }
  }

  function Empty(n: nat): Series { Series(seq(n, i => 0), 0, 0.0) }

  lemma NothingObserved(bounds: seq<real>)
    ensures Summarises(Empty(|bounds|), bounds, [])
  {
  }

  method Updated(bounds: seq<real>, before: Series, x: real, ghost history: seq<real>) returns (after: Series)
    requires Summarises(before, bounds, history)
    ensures Summarises(after, bounds, history + [x])
  {
    var buckets := CountIn(bounds, before.buckets, x, history);
    OneMore(history, x, 0.0);
    after := Series(buckets, before.count + 1, before.sum + x);
  }

  class Durations {
    const bounds: seq<real>
    var series: map<Label, Series>
    /** Every duration observed under a label, oldest first. */
    ghost var histories: map<Label, seq<real>>

    ghost predicate Valid()
      reads this
    {
      AreBounds(bounds) && series.Keys == histories.Keys &&
      forall l :: l in series ==> Summarises(series[l], bounds, histories[l])
    }

    constructor (bounds: seq<real>)
      requires AreBounds(bounds)
      ensures Valid() && series == map[] && this.bounds == bounds
    {
      this.bounds := bounds;
      series, histories := map[], map[];
    }

    /** Counts one request under its key and leaves all other labels alone. */
    method Observe(key: Label, seconds: Number)
      requires Valid()
      modifies this
      ensures Valid()
      ensures var earlier := if key in old(histories) then old(histories)[key] else [];
        histories == old(histories)[key := earlier + [Safe(seconds)]]
      ensures forall l :: l != key && l in old(series) ==> l in series && series[l] == old(series)[l]
    {
      hide AreBounds;
      var safe := Safe(seconds);
      var entry := if key in series then series[key] else Empty(|bounds|);
      ghost var history := if key in histories then histories[key] else [];
      NothingObserved(bounds);
      var updated := Updated(bounds, entry, safe, history);
      hide Summarises;
      series := series[key := updated];
      histories := histories[key := history + [safe]];
    }
  }

  /** The registry's histogram for the configured bounds, refused when they are not valid. */
  method CreateDurations(input: seq<Number>) returns (durations: Option<Durations>)
    ensures durations.Some? <==> (forall i :: 0 <= i < |input| ==> input[i].Finite?) && AreBounds(Finites(input))
    ensures durations.Some? ==>
      fresh(durations.value) && durations.value.Valid() && durations.value.bounds == Finites(input)
  {
    var ok, bounds := ValidateBuckets(input);
    if !ok {
      return None;
    }
    var d := new Durations(bounds);
    return Some(d);
  }
}
