/** Discounted sums over ranked positions, and which sums are greatest. */
module DiscountedGain {

  /** A positive, strictly falling sequence of discounts, as `1 / log2(i + 2)` is. */
  ghost predicate IsDiscount(d: nat -> real) {
    && (forall i: nat :: d(i) > 0.0)
    && (forall i: nat, j: nat :: i < j ==> d(j) < d(i))
  }

  /** The discounted sum of gains. */
  function Gain(gains: seq<nat>, d: nat -> real): real {
    if gains == [] then 0.0
    else Gain(gains[..|gains| - 1], d) + gains[|gains| - 1] as real * d(|gains| - 1)
  }

  /** The sum of the discounts of the marked positions. */
  function Marked(marks: seq<bool>, d: nat -> real): real {
    if marks == [] then 0.0
    else Marked(marks[..|marks| - 1], d) + if marks[|marks| - 1] then d(|marks| - 1) else 0.0
  }

  function Count(marks: seq<bool>): (n: nat)
    ensures n <= |marks|
  {
    if marks == [] then 0 else Count(marks[..|marks| - 1]) + if marks[|marks| - 1] then 1 else 0
  }

  function FirstPositions(n: nat, d: nat -> real): real {
    if n == 0 then 0.0 else FirstPositions(n - 1, d) + d(n - 1)
  }

  /** The marks are the first ones. */
  predicate IsPrefix(marks: seq<bool>) { forall i :: 0 <= i < Count(marks) ==> marks[i] }

  lemma {:induction false} FirstPositionsGrow(m: nat, n: nat, d: nat -> real)
    requires IsDiscount(d) && m <= n
    ensures FirstPositions(m, d) <= FirstPositions(n, d)
    ensures m < n ==> FirstPositions(m, d) < FirstPositions(n, d)
    decreases n
  {
    if m < n {
      FirstPositionsGrow(m, n - 1, d);
    }
  }

  lemma {:induction false} AllMarked(marks: seq<bool>, i: nat)
    requires Count(marks) == |marks| && i < |marks|
    ensures marks[i]
  {
    if i < |marks| - 1 {
      AllMarked(marks[..|marks| - 1], i);
    }
  }

  /**
   Any choice of positions is worth at most the same number of first
   positions, and as much only if it is the first positions.
   */
  lemma {:induction false} FirstPositionsAreBest(marks: seq<bool>, d: nat -> real)
    requires IsDiscount(d)
    ensures Marked(marks, d) <= FirstPositions(Count(marks), d)
    ensures Marked(marks, d) == FirstPositions(Count(marks), d) <==> IsPrefix(marks)
  {
    if marks != [] {
      var last, front := |marks| - 1, marks[..|marks| - 1];
      FirstPositionsAreBest(front, d);
      if marks[last] {
        if Count(marks) == |marks| {
          forall i | 0 <= i < |marks| ensures marks[i] {
            AllMarked(marks, i);
          }
          assert IsPrefix(front);
        } else {
          assert d(last) < d(Count(marks) - 1);
          PrefixIsNotBroken(marks);
        }
      } else {
        assert forall i :: 0 <= i < |front| ==> front[i] == marks[i];
      }
    }
  }

  /** A mark at the end after an unmarked position is not a prefix. */
  lemma PrefixIsNotBroken(marks: seq<bool>)
    requires marks != [] && marks[|marks| - 1] && Count(marks) < |marks|
    ensures !IsPrefix(marks)
  {
    if IsPrefix(marks) {
      CountOfFirst(marks, Count(marks));
    }
  }

  lemma {:induction false} CountOfFirst(marks: seq<bool>, n: nat)
    requires n < |marks| && (forall i :: 0 <= i < n ==> marks[i]) && marks[|marks| - 1]
    ensures Count(marks) > n
  {
    CountAtLeast(marks[..|marks| - 1], n);
  }

  lemma {:induction false} CountAtLeast(marks: seq<bool>, n: nat)
    requires n <= |marks| && forall i :: 0 <= i < n ==> marks[i]
    ensures Count(marks) >= n
  {
    if marks != [] {
      CountAtLeast(marks[..|marks| - 1], if n == |marks| then n - 1 else n);
    }
  }

  /** With at most `m` marks the sum is at most that of `m` first positions, and equals it only by marking those. */
  lemma MarkedIsBounded(marks: seq<bool>, m: nat, d: nat -> real)
    requires IsDiscount(d) && Count(marks) <= m
    ensures 0.0 <= Marked(marks, d) <= FirstPositions(m, d)
    ensures Marked(marks, d) > 0.0 <==> Count(marks) > 0
    ensures Marked(marks, d) == FirstPositions(m, d) <==> m <= |marks| && forall i :: 0 <= i < m ==> marks[i]
  {
    FirstPositionsAreBest(marks, d);
    FirstPositionsGrow(Count(marks), m, d);
    MarkedIsPositive(marks, d);
    if m <= |marks| && forall i :: 0 <= i < m ==> marks[i] {
      CountAtLeast(marks, m);
    }
  }

  lemma {:induction false} MarkedIsPositive(marks: seq<bool>, d: nat -> real)
    requires IsDiscount(d)
    ensures Marked(marks, d) >= 0.0 && (Marked(marks, d) > 0.0 <==> Count(marks) > 0)
  {
    if marks != [] {
      MarkedIsPositive(marks[..|marks| - 1], d);
    }
  }

  /** Gains that are all `c` or nothing. */
  lemma {:induction false} GainOfMarks(gains: seq<nat>, marks: seq<bool>, c: nat, d: nat -> real)
    requires |gains| == |marks| && forall i :: 0 <= i < |gains| ==> gains[i] == if marks[i] then c else 0
    ensures Gain(gains, d) == c as real * Marked(marks, d)
  {
    if gains != [] {
      GainOfMarks(gains[..|gains| - 1], marks[..|marks| - 1], c, d);
    }
  }

  lemma {:induction false} GainOfEqual(gains: seq<nat>, c: nat, d: nat -> real)
    requires forall i :: 0 <= i < |gains| ==> gains[i] == c
    ensures Gain(gains, d) == c as real * FirstPositions(|gains|, d)
  {
    if gains != [] {
      GainOfEqual(gains[..|gains| - 1], c, d);
    }
  }
}
