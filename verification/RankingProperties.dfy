/** Every score is a proportion, and the three notions of relevance agree. */
module RankingProperties {
  import opened Wrappers
  import opened DiscountedGain
  import opened RankingMetrics

  // ---------- Relevance ----------

  /** The two notions of relevance agree exactly when a blank symbol is not counted as expected. */
  lemma RelevanceAgrees(r: Retrieved, b: Benchmark, norm: string -> string)
    ensures (IsRelevant(r, b, norm) <==> Identity(r, b, norm) != "") <==>
            !(&& r.filePath !in b.excluded && b.chunks == [] && b.symbols != []
              && r.symbol != "" && norm(r.symbol) == "" && "" in ExpectedSymbols(b, norm))
  {
  }

  lemma ValidRelevanceAgrees(r: Retrieved, b: Benchmark, norm: string -> string)
    requires IsValid(b, norm)
    ensures IsRelevant(r, b, norm) <==> Identity(r, b, norm) != ""
    ensures IsRelevant(r, b, norm) ==> RelevanceGain(r, b, norm) == UnitGain(b)
  {
  }

  /** Everything a result can be relevant as. */
  function Universe(b: Benchmark, norm: string -> string): set<string> {
    if |b.chunks| > 0 then set c | c in b.chunks :: "chunk:" + c
    else if |b.symbols| > 0 then set s | s in b.symbols :: "symbol:" + norm(s)
    else set f | f in b.files :: "file:" + f
  }

  lemma UniverseIsSmall(b: Benchmark, norm: string -> string)
    ensures |Universe(b, norm)| <= UniverseSize(b)
  {
    if |b.chunks| > 0 {
      ImageSize(b.chunks, c => "chunk:" + c);
      assert Universe(b, norm) == Image(b.chunks, c => "chunk:" + c);
    } else if |b.symbols| > 0 {
      ImageSize(b.symbols, s => "symbol:" + norm(s));
      assert Universe(b, norm) == Image(b.symbols, s => "symbol:" + norm(s));
    } else {
      ImageSize(b.files, f => "file:" + f);
      assert Universe(b, norm) == Image(b.files, f => "file:" + f);
    }
  }

  lemma IdentityIsInUniverse(r: Retrieved, b: Benchmark, norm: string -> string)
    ensures Identity(r, b, norm) != "" ==> Identity(r, b, norm) in Universe(b, norm)
  {
  }

  /** A fresh mark for each identity, all from the universe. */
  lemma {:induction false} FreshMarksCountIdentities(ranked: seq<Retrieved>, b: Benchmark, norm: string -> string)
    ensures Count(Fresh(ranked, b, norm)) == |Identities(ranked, b, norm)|
    ensures Identities(ranked, b, norm) <= Universe(b, norm)
  {
    hide Identity, Universe;
    if ranked != [] {
      var front, identity := ranked[..|ranked| - 1], Identity(ranked[|ranked| - 1], b, norm);
      FreshMarksCountIdentities(front, b, norm);
      IdentityIsInUniverse(ranked[|ranked| - 1], b, norm);
      assert Fresh(ranked, b, norm)[..|ranked| - 1] == Fresh(front, b, norm);
      if identity == "" || identity in Identities(front, b, norm) {
        assert Identities(ranked, b, norm) == Identities(front, b, norm);
      }
    }
  }

  lemma IdentitiesAreFew(ranked: seq<Retrieved>, b: Benchmark, norm: string -> string)
    ensures Count(Fresh(ranked, b, norm)) == |Identities(ranked, b, norm)| <= UniverseSize(b)
  {
    FreshMarksCountIdentities(ranked, b, norm);
    UniverseIsSmall(b, norm);
    SubsetSize(Identities(ranked, b, norm), Universe(b, norm));
  }

  // ---------- The discounted gain ----------

  lemma {:induction false} FreshIsRelevant(ranked: seq<Retrieved>, b: Benchmark, norm: string -> string, i: nat)
    requires i < |ranked| && Fresh(ranked, b, norm)[i]
    ensures Identity(ranked[i], b, norm) != ""
  {
    if i < |ranked| - 1 {
      FreshIsRelevant(ranked[..|ranked| - 1], b, norm, i);
    }
  }

  lemma GainsAreMarks(ranked: seq<Retrieved>, b: Benchmark, norm: string -> string, d: nat -> real)
    requires IsValid(b, norm)
    ensures Gain(Gains(ranked, b, norm), d) == UnitGain(b) as real * Marked(Fresh(ranked, b, norm), d)
  {
    hide Fresh, Identity, RelevanceGain, UnitGain;
    var gains, marks := Gains(ranked, b, norm), Fresh(ranked, b, norm);
    forall i | 0 <= i < |ranked| ensures gains[i] == if marks[i] then UnitGain(b) else 0 {
      if marks[i] {
        FreshIsRelevant(ranked, b, norm, i);
        ValidRelevanceAgrees(ranked[i], b, norm);
      }
    }
    GainOfMarks(gains, marks, UnitGain(b), d);
  }

  lemma ScaledRatio(c: real, a: real, b: real)
    requires c > 0.0 && b > 0.0
    ensures c * b > 0.0 && (c * a) / (c * b) == a / b
  {
    var q := a / b;
    assert q * b == a;
    assert c * a == q * (c * b) by {
      assert c * (q * b) == q * (c * b);
    }
  }

  /** The score is the ratio of the discounts of the fresh results to those of the ideal positions. */
  lemma NdcgIsRatioOfDiscounts(
    ranked: seq<Retrieved>, b: Benchmark, cutoff: nat, norm: string -> string, d: nat -> real)
    requires IsValid(b, norm) && IsDiscount(d) && cutoff > 0
    ensures var best := FirstPositions(Min(UniverseSize(b), cutoff), d);
      best > 0.0 && Ndcg(Gains(ranked, b, norm), IdealGains(b, cutoff), d) == Marked(Fresh(ranked, b, norm), d) / best
  {
    hide Gain, Marked, IsDiscount, Fresh, Gains;
    var m := Min(UniverseSize(b), cutoff);
    GainsAreMarks(ranked, b, norm, d);
    GainOfEqual(IdealGains(b, cutoff), UnitGain(b), d);
    FirstPositionsGrow(0, m, d);
    ScaledRatio(UnitGain(b) as real, Marked(Fresh(ranked, b, norm), d), FirstPositions(m, d));
  }

  /**
   nDCG is a proportion for every valid benchmark and every ranking; it is one
   exactly when the first positions, as many as can be filled, all hold results
   relevant as something new.
   */
  lemma NdcgIsProportion(results: seq<Retrieved>, b: Benchmark, k: int, norm: string -> string, d: nat -> real)
    requires IsValid(b, norm) && IsDiscount(d)
    ensures var cutoff := Max(1, k);
      var marks := Fresh(Ranked(results, cutoff), b, norm);
      var ndcg := QualityOf(b, results, k, norm, d).ndcg;
      && 0.0 <= ndcg <= 1.0
      && (ndcg > 0.0 <==> Count(marks) > 0)
      && (ndcg == 1.0 <==>
          var m := Min(UniverseSize(b), cutoff); m <= |marks| && forall i :: 0 <= i < m ==> marks[i])
  {
    hide Gains, Fresh, Identities, Marked, FirstPositions, IsDiscount, Ndcg;
    var cutoff := Max(1, k);
    var ranked := Ranked(results, cutoff);
    var m := Min(UniverseSize(b), cutoff);
    NdcgIsRatioOfDiscounts(ranked, b, cutoff, norm, d);
    IdentitiesAreFew(ranked, b, norm);
    MarkedIsBounded(Fresh(ranked, b, norm), m, d);
    RatioInRange(Marked(Fresh(ranked, b, norm), d), FirstPositions(m, d));
  }

  // ---------- The other scores ----------

  lemma {:induction false} RelevantIffIdentified(ranked: seq<Retrieved>, b: Benchmark, norm: string -> string)
    requires IsValid(b, norm)
    ensures RelevantCount(ranked, b, norm) > 0 <==> Identities(ranked, b, norm) != {}
    ensures RelevantCount(ranked, b, norm) > 0 <==> exists i :: 0 <= i < |ranked| && IsRelevant(ranked[i], b, norm)
  {
    hide Identity, IsRelevant;
    if ranked != [] {
      var front, last := ranked[..|ranked| - 1], |ranked| - 1;
      RelevantIffIdentified(front, b, norm);
      ValidRelevanceAgrees(ranked[last], b, norm);
      if i :| 0 <= i < |ranked| && IsRelevant(ranked[i], b, norm) {
        assert i == last || ranked[i] == front[i];
      }
      if i :| 0 <= i < |front| && IsRelevant(front[i], b, norm) {
        assert ranked[i] == front[i];
      }
    }
  }

  /** The scores of relevance vanish together. */
  lemma ScoresVanishTogether(results: seq<Retrieved>, b: Benchmark, k: int, norm: string -> string, d: nat -> real)
    requires IsValid(b, norm) && IsDiscount(d)
    ensures var q := QualityOf(b, results, k, norm, d);
      && (q.ndcg > 0.0 <==> q.mrr > 0.0) && (q.mrr > 0.0 <==> q.recall > 0.0) && (q.recall > 0.0 <==> q.precision > 0.0)
  {
    var ranked := Ranked(results, Max(1, k));
    NdcgIsProportion(results, b, k, norm, d);
    hide Gains, Fresh, Identities, Identity, IsRelevant, Ndcg, IsDiscount, ExpectedSymbols;
    RelevantIffIdentified(ranked, b, norm);
    IdentitiesAreFew(ranked, b, norm);
  }

  predicate IsProportion(x: real) { 0.0 <= x <= 1.0 }

  predicate RelevanceScoresAreProportions(q: Quality) {
    IsProportion(q.recall) && IsProportion(q.precision) && IsProportion(q.mrr) && IsProportion(q.ndcg)
  }

  predicate CoverageScoresAreProportions(q: Quality) {
    && IsProportion(q.fileRecall) && IsProportion(q.symbolRecall) && IsProportion(q.duplicateRate)
    && IsProportion(q.fileDiversity) && IsProportion(q.relevantTokens)
  }

  lemma RelevanceScores(results: seq<Retrieved>, b: Benchmark, k: int, norm: string -> string, d: nat -> real)
    requires IsValid(b, norm) && IsDiscount(d)
    ensures RelevanceScoresAreProportions(QualityOf(b, results, k, norm, d))
  {
    NdcgIsProportion(results, b, k, norm, d);
    IdentitiesAreFew(Ranked(results, Max(1, k)), b, norm);
  }

  lemma CoverageScores(results: seq<Retrieved>, b: Benchmark, k: int, norm: string -> string, d: nat -> real)
    ensures CoverageScoresAreProportions(QualityOf(b, results, k, norm, d))
  {
    hide Files, Symbols, ExpectedSymbols;
    var ranked := Ranked(results, Max(1, k));
    var expectedFiles := set f | f in b.files;
    KeysAreFew(ranked);
    SubsetSize(Files(ranked) * expectedFiles, expectedFiles);
    SubsetSize(Symbols(ranked, norm) * ExpectedSymbols(b, norm), ExpectedSymbols(b, norm));
  }

  /** Every score but token efficiency is a proportion, for every valid benchmark and every ranking. */
  lemma ScoresAreProportions(results: seq<Retrieved>, b: Benchmark, k: int, norm: string -> string, d: nat -> real)
    requires IsValid(b, norm) && IsDiscount(d)
    ensures RelevanceScoresAreProportions(QualityOf(b, results, k, norm, d))
    ensures CoverageScoresAreProportions(QualityOf(b, results, k, norm, d))
  {
    hide QualityOf;
    RelevanceScores(results, b, k, norm, d);
    CoverageScores(results, b, k, norm, d);
  }

  // ---------- Aggregation ----------

  /** The aggregate of one score over all cases. */
  function Mean(scores: seq<real>): real { Total(scores) / Max(1, |scores|) as real }

  /** The mean times the number of scores is their sum; of no scores it is zero. */
  lemma MeanExactly(scores: seq<real>, x: real)
    ensures Mean([]) == 0.0
    ensures Mean(scores + [x]) * (|scores| + 1) as real == Mean(scores) * |scores| as real + x
  {
    assert (scores + [x])[..|scores|] == scores;
    if scores != [] {
      DivideBack(Total(scores), |scores| as real);
    }
    DivideBack(Total(scores) + x, (|scores| + 1) as real);
  }

  lemma DivideBack(x: real, y: real)
    requires y > 0.0
    ensures x / y * y == x
  {
  }

  /** A mean of proportions is a proportion. */
  lemma {:induction false} MeanOfProportions(scores: seq<real>)
    requires forall i :: 0 <= i < |scores| ==> IsProportion(scores[i])
    ensures IsProportion(Mean(scores))
  {
    TotalOfProportions(scores);
    RatioInRange(Total(scores), Max(1, |scores|) as real);
  }

  lemma {:induction false} TotalOfProportions(scores: seq<real>)
    requires forall i :: 0 <= i < |scores| ==> IsProportion(scores[i])
    ensures 0.0 <= Total(scores) <= |scores| as real
  {
    if scores != [] {
      TotalOfProportions(scores[..|scores| - 1]);
    }
  }
}
