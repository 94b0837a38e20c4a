/** What each score of a ranking is, as a count of positions or of distinct values among the first results. */
module RankingScores {
  import opened Wrappers
  import opened DiscountedGain
  import opened RankingMetrics
  import opened RankingProperties

  /** How many results are looked at. */
  function Depth(results: seq<Retrieved>, k: int): (depth: nat)
    ensures depth <= |results|
  {
    Min(if k < 1 then 1 else k, |results|)
  }

  /** The positions looked at whose result is relevant. */
  function RelevantAt(results: seq<Retrieved>, depth: nat, b: Benchmark, norm: string -> string): set<nat>
    requires depth <= |results|
  {
    set i: nat | i < depth && IsRelevant(results[i], b, norm)
  }

  /**
   A result is relevant as a chunk, a symbol or a file, whichever the benchmark
   names first, unless its file is excluded.
   */
  lemma RelevantExactly(r: Retrieved, b: Benchmark, norm: string -> string)
    ensures r.filePath in b.excluded ==> !IsRelevant(r, b, norm)
    ensures r.filePath !in b.excluded ==>
      (IsRelevant(r, b, norm) <==>
       if b.chunks != [] then exists c :: c in b.chunks && c != "" && r.chunkId == Some(c)
       else if b.symbols != [] then r.symbol != "" && exists s :: s in b.symbols && norm(s) == norm(r.symbol)
       else r.filePath in b.files)
  {
  }

  /** Under the schema two relevant results count as the same exactly when they are the same chunk, symbol or file. */
  lemma SameIdentity(r: Retrieved, q: Retrieved, b: Benchmark, norm: string -> string)
    requires IsValid(b, norm) && IsRelevant(r, b, norm) && IsRelevant(q, b, norm)
    ensures Identity(r, b, norm) == Identity(q, b, norm) <==>
            if b.chunks != [] then r.chunkId == q.chunkId
            else if b.symbols != [] then norm(r.symbol) == norm(q.symbol)
            else r.filePath == q.filePath
  {
    if b.chunks != [] {
      SameAfterPrefix("chunk:", r.chunkId.value, q.chunkId.value);
    } else if b.symbols != [] {
      SameAfterPrefix("symbol:", norm(r.symbol), norm(q.symbol));
    } else {
      SameAfterPrefix("file:", r.filePath, q.filePath);
    }
  }

  lemma SameAfterPrefix(prefix: string, a: string, b: string)
    ensures prefix + a == prefix + b <==> a == b
  {
    assert (prefix + a)[|prefix|..] == a && (prefix + b)[|prefix|..] == b;
  }

  /** `x` is the proportion of `part` in `whole`; of nothing every proportion is zero. */
  predicate IsShare(x: real, part: nat, whole: nat) {
    if whole == 0 then x == 0.0 else x * whole as real == part as real
  }

  lemma RatioIsShare(part: nat, whole: nat)
    ensures IsShare(Ratio(part, whole), part, whole)
  {
  }

  // ---------- Counting ----------

  lemma {:induction false} RelevantIsCounted(ranked: seq<Retrieved>, b: Benchmark, norm: string -> string)
    ensures RelevantCount(ranked, b, norm) == |RelevantAt(ranked, |ranked|, b, norm)|
  {
    hide IsRelevant;
    if ranked != [] {
      var last := |ranked| - 1;
      RelevantIsCounted(ranked[..last], b, norm);
      assert RelevantAt(ranked, |ranked|, b, norm)
          == RelevantAt(ranked[..last], last, b, norm) + if IsRelevant(ranked[last], b, norm) then {last} else {};
    }
  }

  /** The things that the results looked at are relevant as. */
  function Found(results: seq<Retrieved>, depth: nat, b: Benchmark, norm: string -> string): set<string>
    requires depth <= |results|
  {
    set i: nat | i < depth && Identity(results[i], b, norm) != "" :: Identity(results[i], b, norm)
  }

  lemma {:induction false} IdentitiesAreFound(ranked: seq<Retrieved>, b: Benchmark, norm: string -> string)
    ensures Identities(ranked, b, norm) == Found(ranked, |ranked|, b, norm)
  {
    hide Identity;
    if ranked != [] {
      var last := |ranked| - 1;
      var identity := Identity(ranked[last], b, norm);
      IdentitiesAreFound(ranked[..last], b, norm);
      assert Found(ranked, |ranked|, b, norm)
          == Found(ranked[..last], last, b, norm) + if identity == "" then {} else {identity};
    }
  }

  /** The positions whose key an earlier one has. */
  function Repeats(ranked: seq<Retrieved>, depth: nat): set<nat>
    requires depth <= |ranked|
  {
    set j: nat, i: nat | i < j < depth && DuplicateKey(ranked[i]) == DuplicateKey(ranked[j]) :: j
  }

  /** Every position either brings a new key or repeats one. */
  lemma {:induction false} RepeatsAreCounted(ranked: seq<Retrieved>)
    ensures |Repeats(ranked, |ranked|)| == |ranked| - |Keys(ranked)|
  {
    if ranked == [] {
      assert Repeats(ranked, 0) == {} && Keys(ranked) == {};
    } else {
      var front := ranked[..|ranked| - 1];
      hide Repeats, Keys, DuplicateKey;
      RepeatsAreCounted(front);
      KeysOfLast(ranked);
      RepeatsOfLast(ranked);
    }
  }

  lemma KeysOfLast(ranked: seq<Retrieved>)
    requires ranked != []
    ensures var front, key := ranked[..|ranked| - 1], DuplicateKey(ranked[|ranked| - 1]);
      |Keys(ranked)| == |Keys(front)| + if key in Keys(front) then 0 else 1
  {
    hide DuplicateKey;
    var front, key := ranked[..|ranked| - 1], DuplicateKey(ranked[|ranked| - 1]);
    assert Keys(ranked) == Keys(front) + {key};
    if key in Keys(front) {
      assert Keys(front) + {key} == Keys(front);
    }
  }

  lemma RepeatsOfLast(ranked: seq<Retrieved>)
    requires ranked != []
    ensures var front, key := ranked[..|ranked| - 1], DuplicateKey(ranked[|ranked| - 1]);
      |Repeats(ranked, |ranked|)| == |Repeats(front, |front|)| + if key in Keys(front) then 1 else 0
  {
    hide DuplicateKey;
    var front, last := ranked[..|ranked| - 1], |ranked| - 1;
    var before := Repeats(front, last);
    if DuplicateKey(ranked[last]) in Keys(front) {
      var i :| 0 <= i < last && DuplicateKey(front[i]) == DuplicateKey(ranked[last]);
      assert last in Repeats(ranked, |ranked|);
      assert Repeats(ranked, |ranked|) == before + {last};
    } else {
      assert Repeats(ranked, |ranked|) == before;
    }
  }

  // ---------- Relevance scores ----------

  /** The reciprocal rank: one over the number of results up to the first relevant one. */
  lemma ReciprocalRank(b: Benchmark, results: seq<Retrieved>, k: int, norm: string -> string, d: nat -> real, i: nat)
    ensures var mrr := QualityOf(b, results, k, norm, d).mrr;
      var relevant := RelevantAt(results, Depth(results, k), b, norm);
      && (relevant == {} ==> mrr == 0.0)
      && (i in relevant && (forall j: nat :: j < i ==> j !in relevant) ==> IsShare(mrr, 1, i + 1))
  {
    hide IsRelevant, Ndcg, Identities, RelevantCount, Ratio, IsShare, RelevantAt, FirstRelevant, Ranked;
    var relevant := RelevantAt(results, Depth(results, k), b, norm);
    FirstIsLeast(b, results, k, norm);
    RatioIsShare(1, i + 1);
    if i in relevant && forall j: nat :: j < i ==> j !in relevant {
      var first := FirstRelevant(Ranked(results, Max(1, k)), b, norm);
      assert first == i;
    }
  }

  lemma FirstIsLeast(b: Benchmark, results: seq<Retrieved>, k: int, norm: string -> string)
    ensures var ranked := Ranked(results, Max(1, k));
      var first, relevant := FirstRelevant(ranked, b, norm), RelevantAt(results, Depth(results, k), b, norm);
      && |ranked| == Depth(results, k) && (first < |ranked| <==> relevant != {})
      && (first < |ranked| ==> first in relevant) && forall j: nat :: j < first ==> j !in relevant
  {
    hide IsRelevant;
    var ranked := Ranked(results, Max(1, k));
    var relevant := RelevantAt(results, Depth(results, k), b, norm);
    assert forall j: nat :: j < |ranked| ==> ranked[j] == results[j];
    var first := FirstRelevant(ranked, b, norm);
    assert first < |ranked| ==> first in relevant;
    if j :| j in relevant {
      assert IsRelevant(ranked[j], b, norm);
    } else {
      assert relevant == {};
    }
  }

  /** The counts of the first results are those of the list cut there. */
  lemma CountsOfRanked(b: Benchmark, results: seq<Retrieved>, k: int, norm: string -> string)
    ensures var ranked, depth := Ranked(results, Max(1, k)), Depth(results, k);
      && ranked == results[..depth]
      && RelevantCount(ranked, b, norm) == |RelevantAt(results, depth, b, norm)|
      && Identities(ranked, b, norm) == Found(results, depth, b, norm)
  {
    hide IsRelevant, Identity;
    var ranked, depth := Ranked(results, Max(1, k)), Depth(results, k);
    assert ranked == results[..depth];
    RelevantIsCounted(ranked, b, norm);
    IdentitiesAreFound(ranked, b, norm);
    assert RelevantAt(ranked, |ranked|, b, norm) == RelevantAt(results, depth, b, norm);
    assert Found(ranked, |ranked|, b, norm) == Found(results, depth, b, norm);
  }

  /** Precision is the share of relevant results in the cutoff, recall that of what was found in the universe. */
  lemma PrecisionAndRecall(b: Benchmark, results: seq<Retrieved>, k: int, norm: string -> string, d: nat -> real)
    ensures var q, depth := QualityOf(b, results, k, norm, d), Depth(results, k);
      && IsShare(q.precision, |RelevantAt(results, depth, b, norm)|, if k < 1 then 1 else k)
      && IsShare(q.recall, |Found(results, depth, b, norm)|,
                 if b.chunks != [] then |b.chunks| else if b.symbols != [] then |b.symbols| else |b.files|)
  {
    hide Ratio, Ndcg, IsShare, RelevantCount, RelevantAt, Identities, Found, Ranked;
    CountsOfRanked(b, results, k, norm);
    RatioIsShare(|RelevantAt(results, Depth(results, k), b, norm)|, Max(1, k));
    RatioIsShare(|Found(results, Depth(results, k), b, norm)|, UniverseSize(b));
  }

  // ---------- The discounted gain ----------

  /** A result is marked when it is relevant as something no earlier one is. */
  lemma {:induction false} FreshExactly(ranked: seq<Retrieved>, b: Benchmark, norm: string -> string, i: nat)
    requires i < |ranked|
    ensures Fresh(ranked, b, norm)[i] <==>
            Identity(ranked[i], b, norm) != ""
            && forall j :: 0 <= j < i ==> Identity(ranked[j], b, norm) != Identity(ranked[i], b, norm)
  {
    hide Identity;
    var front, last := ranked[..|ranked| - 1], |ranked| - 1;
    if i < last {
      FreshExactly(front, b, norm, i);
    } else {
      IdentitiesAreFound(front, b, norm);
      assert forall j :: 0 <= j < last ==> front[j] == ranked[j];
    }
  }

  /** Each position adds its own discount, the first one that of position zero. */
  lemma DiscountsAddUp(marks: seq<bool>, mark: bool, n: nat, d: nat -> real)
    ensures Marked([], d) == 0.0 && Marked(marks + [mark], d) == Marked(marks, d) + if mark then d(|marks|) else 0.0
    ensures FirstPositions(0, d) == 0.0 && FirstPositions(n + 1, d) == FirstPositions(n, d) + d(n)
  {
    assert (marks + [mark])[..|marks|] == marks;
  }

  /** nDCG is the discounts of the marked results over those of as many first positions as could be filled. */
  lemma NdcgExactly(b: Benchmark, results: seq<Retrieved>, k: int, norm: string -> string, d: nat -> real)
    requires IsValid(b, norm) && IsDiscount(d)
    ensures var cutoff := if k < 1 then 1 else k;
      var best := FirstPositions(Min(UniverseSize(b), cutoff), d);
      && best > 0.0
      && QualityOf(b, results, k, norm, d).ndcg == Marked(Fresh(results[..Depth(results, k)], b, norm), d) / best
  {
    hide Ndcg, Gains, IdealGains, Fresh, Marked, FirstPositions, IsDiscount, IsValid, Ratio;
    assert Ranked(results, Max(1, k)) == results[..Depth(results, k)];
    NdcgIsRatioOfDiscounts(Ranked(results, Max(1, k)), b, Max(1, k), norm, d);
  }

  // ---------- Coverage scores ----------

  function PathsOf(results: seq<Retrieved>, depth: nat): set<string>
    requires depth <= |results|
  {
    set i: nat | i < depth :: results[i].filePath
  }

  function SymbolsOf(results: seq<Retrieved>, depth: nat, norm: string -> string): set<string>
    requires depth <= |results|
  {
    set i: nat | i < depth && results[i].symbol != "" :: norm(results[i].symbol)
  }

  function FileSet(b: Benchmark): set<string> { set f | f in b.files }

  function SymbolSet(b: Benchmark, norm: string -> string): set<string> { set s | s in b.symbols :: norm(s) }

  lemma CoverageOfRanked(results: seq<Retrieved>, k: int, norm: string -> string)
    ensures var ranked, depth := Ranked(results, Max(1, k)), Depth(results, k);
      && |ranked| == depth && Files(ranked) == PathsOf(results, depth)
      && Symbols(ranked, norm) == SymbolsOf(results, depth, norm)
  {
    var ranked, depth := Ranked(results, Max(1, k)), Depth(results, k);
    forall i: nat | i < depth ensures ranked[i] == results[i] && ranked[i] in ranked {
    }
  }

  lemma NoSymbols(b: Benchmark, norm: string -> string)
    ensures SymbolSet(b, norm) == {} <==> b.symbols == []
    ensures ExpectedSymbols(b, norm) == SymbolSet(b, norm)
  {
    assert b.symbols != [] ==> norm(b.symbols[0]) in SymbolSet(b, norm);
  }

  /** The shares of the expected files and symbols that are found; without expected symbols none is missing. */
  lemma FileAndSymbolRecall(b: Benchmark, results: seq<Retrieved>, k: int, norm: string -> string, d: nat -> real)
    ensures var q, depth := QualityOf(b, results, k, norm, d), Depth(results, k);
      && IsShare(q.fileRecall, |PathsOf(results, depth) * FileSet(b)|, |FileSet(b)|)
      && if b.symbols == [] then q.symbolRecall == 1.0
         else IsShare(q.symbolRecall, |SymbolsOf(results, depth, norm) * SymbolSet(b, norm)|, |SymbolSet(b, norm)|)
  {
    hide Ratio, Ndcg, IsShare, Ranked, Files, Symbols, PathsOf, SymbolsOf, SymbolSet, ExpectedSymbols, Depth;
    CoverageOfRanked(results, k, norm);
    NoSymbols(b, norm);
    RatioIsShare(|PathsOf(results, Depth(results, k)) * FileSet(b)|, |FileSet(b)|);
    RatioIsShare(|SymbolsOf(results, Depth(results, k), norm) * SymbolSet(b, norm)|, |SymbolSet(b, norm)|);
  }

  /** The shares of repeated keys and of distinct files among the results looked at. */
  lemma DuplicatesAndDiversity(b: Benchmark, results: seq<Retrieved>, k: int, norm: string -> string, d: nat -> real)
    ensures var q, depth := QualityOf(b, results, k, norm, d), Depth(results, k);
      && IsShare(q.duplicateRate, |Repeats(results, depth)|, depth)
      && IsShare(q.fileDiversity, |PathsOf(results, depth)|, depth)
  {
    var ranked, depth := Ranked(results, Max(1, k)), Depth(results, k);
    CoverageOfRanked(results, k, norm);
    RepeatsOfRanked(results, k);
    hide Ratio, Ndcg, IsShare, Ranked, Files, PathsOf, Repeats, Depth;
    RatioIsShare(|Repeats(results, depth)|, depth);
    RatioIsShare(|PathsOf(results, depth)|, depth);
  }

  lemma RepeatsOfRanked(results: seq<Retrieved>, k: int)
    ensures DuplicateCount(Ranked(results, Max(1, k))) == |Repeats(results, Depth(results, k))|
  {
    hide DuplicateKey, Keys;
    var ranked, depth := Ranked(results, Max(1, k)), Depth(results, k);
    assert forall j: nat :: j < |ranked| ==> ranked[j] == results[j];
    RepeatsAreCounted(ranked);
    assert Repeats(ranked, |ranked|) == Repeats(results, depth);
  }

  /** A duplicate has the same chunk id, or without one the same file and lines. */
  lemma KeyExactly(r: Retrieved)
    ensures r.chunkId.Some? ==> DuplicateKey(r) == r.chunkId.value
    ensures r.chunkId.None? ==> DuplicateKey(r) == r.filePath + ['\0'] + r.startLine + ['\0'] + r.endLine
  {
  }

  // ---------- Token scores ----------

  /** A quarter of the characters, rounded up, and at least one. */
  lemma TokensExactly(content: string)
    ensures content == "" ==> Tokens(content) == 1
    ensures content != "" ==> 4 * Tokens(content) - 4 < |content| <= 4 * Tokens(content)
  {
  }

  /** Tokens of a list add up over its results; the relevant ones likewise. */
  lemma {:induction false} TokensAddUp(a: seq<Retrieved>, c: seq<Retrieved>, b: Benchmark, norm: string -> string)
    ensures TotalTokens(a + c) == TotalTokens(a) + TotalTokens(c)
    ensures RelevantTokens(a + c, b, norm) == RelevantTokens(a, b, norm) + RelevantTokens(c, b, norm)
    decreases |c|
  {
    hide IsRelevant, Tokens;
    if c == [] {
      assert a + c == a;
    } else {
      assert (a + c)[..|a + c| - 1] == a + c[..|c| - 1];
      TokensAddUp(a, c[..|c| - 1], b, norm);
    }
  }

  lemma TokensOfOne(r: Retrieved, b: Benchmark, norm: string -> string)
    ensures TotalTokens([r]) == Tokens(r.content)
    ensures RelevantTokens([r], b, norm) == if IsRelevant(r, b, norm) then Tokens(r.content) else 0
  {
    assert [r][..0] == [];
  }

  /** Relevant results for a thousand tokens, and the share of the tokens that are relevant. */
  lemma TokenScores(b: Benchmark, results: seq<Retrieved>, k: int, norm: string -> string, d: nat -> real)
    ensures var q, depth := QualityOf(b, results, k, norm, d), Depth(results, k);
      var total := TotalTokens(results[..depth]);
      && IsShare(q.tokenEfficiency, |RelevantAt(results, depth, b, norm)| * 1000, total)
      && IsShare(q.relevantTokens, RelevantTokens(results[..depth], b, norm), total)
  {
    hide Ratio, Ndcg, IsShare, Ranked, RelevantCount, RelevantAt, TotalTokens, RelevantTokens, Depth, Identities, Found;
    var depth := Depth(results, k);
    CountsOfRanked(b, results, k, norm);
    RatioIsShare(|RelevantAt(results, depth, b, norm)| * 1000, TotalTokens(results[..depth]));
    RatioIsShare(RelevantTokens(results[..depth], b, norm), TotalTokens(results[..depth]));
  }
}
