/** Quality of a retrieval ranking against a benchmark case. */
module RankingMetrics {
  import opened Wrappers
  import opened DiscountedGain

  datatype Benchmark = Benchmark(files: seq<string>, symbols: seq<string>, chunks: seq<string>, excluded: seq<string>)

  datatype Retrieved = Retrieved(
    filePath: string, symbol: string, chunkId: Option<string>, startLine: string, endLine: string, content: string)

  datatype Quality = Quality(
    recall: real, precision: real, mrr: real, ndcg: real, fileRecall: real, symbolRecall: real,
    duplicateRate: real, fileDiversity: real, tokenEfficiency: real, relevantTokens: real)

  /** The ratio of two counts, zero for an empty whole. */
  function Ratio(part: nat, whole: nat): (r: real)
    ensures r >= 0.0 && (r > 0.0 <==> part > 0 && whole > 0)
    ensures part <= whole ==> r <= 1.0
    ensures whole > 0 ==> (r == 1.0 <==> part == whole)
  {
    if whole > 0 then
      RatioInRange(part as real, whole as real);
      part as real / whole as real
    else 0.0
  }

  lemma RatioInRange(a: real, b: real)
    requires a >= 0.0 && b > 0.0
    ensures a / b >= 0.0 && (a / b > 0.0 <==> a > 0.0)
    ensures a <= b <==> a / b <= 1.0
    ensures a == b <==> a / b == 1.0
  {
    var q := a / b;
    assert q * b == a;
    assert (q - 1.0) * b == a - b;
    if q > 1.0 {
      assert (q - 1.0) * b > 0.0;
    } else if q < 1.0 {
      assert (q - 1.0) * b < 0.0;
    }
  }

  // ---------- Relevance; `norm` is the trimmed, lower-case form ----------

  function HasChunk(r: Retrieved): bool { r.chunkId.Some? && r.chunkId.value != "" }

  function ExpectedSymbols(b: Benchmark, norm: string -> string): set<string> { set s | s in b.symbols :: norm(s) }

  function RelevanceGain(r: Retrieved, b: Benchmark, norm: string -> string): nat {
    if HasChunk(r) && r.chunkId.value in b.chunks then 3
    else if r.symbol != "" && norm(r.symbol) in ExpectedSymbols(b, norm) then 2
    else if r.filePath in b.files then 1
    else 0
  }

  function UniverseSize(b: Benchmark): nat {
    if |b.chunks| > 0 then |b.chunks| else if |b.symbols| > 0 then |b.symbols| else |b.files|
  }

  /** What a result is relevant as; empty if it is not. */
  function Identity(r: Retrieved, b: Benchmark, norm: string -> string): string {
    if r.filePath in b.excluded then ""
    else if |b.chunks| > 0 then
      if HasChunk(r) && r.chunkId.value in b.chunks then "chunk:" + r.chunkId.value else ""
    else if |b.symbols| > 0 then
      var symbol := if r.symbol != "" then norm(r.symbol) else "";
      if symbol != "" && symbol in ExpectedSymbols(b, norm) then "symbol:" + symbol else ""
    else if r.filePath in b.files then "file:" + r.filePath
    else ""
  }

  predicate IsRelevant(r: Retrieved, b: Benchmark, norm: string -> string) {
    if r.filePath in b.excluded then false
    else if |b.chunks| > 0 then HasChunk(r) && r.chunkId.value in b.chunks
    else if |b.symbols| > 0 then r.symbol != "" && norm(r.symbol) in ExpectedSymbols(b, norm)
    else r.filePath in b.files
  }

  /** What the schema demands: at least one file, and expected texts that are not blank. */
  predicate IsValid(b: Benchmark, norm: string -> string) {
    b.files != [] && forall s :: s in b.symbols ==> norm(s) != ""
  }

  // ---------- The definitions ----------

  function Ranked(results: seq<Retrieved>, cutoff: nat): (r: seq<Retrieved>)
    ensures |r| == Min(cutoff, |results|)
  {
    if cutoff <= |results| then results[..cutoff] else results
  }

  /** The identities among the first results. */
  function Identities(ranked: seq<Retrieved>, b: Benchmark, norm: string -> string): set<string> {
    if ranked == [] then {}
    else
      var identity := Identity(ranked[|ranked| - 1], b, norm);
      Identities(ranked[..|ranked| - 1], b, norm) + if identity == "" then {} else {identity}
  }

  /** Which results are relevant as something no earlier one was. */
  function Fresh(ranked: seq<Retrieved>, b: Benchmark, norm: string -> string): (marks: seq<bool>)
    ensures |marks| == |ranked|
  {
    if ranked == [] then []
    else
      var front, identity := ranked[..|ranked| - 1], Identity(ranked[|ranked| - 1], b, norm);
      Fresh(front, b, norm) + [identity != "" && identity !in Identities(front, b, norm)]
  }

  function RelevantCount(ranked: seq<Retrieved>, b: Benchmark, norm: string -> string): (n: nat)
    ensures n <= |ranked|
  {
    if ranked == [] then 0
    else
      RelevantCount(ranked[..|ranked| - 1], b, norm) + if IsRelevant(ranked[|ranked| - 1], b, norm) then 1 else 0
  }

  /** The position of the first relevant result, or the length. */
  function FirstRelevant(ranked: seq<Retrieved>, b: Benchmark, norm: string -> string): (k: nat)
    ensures k <= |ranked| && (k < |ranked| ==> IsRelevant(ranked[k], b, norm))
    ensures forall i :: 0 <= i < k ==> !IsRelevant(ranked[i], b, norm)
  {
    if ranked == [] || IsRelevant(ranked[0], b, norm) then 0 else 1 + FirstRelevant(ranked[1..], b, norm)
  }

  /** The gain of each result; only the first of an identity gains. */
  function Gains(ranked: seq<Retrieved>, b: Benchmark, norm: string -> string): (gains: seq<nat>)
    ensures |gains| == |ranked|
  {
    var marks := Fresh(ranked, b, norm);
    seq(|ranked|, i requires 0 <= i < |ranked| => if marks[i] then RelevanceGain(ranked[i], b, norm) else 0)
  }

  /** The gain of every result the benchmark expects. */
  function UnitGain(b: Benchmark): nat { if |b.chunks| > 0 then 3 else if |b.symbols| > 0 then 2 else 1 }

  function IdealGains(b: Benchmark, cutoff: nat): (gains: seq<nat>)
    ensures |gains| == Min(UniverseSize(b), cutoff) && forall i :: 0 <= i < |gains| ==> gains[i] == UnitGain(b)
  {
    seq(Min(UniverseSize(b), cutoff), i => UnitGain(b))
  }

  function Ndcg(gains: seq<nat>, ideal: seq<nat>, d: nat -> real): real {
    if Gain(ideal, d) > 0.0 then Gain(gains, d) / Gain(ideal, d) else 0.0
  }

  function Tokens(content: string): nat { if |content| == 0 then 1 else (|content| + 3) / 4 }

  function TotalTokens(ranked: seq<Retrieved>): nat {
    if ranked == [] then 0 else TotalTokens(ranked[..|ranked| - 1]) + Tokens(ranked[|ranked| - 1].content)
  }

  function RelevantTokens(ranked: seq<Retrieved>, b: Benchmark, norm: string -> string): (n: nat)
    ensures n <= TotalTokens(ranked)
  {
    if ranked == [] then 0
    else
      var last := ranked[|ranked| - 1];
      RelevantTokens(ranked[..|ranked| - 1], b, norm) + if IsRelevant(last, b, norm) then Tokens(last.content) else 0
  }

  function DuplicateKey(r: Retrieved): string {
    if r.chunkId.Some? then r.chunkId.value else r.filePath + "\0" + r.startLine + "\0" + r.endLine
  }

  function Keys(ranked: seq<Retrieved>): set<string> { set r | r in ranked :: DuplicateKey(r) }

  function Files(ranked: seq<Retrieved>): set<string> { set r | r in ranked :: r.filePath }

  function Symbols(ranked: seq<Retrieved>, norm: string -> string): set<string> {
    set r | r in ranked && r.symbol != "" :: norm(r.symbol)
  }

  /** All scores of a ranking, by definition. `d` is the discount of a position. */
  function QualityOf(b: Benchmark, results: seq<Retrieved>, k: int, norm: string -> string, d: nat -> real): Quality {
    var cutoff := Max(1, k);
    var ranked := Ranked(results, cutoff);
    var first := FirstRelevant(ranked, b, norm);
    var expectedFiles, expectedSymbols := (set f | f in b.files), ExpectedSymbols(b, norm);
    Quality(
      recall := Ratio(|Identities(ranked, b, norm)|, UniverseSize(b)),
      precision := Ratio(RelevantCount(ranked, b, norm), cutoff),
      mrr := if first < |ranked| then Ratio(1, first + 1) else 0.0,
      ndcg := Ndcg(Gains(ranked, b, norm), IdealGains(b, cutoff), d),
      fileRecall := Ratio(|Files(ranked) * expectedFiles|, |expectedFiles|),
      symbolRecall :=
        if |expectedSymbols| > 0 then Ratio(|Symbols(ranked, norm) * expectedSymbols|, |expectedSymbols|) else 1.0,
      duplicateRate := Ratio(DuplicateCount(ranked), |ranked|),
      fileDiversity := Ratio(|Files(ranked)|, |ranked|),
      tokenEfficiency := Ratio(RelevantCount(ranked, b, norm) * 1000, TotalTokens(ranked)),
      relevantTokens := Ratio(RelevantTokens(ranked, b, norm), TotalTokens(ranked)))
  }

  function DuplicateCount(ranked: seq<Retrieved>): (n: nat)
    ensures n <= |ranked|
  {
    KeysAreFew(ranked);
    |ranked| - |Keys(ranked)|
  }

  lemma KeysAreFew(ranked: seq<Retrieved>)
    ensures |Keys(ranked)| <= |ranked| && |Files(ranked)| <= |ranked|
  {
    ImageSize(ranked, DuplicateKey);
    ImageSize(ranked, (r: Retrieved) => r.filePath);
    assert Keys(ranked) == Image(ranked, DuplicateKey);
    assert Files(ranked) == Image(ranked, (r: Retrieved) => r.filePath);
  }

  /** The values of `f` on a list. */
  function Image<T(==)>(items: seq<T>, f: T -> string): set<string> { set x | x in items :: f(x) }

  lemma {:induction false} ImageSize<T>(items: seq<T>, f: T -> string)
    ensures |Image(items, f)| <= |items|
  {
    if items != [] {
      var last := |items| - 1;
      ImageSize(items[..last], f);
      assert Image(items, f) == Image(items[..last], f) + {f(items[last])};
    }
  }

  /** The gains, with the identities already seen kept in a set. */
  method ComputeGains(ranked: seq<Retrieved>, b: Benchmark, norm: string -> string) returns (gains: seq<nat>)
    ensures gains == Gains(ranked, b, norm)
  {
    hide Identity, RelevanceGain;
    gains := [];
    var seenRelevance := {};
    for i := 0 to |ranked|
      invariant gains == Gains(ranked[..i], b, norm)
      invariant seenRelevance == Identities(ranked[..i], b, norm)
    {
      assert ranked[..i + 1][..i] == ranked[..i];
      var identity := Identity(ranked[i], b, norm);
      if identity == "" || identity in seenRelevance {
        gains := gains + [0];
      } else {
        seenRelevance := seenRelevance + {identity};
        gains := gains + [RelevanceGain(ranked[i], b, norm)];
      }
    }
    assert ranked[..|ranked|] == ranked;
  }
}
