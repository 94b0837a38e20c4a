/** Splitting an event stream at blank lines, all at once or chunk by chunk. */
module SseSplitting {

  /** How many characters a separator (two line ends, each `\n` or `\r\n`) takes at `i`; zero if none starts there. */
  function SeparatorAt(s: string, i: nat): (n: nat)
    requires i <= |s|
    ensures i + n <= |s| && (n > 0 ==> 2 <= n <= 4)
  {
    var j := if i < |s| && s[i] == '\r' then i + 1 else i;
    if j < |s| && s[j] == '\n' then
      var k := if j + 1 < |s| && s[j + 1] == '\r' then j + 2 else j + 1;
      if k < |s| && s[k] == '\n' then k + 1 - i else 0
    else 0
  }

  /** The separators: two line ends, each with or without a carriage return. */
  const SEPARATORS: set<string> := {"\n\n", "\r\n\n", "\n\r\n", "\r\n\r\n"}

  /** Exactly these four texts are separators, and a carriage return in front belongs to one. */
  lemma SeparatorExactly(s: string, i: nat, n: nat)
    requires i + n <= |s|
    ensures s[i..i + n] in SEPARATORS <==> n > 0 && SeparatorAt(s, i) == n
  {
    var piece := s[i..i + n];
    assert forall j :: 0 <= j < n ==> piece[j] == s[i + j];
    if n == 2 {
      assert piece == [s[i], s[i + 1]];
    } else if n == 3 {
      assert piece == [s[i], s[i + 1], s[i + 2]];
    } else if n == 4 {
      assert piece == [s[i], s[i + 1], s[i + 2], s[i + 3]];
    }
  }

  /** The first position, from `i` on, where a separator starts, or the length. */
  function FirstSeparator(s: string, i: nat): (k: nat)
    requires i <= |s|
    ensures i <= k <= |s| && (k < |s| ==> SeparatorAt(s, k) > 0)
    ensures forall j :: i <= j < k ==> SeparatorAt(s, j) == 0
    decreases |s| - i
  {
    if i == |s| || SeparatorAt(s, i) > 0 then i else FirstSeparator(s, i + 1)
  }

  /** The pieces between separators; always at least one. */
  function Pieces(s: string): (pieces: seq<string>)
    ensures |pieces| >= 1
    decreases |s|
  {
    var k := FirstSeparator(s, 0);
    if k == |s| then [s] else [s[..k]] + Pieces(s[k + SeparatorAt(s, k)..])
  }

  /** All pieces but the last are complete blocks. */
  function Blocks(s: string): seq<string> {
    var pieces := Pieces(s);
    pieces[..|pieces| - 1]
  }

  /** The last piece waits for more text. */
  function Rest(s: string): string {
    var pieces := Pieces(s);
    pieces[|pieces| - 1]
  }

  function Concat(chunks: seq<string>): string {
    if chunks == [] then "" else Concat(chunks[..|chunks| - 1]) + chunks[|chunks| - 1]
  }

  // ---------- More text does not change what was split ----------

  lemma SeparatorStays(b: string, c: string, i: nat)
    requires i <= |b| && SeparatorAt(b, i) > 0
    ensures SeparatorAt(b + c, i) == SeparatorAt(b, i)
  {
  }

  /** A new separator that needs the added text cannot start before a separator of the old text. */
  lemma NoEarlierSeparator(b: string, c: string, i: nat, k: nat)
    requires i < k < |b| && SeparatorAt(b, i) == 0 && SeparatorAt(b, k) > 0
    ensures SeparatorAt(b + c, i) == 0
  {
    var s := b + c;
    assert forall j :: 0 <= j < |b| ==> s[j] == b[j];
    SeparatorStays(b, c, k);
  }

  lemma FirstSeparatorStays(b: string, c: string)
    requires FirstSeparator(b, 0) < |b|
    ensures FirstSeparator(b + c, 0) == FirstSeparator(b, 0)
  {
    var k := FirstSeparator(b, 0);
    forall i | 0 <= i < k ensures SeparatorAt(b + c, i) == 0 {
      NoEarlierSeparator(b, c, i, k);
    }
    SeparatorStays(b, c, k);
  }

  /** Blocks already split stay; only what waited is joined with the new text. */
  lemma {:induction false} PiecesOfMore(b: string, c: string)
    ensures Pieces(b + c) == Blocks(b) + Pieces(Rest(b) + c)
    decreases |b|
  {
    hide FirstSeparator, SeparatorAt;
    var k := FirstSeparator(b, 0);
    if k == |b| {
      assert Blocks(b) == [] && Rest(b) == b;
    } else {
      var tail := b[k + SeparatorAt(b, k)..];
      FirstSeparatorStays(b, c);
      SeparatorStays(b, c, k);
      assert (b + c)[..k] == b[..k];
      assert (b + c)[k + SeparatorAt(b, k)..] == tail + c;
      PiecesOfMore(tail, c);
      assert Blocks(b) == [b[..k]] + Blocks(tail) && Rest(b) == Rest(tail);
    }
  }

  lemma BlocksOfMore(b: string, c: string)
    ensures Blocks(b + c) == Blocks(b) + Blocks(Rest(b) + c)
    ensures Rest(b + c) == Rest(Rest(b) + c)
  {
    hide Pieces;
    PiecesOfMore(b, c);
    var more := Pieces(Rest(b) + c);
    assert more == more[..|more| - 1] + [more[|more| - 1]];
  }

  // ---------- Chunk by chunk ----------

  /** The buffer loop: what has been split off and what waits after all chunks. */
  function Fed(chunks: seq<string>): (seq<string>, string) {
    if chunks == [] then ([], "")
    else
      var (blocks, buffer) := Fed(chunks[..|chunks| - 1]);
      var text := buffer + chunks[|chunks| - 1];
      (blocks + Blocks(text), Rest(text))
  }

  /** However the text is cut, the blocks are those of the whole text. */
  lemma {:induction false} ChunksDoNotMatter(chunks: seq<string>)
    ensures Fed(chunks) == (Blocks(Concat(chunks)), Rest(Concat(chunks)))
  {
    if chunks == [] {
      assert Pieces("") == [""];
    } else {
      hide Blocks, Rest;
      ChunksDoNotMatter(chunks[..|chunks| - 1]);
      BlocksOfMore(Concat(chunks[..|chunks| - 1]), chunks[|chunks| - 1]);
    }
  }

  // ---------- Writing blocks ----------

  /** A text in which no separator starts, not even with a line end added at its end. */
  predicate IsBlock(s: string) {
    && (s != "" ==> s[|s| - 1] != '\n' && s[|s| - 1] != '\r')
    && forall i :: 0 <= i <= |s| ==> SeparatorAt(s, i) == 0
  }

  /** Before its separator a written block starts none. */
  lemma NoneInBlock(block: string, separator: string, more: string, i: nat)
    requires IsBlock(block) && i < |block|
    requires separator != "" && (separator[0] == '\n' || separator[0] == '\r')
    ensures SeparatorAt(block + separator + more, i) == 0
  {
    var s := block + separator + more;
    assert s[i] == block[i] && (i + 1 < |block| ==> s[i + 1] == block[i + 1]);
    assert i + 2 < |block| ==> s[i + 2] == block[i + 2];
    assert i + 3 < |block| ==> s[i + 3] == block[i + 3];
    assert SeparatorAt(block, i) == 0;
  }

  lemma FirstOfWritten(block: string, separator: string, more: string)
    requires IsBlock(block) && separator in SEPARATORS
    ensures FirstSeparator(block + separator + more, 0) == |block|
    ensures SeparatorAt(block + separator + more, |block|) == |separator|
  {
    hide IsBlock, SeparatorAt;
    var s := block + separator + more;
    assert s[|block|..|block| + |separator|] == separator;
    SeparatorExactly(s, |block|, |separator|);
    forall i | 0 <= i < |block| ensures SeparatorAt(s, i) == 0 {
      NoneInBlock(block, separator, more, i);
    }
  }

  lemma Around(a: string, b: string, c: string)
    ensures (a + b + c)[..|a|] == a && (a + b + c)[|a| + |b|..] == c
  {
  }

  /** Each block with its separator after it. */
  function Written(blocks: seq<string>, separators: seq<string>): string
    requires |blocks| == |separators|
  {
    if blocks == [] then "" else blocks[0] + separators[0] + Written(blocks[1..], separators[1..])
  }

  /** Splitting undoes writing blocks with any separators after them. */
  lemma {:induction false} BlocksOfWritten(blocks: seq<string>, separators: seq<string>)
    requires |blocks| == |separators|
    requires forall i :: 0 <= i < |blocks| ==> IsBlock(blocks[i]) && separators[i] in SEPARATORS
    ensures Pieces(Written(blocks, separators)) == blocks + [""]
  {
    hide Pieces, IsBlock;
    if blocks == [] {
      NoText();
    } else {
      FirstPiece(blocks[0], separators[0], Written(blocks[1..], separators[1..]));
      BlocksOfWritten(blocks[1..], separators[1..]);
    }
  }

  lemma NoText()
    ensures Pieces("") == [""]
  {
  }

  lemma FirstPiece(block: string, separator: string, more: string)
    requires IsBlock(block) && separator in SEPARATORS
    ensures Pieces(block + separator + more) == [block] + Pieces(more)
  {
    hide IsBlock, FirstSeparator, SeparatorAt;
    FirstOfWritten(block, separator, more);
    Around(block, separator, more);
  }
}
