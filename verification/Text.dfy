/** Splitting and joining text at a separator character. */
module Text {

  /** No occurrence of `c`. */
  predicate Lacks(s: string, c: char) {
    forall i :: 0 <= i < |s| ==> s[i] != c
  }

  /** The first position of `c`, or the length. */
  function Find(s: string, c: char): (k: nat)
    ensures k <= |s| && (k < |s| ==> s[k] == c)
    ensures forall i :: 0 <= i < k ==> s[i] != c
    decreases |s|
  {
    if s == "" || s[0] == c then 0 else 1 + Find(s[1..], c)
  }

  /** The pieces between separators; always at least one. */
  function Split(s: string, c: char): (parts: seq<string>)
    ensures |parts| >= 1
    decreases |s|
  {
    var k := Find(s, c);
    if k == |s| then [s] else [s[..k]] + Split(s[k + 1..], c)
  }

  function Join(parts: seq<string>, c: char): string {
    if |parts| == 0 then ""
    else if |parts| == 1 then parts[0]
    else parts[0] + [c] + Join(parts[1..], c)
  }

  ghost predicate AllLack(parts: seq<string>, c: char) {
    forall i :: 0 <= i < |parts| ==> Lacks(parts[i], c)
  }

  lemma SplitFirst(first: string, rest: string, c: char)
    requires Lacks(first, c)
    ensures Split(first, c) == [first]
    ensures Split(first + [c] + rest, c) == [first] + Split(rest, c)
  {
    var s := first + [c] + rest;
    assert s[|first|] == c;
    assert Find(s, c) == |first|;
    assert s[..|first|] == first && s[|first| + 1..] == rest;
  }

  /** Splitting undoes joining. */
  lemma {:induction false} SplitOfJoin(parts: seq<string>, c: char)
    requires |parts| >= 1 && AllLack(parts, c)
    ensures Split(Join(parts, c), c) == parts
  {
    assert Lacks(parts[0], c);
    SplitFirst(parts[0], Join(parts[1..], c), c);
    if |parts| > 1 {
      SplitOfJoin(parts[1..], c);
    }
  }

  /** Joining undoes splitting. */
  lemma {:induction false} JoinOfSplit(s: string, c: char)
    ensures Join(Split(s, c), c) == s && AllLack(Split(s, c), c)
    decreases |s|
  {
    hide Find;
    var k := Find(s, c);
    if k < |s| {
      var rest := s[k + 1..];
      JoinOfSplit(rest, c);
      assert s == s[..k] + [c] + rest;
      assert Split(s, c) == [s[..k]] + Split(rest, c);
      assert Split(s, c)[1..] == Split(rest, c);
      hide Split;
    }
  }

  /** A separator splits a text into the pieces on its two sides. */
  lemma {:induction false} SplitOfSum(a: string, b: string, c: char)
    ensures Split(a + [c] + b, c) == Split(a, c) + Split(b, c)
    decreases |a|
  {
    hide Split, Find;
    var k := Find(a, c);
    if k == |a| {
      SplitFirst(a, b, c);
    } else {
      var first, rest := a[..k], a[k + 1..];
      assert a == first + [c] + rest;
      assert a + [c] + b == first + [c] + (rest + [c] + b);
      SplitFirst(first, rest, c);
      SplitFirst(first, rest + [c] + b, c);
      SplitOfSum(rest, b, c);
    }
  }

  lemma {:induction false} JoinAppend(a: seq<string>, b: seq<string>, c: char)
    requires |a| >= 1 && |b| >= 1
    ensures Join(a + b, c) == Join(a, c) + [c] + Join(b, c)
  {
    if |a| == 1 {
      assert (a + b)[1..] == b;
    } else {
      assert (a + b)[1..] == a[1..] + b;
      JoinAppend(a[1..], b, c);
    }
  }

  // ---------- Case ----------

  function LowerChar(c: char): char {
    if 'A' <= c <= 'Z' then 'a' + (c - 'A') else c
  }

  function Lower(s: string): (r: string)
    ensures |r| == |s| && forall i :: 0 <= i < |s| ==> r[i] == LowerChar(s[i])
  {
    if s == "" then "" else Lower(s[..|s| - 1]) + [LowerChar(s[|s| - 1])]
  }

  function LowerAll(parts: seq<string>): (r: seq<string>)
    ensures |r| == |parts| && forall i :: 0 <= i < |parts| ==> r[i] == Lower(parts[i])
  {
    seq(|parts|, i requires 0 <= i < |parts| => Lower(parts[i]))
  }

  lemma {:induction false} LowerJoin(parts: seq<string>, c: char)
    requires LowerChar(c) == c
    ensures Lower(Join(parts, c)) == Join(LowerAll(parts), c)
  {
    if |parts| > 1 {
      LowerJoin(parts[1..], c);
      assert LowerAll(parts)[1..] == LowerAll(parts[1..]);
      LowerAcross(parts[0], c, Join(parts[1..], c));
      hide Lower;
    }
  }

  lemma LowerAcross(a: string, c: char, b: string)
    requires LowerChar(c) == c
    ensures Lower(a + [c] + b) == Lower(a) + [c] + Lower(b)
  {
  }

  // ---------- White space ----------

  /** The white space and line terminators of ECMAScript. */
  predicate IsSpace(c: char) {
    || c in "\t\n\r \U{B}\U{C}\U{A0}\U{1680}\U{2028}\U{2029}\U{202F}\U{205F}\U{3000}\U{FEFF}"
    || '\U{2000}' <= c <= '\U{200A}'
  }

  function Trim(s: string): string
    decreases |s|
  {
    if s != "" && IsSpace(s[0]) then Trim(s[1..])
    else if s != "" && IsSpace(s[|s| - 1]) then Trim(s[..|s| - 1])
    else s
  }
}
