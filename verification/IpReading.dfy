/** The parser gives every IPv6 text the value it denotes. */
module IpReading {
  import opened Wrappers
  import opened Text
  import opened Numerals
  import opened IpSyntax
  import opened IpAddress

  // ---------- Case does not matter ----------

  function LowerText(t: Ip6Text): Ip6Text {
    match t
    case Whole(parts) => Whole(LowerAll(parts))
    case Elided(left, right) => Elided(LowerAll(left), LowerAll(right))
  }

  lemma LowerRender(t: Ip6Text)
    ensures Lower(t.Render()) == LowerText(t).Render()
  {
    hide Lower, Join, LowerAll;
    match t
    case Whole(parts) => LowerJoin(parts, ':');
    case Elided(left, right) =>
      LowerJoin(left, ':');
      LowerJoin(right, ':');
      LowerAround(Join(left, ':'), Join(right, ':'));
  }

  lemma LowerAround(a: string, b: string)
    ensures Lower(a + "::" + b) == Lower(a) + "::" + Lower(b)
  {
  }

  lemma {:induction false} LowerHex(s: string)
    requires AllHex(s)
    ensures AllHex(Lower(s)) && Numeral(Lower(s), 16) == Numeral(s, 16)
  {
    if s != "" {
      var front, last := s[..|s| - 1], s[|s| - 1];
      LowerHex(front);
      LowerDigit(last);
      hide IsHexDigit, DigitValue, LowerChar, Extend;
      assert Lower(s) == Lower(front) + [LowerChar(last)];
      assert Lower(s)[..|s| - 1] == Lower(front);
    }
  }

  lemma LowerDigit(c: char)
    requires IsHexDigit(c)
    ensures IsHexDigit(LowerChar(c)) && DigitValue(LowerChar(c)) == DigitValue(c)
  {
  }

  lemma DottedIsLower(s: string)
    requires IsIp4(s)
    ensures Lower(s) == s
  {
    JoinOfSplit(s, '.');
    JoinIsLower(Split(s, '.'), '.');
  }

  lemma {:induction false} JoinIsLower(parts: seq<string>, sep: char)
    requires forall i :: 0 <= i < |parts| ==> AllDigits(parts[i])
    requires LowerChar(sep) == sep
    ensures Lower(Join(parts, sep)) == Join(parts, sep)
  {
    LowerJoin(parts, sep);
    forall i | 0 <= i < |parts| ensures Lower(parts[i]) == parts[i] {
    }
    assert LowerAll(parts) == parts;
  }

  lemma HexIsNotDotted(s: string)
    requires AllHex(s)
    ensures !IsIp4(s)
  {
    SplitFirst(s, "", '.');
  }

  lemma LowerHexGroups(parts: seq<string>)
    requires AreHexGroups(parts)
    ensures AreHexGroups(LowerAll(parts)) && HexWords(LowerAll(parts)) == HexWords(parts)
  {
    forall i | 0 <= i < |parts| ensures IsHexGroup(Lower(parts[i])) && HexWord(Lower(parts[i])) == HexWord(parts[i]) {
      LowerHex(parts[i]);
    }
  }

  lemma LowerParts(parts: seq<string>)
    requires AreParts(parts)
    ensures AreParts(LowerAll(parts)) && Weight(LowerAll(parts)) == Weight(parts)
    ensures WordsOf(LowerAll(parts)) == WordsOf(parts)
  {
    hide IsIp4, HexWords, Dotted, IsHexGroup;
    var low, last := LowerAll(parts), |parts| - 1;
    if EndsDotted(parts) {
      DottedIsLower(parts[last]);
      assert low[..last] == LowerAll(parts[..last]);
      LowerHexGroups(parts[..last]);
    } else {
      LowerHexGroups(parts);
      if parts != [] {
        GroupIsNotDotted(low[last]);
      }
    }
  }

  lemma GroupIsNotDotted(s: string)
    requires IsHexGroup(s)
    ensures !IsIp4(s)
  {
    HexIsNotDotted(s);
  }

  lemma LowerTextDenotesTheSame(t: Ip6Text)
    requires t.Valid()
    ensures LowerText(t).Valid() && Denotation(LowerText(t)) == Denotation(t)
  {
    hide AreParts, AreHexGroups, Weight, WordsOf, HexWords, Fold;
    match t
    case Whole(parts) => LowerParts(parts);
    case Elided(left, right) =>
      LowerHexGroups(left);
      LowerParts(right);
  }

  // ---------- A dotted tail becomes two groups ----------

  function Hexed(parts: seq<string>): seq<string> {
    if EndsDotted(parts) then
      var value := Dotted(parts[|parts| - 1]);
      parts[..|parts| - 1] + [HighGroup(value), LowGroup(value)]
    else parts
  }

  function HexedText(t: Ip6Text): Ip6Text {
    match t
    case Whole(parts) => Whole(Hexed(parts))
    case Elided(left, right) => Elided(left, Hexed(right))
  }

  lemma PrintedGroup(n: nat)
    requires n < TWO_16
    ensures IsHexGroup(Print(n, 16)) && HexWord(Print(n, 16)) == n
  {
    PrintIsShort(n);
    NumeralOfPrint(n, 16);
  }

  lemma PrintedHalves(value: nat)
    requires value < TWO_32
    ensures IsHexGroup(HighGroup(value)) && HexWord(HighGroup(value)) == value / TWO_16
    ensures IsHexGroup(LowGroup(value)) && HexWord(LowGroup(value)) == value % TWO_16
  {
    var high, low := value / TWO_16 % TWO_16, value % TWO_16;
    assert high == value / TWO_16;
    hide HexWord, Print, IsHexGroup;
    PrintedGroup(high);
    PrintedGroup(low);
  }

  lemma HexedParts(parts: seq<string>)
    requires AreParts(parts)
    ensures AreHexGroups(Hexed(parts)) && |Hexed(parts)| == Weight(parts)
    ensures HexWords(Hexed(parts)) == WordsOf(parts)
    ensures !EndsDotted(Hexed(parts))
  {
    hide IsIp4, IsHexGroup, Dotted, HighGroup, LowGroup, HexWord;
    var hexed := Hexed(parts);
    if EndsDotted(parts) {
      var value := Dotted(parts[|parts| - 1]);
      DottedPrintsItself(parts[|parts| - 1]);
      PrintedHalves(value);
      assert HexWords([HighGroup(value), LowGroup(value)]) == [value / TWO_16, value % TWO_16];
      HexWordsConcat(parts[..|parts| - 1], [HighGroup(value), LowGroup(value)]);
    }
    if hexed != [] {
      GroupIsNotDotted(hexed[|hexed| - 1]);
    }
  }

  predicate EndsInColon(s: string) { s != "" && s[|s| - 1] == ':' }

  /** What stands before the last part. */
  function Before(front: seq<string>): (prefix: string)
    ensures front != [] ==> EndsInColon(prefix)
  {
    if front == [] then "" else Join(front, ':') + ":"
  }

  lemma JoinLast(front: seq<string>, last: string, extra: string)
    ensures Join(front + [last], ':') == Before(front) + last
    ensures Join(front + [last, extra], ':') == Before(front) + (last + ":" + extra)
  {
    assert Join([last, extra], ':') == last + ":" + extra;
    if front != [] {
      JoinAppend(front, [last], ':');
      JoinAppend(front, [last, extra], ':');
    } else {
      assert front + [last] == [last] && front + [last, extra] == [last, extra];
    }
  }

  lemma DottedDigitsLackColon(s: string)
    requires IsDottedDigits(s)
    ensures Lacks(s, ':')
  {
    JoinOfSplit(s, '.');
    JoinLacks(Split(s, '.'), '.', ':');
  }

  /** After a colon the dotted tail is the leftmost suffix of dotted digits. */
  lemma {:induction false} EmbeddedAfterColon(prefix: string, tail: string, at: nat)
    requires EndsInColon(prefix) && IsDottedDigits(tail) && at <= |prefix|
    ensures Embedded(prefix + tail, at) == Some(|prefix|)
    decreases |prefix| - at
  {
    hide IsDottedDigits;
    var s := prefix + tail;
    if at == |prefix| {
      assert s[at..] == tail;
    } else {
      assert s[at..][|prefix| - 1 - at] == ':';
      if IsDottedDigits(s[at..]) {
        DottedDigitsLackColon(s[at..]);
        assert false;
      }
      EmbeddedAfterColon(prefix, tail, at + 1);
    }
  }

  lemma {:induction false} NothingEmbedded(s: string, at: nat)
    requires Lacks(s, '.') && at <= |s|
    ensures Embedded(s, at) == None
    decreases |s| - at
  {
    SplitFirst(s[at..], "", '.');
    if at < |s| {
      NothingEmbedded(s, at + 1);
    }
  }

  lemma DotsReplaced(prefix: string, tail: string)
    requires EndsInColon(prefix) && IsIp4(tail)
    ensures WithoutDots(prefix + tail) == Some(prefix + TwoGroups(Dotted(tail)))
  {
    var s := prefix + tail;
    assert IsDottedDigits(tail);
    DottedPrintsItself(tail);
    hide IsDottedDigits, IsIp4, Dotted, Embedded, TwoGroups, Canonical;
    assert Canonical(V4, Dotted(tail)).value == Dotted(tail) by { CanonicalValue(V4, Dotted(tail)); }
    EmbeddedAfterColon(prefix, tail, 0);
    assert s[|prefix|..] == tail && s[..|prefix|] == prefix;
  }

  lemma CanonicalValue(family: Family, value: nat)
    ensures Canonical(family, value).value == value && Canonical(family, value).family == family
  {
  }

  lemma Associative(a: string, b: string, c: string)
    ensures a + (b + c) == (a + b) + c
  {
  }

  /** The parts that end a text, after `outer`. */
  lemma DotsOfParts(outer: string, parts: seq<string>)
    requires AreParts(parts) && EndsDotted(parts)
    requires |parts| > 1 || EndsInColon(outer)
    ensures WithoutDots(outer + Join(parts, ':')) == Some(outer + Join(Hexed(parts), ':'))
  {
    hide IsIp4, AreHexGroups, Dotted, Join, WithoutDots, TwoGroups, Hexed;
    var front, last := parts[..|parts| - 1], parts[|parts| - 1];
    DottedJoins(parts);
    assert EndsInColon(outer + Before(front)) by { PrefixEndsInColon(outer, front); }
    hide Before;
    Associative(outer, Before(front), last);
    Associative(outer, Before(front), TwoGroups(Dotted(last)));
    DotsReplaced(outer + Before(front), last);
  }

  lemma PrefixEndsInColon(outer: string, front: seq<string>)
    requires front != [] || EndsInColon(outer)
    ensures EndsInColon(outer + Before(front))
  {
    if front == [] {
      assert outer + Before(front) == outer;
    }
  }

  lemma DottedJoins(parts: seq<string>)
    requires EndsDotted(parts)
    ensures var front, last := parts[..|parts| - 1], parts[|parts| - 1];
      && Join(parts, ':') == Before(front) + last
      && Join(Hexed(parts), ':') == Before(front) + TwoGroups(Dotted(last))
  {
    hide IsIp4, Dotted, Join, Before, HighGroup, LowGroup;
    var front, last := parts[..|parts| - 1], parts[|parts| - 1];
    assert parts == front + [last];
    JoinLast(front, last, "");
    JoinLast(front, HighGroup(Dotted(last)), LowGroup(Dotted(last)));
  }

  lemma DotsOfRender(t: Ip6Text)
    requires t.Valid()
    ensures WithoutDots(t.Render()) == Some(HexedText(t).Render())
  {
    hide IsIp4, AreHexGroups, Join, WithoutDots, Hexed;
    var parts := if t.Whole? then t.parts else t.right;
    if EndsDotted(parts) {
      if t.Whole? {
        Unprefixed(Join(parts, ':'));
        Unprefixed(Join(Hexed(parts), ':'));
        DotsOfParts("", parts);
      } else {
        DotsOfParts(Join(t.left, ':') + "::", parts);
      }
    } else {
      assert Hexed(parts) == parts by { NothingToHex(parts); }
      GroupsLackDots(parts);
      if t.Elided? {
        GroupsLackDots(t.left);
      }
      DotFreeIsKept(t.Render());
    }
  }

  lemma GroupsLackDots(parts: seq<string>)
    requires AreHexGroups(parts)
    ensures Lacks(Join(parts, ':'), '.')
  {
    JoinLacks(parts, ':', '.');
  }

  lemma NothingToHex(parts: seq<string>)
    requires !EndsDotted(parts)
    ensures Hexed(parts) == parts
  {
  }

  lemma Unprefixed(s: string)
    ensures "" + s == s
  {
  }

  lemma DotFreeIsKept(s: string)
    requires Lacks(s, '.')
    ensures WithoutDots(s) == Some(s)
  {
    NothingEmbedded(s, 0);
  }

  lemma HexedTextDenotesTheSame(t: Ip6Text)
    requires t.Valid()
    ensures HexedText(t).Valid() && Denotation(HexedText(t)) == Denotation(t)
    ensures !EndsDotted(if t.Whole? then HexedText(t).parts else HexedText(t).right)
  {
    hide HexWords, Fold;
    var parts := if t.Whole? then t.parts else t.right;
    HexedParts(parts);
  }

  // ---------- Reading groups ----------

  lemma ZerosAreZero(count: int)
    ensures HexWords(Zeros(count)) == seq(Max(0, count), i => 0)
  {
    hide HexWord;
    ZeroWord();
  }

  lemma ZeroWord()
    ensures HexWord("0") == 0
  {
    PrintedGroup(0);
    assert Print(0, 16) == "0";
  }

  lemma HexWordsConcat(a: seq<string>, b: seq<string>)
    ensures HexWords(a + b) == HexWords(a) + HexWords(b)
  {
  }

  /** The groups around a double colon are filled up to eight. */
  lemma ExpandReads(t: Ip6Text)
    requires t.Valid() && !EndsDotted(if t.Whole? then t.parts else t.right)
    ensures |Expand(t.Render())| == 8 && AreHexGroups(Expand(t.Render()))
    ensures Fold(HexWords(Expand(t.Render())), TWO_16) == Denotation(t)
  {
    hide Halves, PartsOf, Join, Fold, HexWords, Zeros, IsHexGroup, IsIp4;
    HalvesOfRender(t);
    if t.Elided? {
      ZerosBetween(t.left, t.right);
    }
  }

  /** Fewer than eight groups are filled up with zeros. */
  lemma ZerosBetween(left: seq<string>, right: seq<string>)
    requires AreHexGroups(left) && AreHexGroups(right) && |left| + |right| <= 8
    ensures var count := 8 - |left| - |right|;
      var groups := left + Zeros(count) + right;
      && |groups| == 8 && AreHexGroups(groups)
      && HexWords(groups) == HexWords(left) + seq(Max(0, count), i => 0) + HexWords(right)
  {
    hide HexWords;
    var zeros := Zeros(8 - |left| - |right|);
    ZerosAreZero(8 - |left| - |right|);
    HexWordsConcat(left, zeros);
    HexWordsConcat(left + zeros, right);
  }

  lemma FoldedIsCanonical(groups: seq<string>)
    requires |groups| == 8 && AreHexGroups(groups)
    ensures Canonical(V6, Fold(HexWords(groups), TWO_16)).normalized == Join(PrintAll(HexWords(groups), 16), ':')
    ensures Fold(HexWords(groups), TWO_16) < Pow(TWO_16, 8)
  {
    hide Fold, Groups, Join, Pow;
    GroupsOfFold(HexWords(groups), TWO_16);
  }

  /** Every text of the grammar is read as the address it denotes, whatever zone follows it. */
  lemma Ipv6Reads(t: Ip6Text, input: string)
    requires t.Valid() && WithoutZone(input) == t.Render()
    ensures Ipv6(input) == Some(Identified(Denotation(t))) && Denotation(t) < Pow(TWO_16, 8)
  {
    var low := LowerText(t);
    var hexed := HexedText(low);
    hide Denotation, IsIp6, WithoutDots, Expand, Fold, HexWords, PrintAll, Join, Pow, Groups, EndsDotted;
    GrammarIsAccepted(t);
    LowerRender(t);
    LowerTextDenotesTheSame(t);
    DotsOfRender(low);
    HexedTextDenotesTheSame(low);
    ExpandReads(hexed);
    FoldedIsCanonical(Expand(hexed.Render()));
  }
}
