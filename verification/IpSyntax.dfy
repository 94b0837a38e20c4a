/**
 The text forms of addresses (sections 2.2 and 2.5.5.2 of RFC 4291): which texts
 the runtime's address test accepts, as a recogniser and as a grammar.
 */
module IpSyntax {
  import opened Text
  import opened Numerals

  /** A decimal number up to 255 without leading zeros. */
  predicate IsOctet(s: string) {
    1 <= |s| <= 3 && AllDigits(s) && (|s| > 1 ==> s[0] != '0') && Numeral(s, 10) <= 255
  }

  predicate AreOctets(parts: seq<string>) { forall i :: 0 <= i < |parts| ==> IsOctet(parts[i]) }

  predicate IsIp4(s: string) { |Split(s, '.')| == 4 && AreOctets(Split(s, '.')) }

  /** One group of an IPv6 address. */
  predicate IsHexGroup(s: string) { 1 <= |s| <= 4 && AllHex(s) }

  predicate AreHexGroups(parts: seq<string>) { forall i :: 0 <= i < |parts| ==> IsHexGroup(parts[i]) }

  /** Ends in a dotted IPv4 address, which stands for two groups. */
  predicate EndsDotted(parts: seq<string>) { parts != [] && IsIp4(parts[|parts| - 1]) }

  /** Hex groups, of which the last may be a dotted IPv4 address instead. */
  predicate AreParts(parts: seq<string>) {
    if EndsDotted(parts) then AreHexGroups(parts[..|parts| - 1]) else AreHexGroups(parts)
  }

  function Weight(parts: seq<string>): nat { |parts| + if EndsDotted(parts) then 1 else 0 }

  /** The first position of a double colon, or the length. */
  function FindDouble(s: string): (k: nat)
    ensures k <= |s| && (k < |s| ==> k + 2 <= |s| && s[k] == ':' && s[k + 1] == ':')
    ensures forall i :: 0 <= i < k && i + 1 < |s| ==> !(s[i] == ':' && s[i + 1] == ':')
    decreases |s|
  {
    if |s| < 2 then |s|
    else if s[0] == ':' && s[1] == ':' then 0
    else
      var k := FindDouble(s[1..]);
      1 + k
  }

  /** The pieces between double colons. */
  function Halves(s: string): (halves: seq<string>)
    ensures |halves| >= 1
    decreases |s|
  {
    var k := FindDouble(s);
    if k == |s| then [s] else [s[..k]] + Halves(s[k + 2..])
  }

  /** The parts of one half; an empty half has none. */
  function PartsOf(half: string): seq<string> { if half == "" then [] else Split(half, ':') }

  /** The recogniser: eight groups, or fewer with one double colon standing for the rest. */
  predicate IsIp6(s: string) {
    var halves := Halves(s);
    if |halves| == 1 then
      AreParts(PartsOf(halves[0])) && Weight(PartsOf(halves[0])) == 8
    else
      && |halves| == 2
      && AreHexGroups(PartsOf(halves[0])) && AreParts(PartsOf(halves[1]))
      && |PartsOf(halves[0])| + Weight(PartsOf(halves[1])) <= 7
  }

  // ---------- The grammar ----------

  /** How an IPv6 address is written. */
  datatype Ip6Text = Whole(parts: seq<string>) | Elided(left: seq<string>, right: seq<string>)
  {
    predicate Valid() {
      match this
      case Whole(parts) => AreParts(parts) && Weight(parts) == 8
      case Elided(left, right) => AreHexGroups(left) && AreParts(right) && |left| + Weight(right) <= 7
    }

    function Render(): string {
      match this
      case Whole(parts) => Join(parts, ':')
      case Elided(left, right) => Join(left, ':') + "::" + Join(right, ':')
    }
  }

  /** No colon at either end and no two in a row. */
  predicate SingleColons(s: string) {
    && (s != "" ==> s[0] != ':' && s[|s| - 1] != ':')
    && forall i :: 0 <= i < |s| - 1 ==> !(s[i] == ':' && s[i + 1] == ':')
  }

  ghost predicate ArePieces(parts: seq<string>) {
    AllLack(parts, ':') && forall i :: 0 <= i < |parts| ==> parts[i] != ""
  }

  lemma DottedLacksColon(s: string)
    requires IsIp4(s)
    ensures Lacks(s, ':') && s != ""
  {
    var parts := Split(s, '.');
    JoinOfSplit(s, '.');
    JoinLacks(parts, '.', ':');
    SplitFirst("", "", '.');
  }

  lemma {:induction false} JoinLacks(parts: seq<string>, sep: char, c: char)
    requires sep != c && AllLack(parts, c)
    ensures Lacks(Join(parts, sep), c)
  {
    if |parts| > 1 {
      JoinLacks(parts[1..], sep, c);
    }
  }

  lemma PartsArePieces(parts: seq<string>)
    requires AreParts(parts)
    ensures ArePieces(parts)
  {
    if EndsDotted(parts) {
      DottedLacksColon(parts[|parts| - 1]);
    }
  }

  lemma {:induction false} PiecesHaveSingleColons(parts: seq<string>)
    requires ArePieces(parts)
    ensures SingleColons(Join(parts, ':')) && (parts != [] ==> Join(parts, ':') != "")
  {
    if |parts| > 1 {
      PiecesHaveSingleColons(parts[1..]);
    }
  }

  lemma PartsOfJoin(parts: seq<string>)
    requires ArePieces(parts)
    ensures PartsOf(Join(parts, ':')) == parts
  {
    PiecesHaveSingleColons(parts);
    if parts != [] {
      SplitOfJoin(parts, ':');
    }
  }

  lemma HalvesOfSingle(s: string)
    requires SingleColons(s)
    ensures Halves(s) == [s]
  {
  }

  lemma HalvesOfElided(left: string, right: string)
    requires SingleColons(left) && SingleColons(right)
    ensures Halves(left + "::" + right) == [left, right]
  {
    var s := left + "::" + right;
    var k := FindDouble(s);
    assert s[|left|] == ':' && s[|left| + 1] == ':';
    assert forall i :: 0 <= i < |left| ==> s[i] == left[i];
    assert k == |left|;
    assert s[..k] == left && s[k + 2..] == right;
    HalvesOfSingle(right);
  }

  /** The halves of a rendered address are the two sides it was rendered from. */
  lemma HalvesOfRender(t: Ip6Text)
    requires t.Valid()
    ensures t.Whole? ==> Halves(t.Render()) == [t.Render()] && PartsOf(t.Render()) == t.parts
    ensures t.Elided? ==>
      && Halves(t.Render()) == [Join(t.left, ':'), Join(t.right, ':')]
      && PartsOf(Join(t.left, ':')) == t.left && PartsOf(Join(t.right, ':')) == t.right
  {
    match t
    case Whole(parts) =>
      PartsArePieces(parts);
      PiecesHaveSingleColons(parts);
      PartsOfJoin(parts);
      HalvesOfSingle(t.Render());
    case Elided(left, right) =>
      PartsArePieces(right);
      PiecesHaveSingleColons(left);
      PiecesHaveSingleColons(right);
      PartsOfJoin(left);
      PartsOfJoin(right);
      HalvesOfElided(Join(left, ':'), Join(right, ':'));
  }

  /** The recogniser accepts every text of the grammar. */
  lemma GrammarIsAccepted(t: Ip6Text)
    requires t.Valid()
    ensures IsIp6(t.Render())
  {
    HalvesOfRender(t);
  }

  /** The reading of a text: how it is written, if it is an address. */
  function Reading(s: string): Ip6Text {
    var halves := Halves(s);
    if |halves| == 2 then Elided(PartsOf(halves[0]), PartsOf(halves[1])) else Whole(PartsOf(halves[0]))
  }

  /** The recogniser accepts only texts of the grammar, and each has one reading. */
  lemma AcceptedIsGrammar(s: string)
    requires IsIp6(s)
    ensures Reading(s).Valid() && Reading(s).Render() == s
  {
    hide Halves, Split, AreParts, AreHexGroups, Weight;
    var halves := Halves(s);
    HalvesJoin(s);
    JoinOfSplit(halves[0], ':');
    if |halves| == 2 {
      JoinOfSplit(halves[1], ':');
    }
  }

  lemma HalvesJoin(s: string)
    ensures |Halves(s)| == 1 ==> s == Halves(s)[0]
    ensures |Halves(s)| == 2 ==> s == Halves(s)[0] + "::" + Halves(s)[1]
  {
    var k := FindDouble(s);
    if k < |s| {
      assert s == s[..k] + "::" + s[k + 2..];
      HalvesJoin(s[k + 2..]);
    }
  }

  lemma ReadingOfRender(t: Ip6Text)
    requires t.Valid()
    ensures Reading(t.Render()) == t
  {
    HalvesOfRender(t);
  }
}
