/** Reading and printing addresses: the parser of the proxy middleware, against what its texts denote. */
module IpAddress {
  import opened Wrappers
  import opened Text
  import opened Numerals
  import opened IpSyntax

  datatype Family = V4 | V6

  datatype Address = Address(family: Family, value: nat, normalized: string)

  const TWO_16: nat := 0x1_0000
  const TWO_32: nat := 0x1_0000_0000

  /** The value of a group; a missing group counts as zero. Texts that are not hexadecimal never get here. */
  function HexWord(group: string): (w: nat)
    ensures IsHexGroup(group) ==> w < TWO_16
  {
    if AllHex(group) then
      NumeralInRangeIfShort(group);
      Numeral(group, 16)
    else 0
  }

  lemma NumeralInRangeIfShort(s: string)
    requires AllHex(s)
    ensures |s| <= 4 ==> Numeral(s, 16) < TWO_16
  {
    if |s| <= 4 {
      NumeralInRange(s, 16);
    }
  }

  function HexWords(groups: seq<string>): (words: seq<nat>)
    ensures |words| == |groups| && forall i :: 0 <= i < |groups| ==> words[i] == HexWord(groups[i])
  {
    seq(|groups|, i requires 0 <= i < |groups| => HexWord(groups[i]))
  }

  function OctetValue(s: string): (v: nat)
    ensures IsOctet(s) ==> v < 256
  {
    if AllDigits(s) then Numeral(s, 10) else 0
  }

  function OctetValues(parts: seq<string>): (octets: seq<nat>)
    ensures |octets| == |parts| && forall i :: 0 <= i < |parts| ==> octets[i] == OctetValue(parts[i])
  {
    seq(|parts|, i requires 0 <= i < |parts| => OctetValue(parts[i]))
  }

  function PrintAll(groups: seq<nat>, base: nat): (texts: seq<string>)
    requires 2 <= base <= 16
    ensures |texts| == |groups| && forall i :: 0 <= i < |groups| ==> texts[i] == Print(groups[i], base)
  {
    seq(|groups|, i requires 0 <= i < |groups| => Print(groups[i], base))
  }

  function Ipv4(s: string): Option<Address> {
    if !IsIp4(s) then None
    else
      var octets := OctetValues(Split(s, '.'));
      Some(Address(V4, Fold(octets, 256), Join(PrintAll(octets, 10), '.')))
  }

  /** Four non-empty runs of digits between dots. */
  predicate IsDottedDigits(s: string) {
    var parts := Split(s, '.');
    |parts| == 4 && forall i :: 0 <= i < 4 ==> parts[i] != "" && AllDigits(parts[i])
  }

  /** Where the leftmost suffix of dotted digits starts, from position `at` on. */
  function Embedded(s: string, at: nat): (start: Option<nat>)
    requires at <= |s|
    ensures start.Some? ==> start.value <= |s|
    decreases |s| - at
  {
    if IsDottedDigits(s[at..]) then Some(at) else if at == |s| then None else Embedded(s, at + 1)
  }

  function HighGroup(value: nat): string { Print(value / TWO_16 % TWO_16, 16) }

  function LowGroup(value: nat): string { Print(value % TWO_16, 16) }

  /** The upper and lower half of a 32-bit value, in hexadecimal. */
  function TwoGroups(value: nat): string { HighGroup(value) + ":" + LowGroup(value) }

  /** Four dotted numbers at the end become two groups. */
  function WithoutDots(source: string): Option<string> {
    match Embedded(source, 0)
    case None => Some(source)
    case Some(start) =>
      match Ipv4(source[start..])
      case None => None
      case Some(parsed) =>
        Some(source[..start] + TwoGroups(parsed.value))
  }

  function Zeros(count: int): (zeros: seq<string>)
    ensures |zeros| == Max(0, count) && forall i :: 0 <= i < |zeros| ==> zeros[i] == "0"
  {
    seq(Max(0, count), i => "0")
  }

  /** The groups of a text of colons and hex groups. More than eight around a double colon never get here. */
  function Expand(source: string): seq<string> {
    var halves := Halves(source);
    var left := PartsOf(halves[0]);
    if |halves| == 2 then
      var right := PartsOf(halves[1]);
      left + Zeros(8 - |left| - |right|) + right
    else left
  }

  function WithoutZone(s: string): string { s[..Find(s, '%')] }

  function Ipv6(input: string): Option<Address> {
    var withoutZone := WithoutZone(input);
    if !IsIp6(withoutZone) then None
    else
      match WithoutDots(Lower(withoutZone))
      case None => None
      case Some(source) =>
        var groups := Expand(source);
        if |groups| != 8 then None
        else
          var value := Fold(HexWords(groups), TWO_16);
          if value / TWO_32 == 0xffff then
            Some(Address(V4, value % TWO_32, Join(PrintAll(Groups(value % TWO_32, 4, 256), 10), '.')))
          else
            Some(Address(V6, value, Join(PrintAll(HexWords(groups), 16), ':')))
  }

  function ReadAddress(candidate: string): Option<Address> {
    if Ipv4(candidate).Some? then Ipv4(candidate) else Ipv6(candidate)
  }

  /** The text inside surrounding space and a bracket. */
  function Candidate(input: string): string {
    var trimmed := Trim(input);
    var close := Find(trimmed, ']');
    if trimmed != "" && trimmed[0] == '[' && close < |trimmed| then trimmed[1..close] else trimmed
  }

  /** `normalizeIpAddress`; the empty text stands for an absent one too. */
  function Normalize(input: string): Option<string> {
    match ReadAddress(Candidate(input))
    case None => None
    case Some(address) => Some(address.normalized)
  }

  /** `parseAddress`: normalises, then reads again. */
  function Parse(input: string): Option<Address> {
    match Normalize(input)
    case None => None
    case Some(normalized) => ReadAddress(normalized)
  }

  // ---------- What texts denote ----------

  /** The address with a family and value, with its one printed form. */
  function Canonical(family: Family, value: nat): Address {
    Address(family, value, match family
                           case V4 => Join(PrintAll(Groups(value, 4, 256), 10), '.')
                           case V6 => Join(PrintAll(Groups(value, 8, TWO_16), 16), ':'))
  }

  /** Values of the family; IPv4-mapped ones are not IPv6. */
  predicate InFamily(family: Family, value: nat) {
    match family
    case V4 => value < TWO_32
    case V6 => value < Pow(TWO_16, 8) && value / TWO_32 != 0xffff
  }

  function Dotted(s: string): nat { Fold(OctetValues(Split(s, '.')), 256) }

  /** The 16-bit words that parts stand for; a dotted part stands for two. */
  function WordsOf(parts: seq<string>): seq<nat> {
    if EndsDotted(parts) then
      var last := Dotted(parts[|parts| - 1]);
      HexWords(parts[..|parts| - 1]) + [last / TWO_16, last % TWO_16]
    else HexWords(parts)
  }

  /** The value a written IPv6 address denotes: the elided groups are zero. */
  function Denotation(t: Ip6Text): nat {
    match t
    case Whole(parts) => Fold(WordsOf(parts), TWO_16)
    case Elided(left, right) =>
      Fold(HexWords(left) + seq(Max(0, 8 - |left| - Weight(right)), i => 0) + WordsOf(right), TWO_16)
  }

  /** An IPv4-mapped value is an IPv4 address (section 2.5.5.2 of RFC 4291). */
  function Identified(value: nat): Address {
    if value / TWO_32 == 0xffff then Canonical(V4, value % TWO_32) else Canonical(V6, value)
  }

  // ---------- Dotted addresses ----------

  /** A dotted address is in range and prints as itself. */
  lemma DottedPrintsItself(s: string)
    requires IsIp4(s)
    ensures Dotted(s) < TWO_32 && Ipv4(s) == Some(Canonical(V4, Dotted(s)))
    ensures Canonical(V4, Dotted(s)).normalized == s
  {
    hide Fold, Groups, Join, Split, Numeral;
    var parts := Split(s, '.');
    var octets := OctetValues(parts);
    GroupsOfFold(octets, 256);
    assert Pow(256, 4) == TWO_32;
    forall i | 0 <= i < 4 ensures Print(octets[i], 10) == parts[i] {
      PrintOfNumeral(parts[i]);
    }
    assert PrintAll(octets, 10) == parts;
    JoinOfSplit(s, '.');
  }

  /** Every IPv4 value is read back from its printed form. */
  lemma PrintedV4IsRead(value: nat)
    requires value < TWO_32
    ensures var address := Canonical(V4, value); IsIp4(address.normalized) && Ipv4(address.normalized) == Some(address)
  {
    hide Fold, Groups, Join, Split, Numeral;
    var octets := Groups(value, 4, 256);
    var parts := PrintAll(octets, 10);
    forall i | 0 <= i < 4 ensures IsOctet(parts[i]) && OctetValue(parts[i]) == octets[i] && Lacks(parts[i], '.') {
      PrintIsShort(octets[i]);
      NumeralOfPrint(octets[i], 10);
    }
    SplitOfJoin(parts, '.');
    assert OctetValues(parts) == octets;
    assert Pow(256, 4) == TWO_32;
    FoldOfGroups(value, 4, 256);
  }
}
