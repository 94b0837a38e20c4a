/** Normalised addresses are canonical: one text for each address, read back as itself. */
module IpRoundTrip {
  import opened Wrappers
  import opened Text
  import opened Numerals
  import opened IpSyntax
  import opened IpAddress
  import opened IpReading

  // ---------- Printed forms are read back ----------

  predicate IsAddressChar(c: char) { IsHexDigit(c) || c == '.' || c == ':' }

  predicate AddressChars(s: string) { forall i :: 0 <= i < |s| ==> IsAddressChar(s[i]) }

  lemma {:induction false} JoinAddressChars(parts: seq<string>, sep: char)
    requires IsAddressChar(sep) && forall i :: 0 <= i < |parts| ==> AddressChars(parts[i])
    ensures AddressChars(Join(parts, sep))
  {
    hide IsHexDigit, IsAddressChar;
    if |parts| > 1 {
      JoinAddressChars(parts[1..], sep);
    }
  }

  lemma PrintedChars(address: Address)
    requires address == Canonical(address.family, address.value)
    ensures AddressChars(address.normalized) && address.normalized != ""
  {
    var base, sep := if address.family.V4? then 10 else 16, if address.family.V4? then '.' else ':';
    var groups := if address.family.V4? then Groups(address.value, 4, 256) else Groups(address.value, 8, TWO_16);
    var parts := PrintAll(groups, base);
    assert address.normalized == Join(parts, sep);
    assert parts[0] != "" && |parts| > 1;
    hide IsHexDigit, Groups, PrintAll;
    JoinAddressChars(parts, sep);
  }

  lemma PrintedV6IsRead(value: nat)
    requires InFamily(V6, value)
    ensures !IsIp4(Canonical(V6, value).normalized)
    ensures Ipv6(Canonical(V6, value).normalized) == Some(Canonical(V6, value))
  {
    hide Fold, Groups, Join, Pow, Ipv6, IsIp4;
    var words := Groups(value, 8, TWO_16);
    var t := Whole(PrintAll(words, 16));
    forall i | 0 <= i < 8 ensures IsHexGroup(t.parts[i]) && HexWord(t.parts[i]) == words[i] {
      PrintedGroup(words[i]);
    }
    GroupIsNotDotted(t.parts[7]);
    assert HexWords(t.parts) == words;
    FoldOfGroups(value, 8, TWO_16);
    assert t.Valid() && Denotation(t) == value;
    var s := t.Render();
    assert s == Canonical(V6, value).normalized;
    NoZone(Canonical(V6, value));
    Ipv6Reads(t, s);
    ColonsAreNotDotted(t.parts);
  }

  lemma NoZone(address: Address)
    requires address == Canonical(address.family, address.value)
    ensures WithoutZone(address.normalized) == address.normalized
  {
    hide Canonical;
    PrintedChars(address);
  }

  lemma ColonsAreNotDotted(parts: seq<string>)
    requires |parts| > 1
    ensures !IsIp4(Join(parts, ':'))
  {
    var s := Join(parts, ':');
    assert s[|parts[0]|] == ':';
    if IsIp4(s) {
      DottedLacksColon(s);
    }
  }

  /** Every address is read back from its printed form. */
  lemma CanonicalIsRead(family: Family, value: nat)
    requires InFamily(family, value)
    ensures ReadAddress(Canonical(family, value).normalized) == Some(Canonical(family, value))
  {
    hide Canonical, Ipv4, Ipv6, IsIp4, Pow;
    if family.V4? {
      PrintedV4IsRead(value);
    } else {
      PrintedV6IsRead(value);
      NotDottedIsNotRead(Canonical(V6, value).normalized);
    }
  }

  lemma NotDottedIsNotRead(s: string)
    ensures Ipv4(s).Some? <==> IsIp4(s)
  {
  }

  /** What is read is always a canonical address of its family. */
  lemma ReadIsCanonical(s: string)
    requires ReadAddress(s).Some?
    ensures var a := ReadAddress(s).value; a == Canonical(a.family, a.value) && InFamily(a.family, a.value)
  {
    hide Ipv6, Pow, Canonical, Dotted;
    if IsIp4(s) {
      DottedPrintsItself(s);
      CanonicalValue(V4, Dotted(s));
    } else {
      NotDottedIsNotRead(s);
      AcceptedIpv6(s);
      var t := Reading(WithoutZone(s));
      AcceptedIsGrammar(WithoutZone(s));
      Ipv6Reads(t, s);
      var v := Denotation(t);
      CanonicalValue(V4, v % TWO_32);
      CanonicalValue(V6, v);
    }
  }

  lemma AcceptedIpv6(s: string)
    ensures Ipv6(s).Some? ==> IsIp6(WithoutZone(s))
  {
  }

  // ---------- The whole normaliser ----------

  /** The printed form has no space, bracket or zone to strip. */
  lemma CandidateOfPrinted(address: Address)
    requires address == Canonical(address.family, address.value)
    ensures Candidate(address.normalized) == address.normalized
  {
    hide Canonical;
    PrintedChars(address);
    var s := address.normalized;
    assert IsAddressChar(s[0]) && IsAddressChar(s[|s| - 1]);
    AddressCharsStay(s[0]);
    AddressCharsStay(s[|s| - 1]);
    hide IsSpace, IsAddressChar, Find;
  }

  lemma AddressCharsStay(c: char)
    requires IsAddressChar(c)
    ensures !IsSpace(c) && c != '['
  {
  }

  /** Reading the normalised text again gives the address that was read first. */
  lemma ParseReadsOnce(input: string)
    ensures Parse(input) == ReadAddress(Candidate(input))
    ensures Parse(input).Some? ==>
      var a := Parse(input).value; a == Canonical(a.family, a.value) && InFamily(a.family, a.value)
  {
    hide Ipv4, Ipv6, ReadAddress, Candidate, Canonical, InFamily;
    if ReadAddress(Candidate(input)).Some? {
      ReadIsCanonical(Candidate(input));
      var a := ReadAddress(Candidate(input)).value;
      CanonicalIsRead(a.family, a.value);
    }
  }

  /** Normalising is idempotent. */
  lemma NormalizeIsIdempotent(input: string)
    ensures Normalize(input).Some? ==>
      Normalize(Normalize(input).value) == Normalize(input) && Parse(Normalize(input).value) == Parse(input)
  {
    hide Ipv4, Ipv6, ReadAddress, Candidate, Canonical, InFamily;
    ParseReadsOnce(input);
    if Normalize(input).Some? {
      var a := Parse(input).value;
      CandidateOfPrinted(a);
      CanonicalIsRead(a.family, a.value);
    }
  }

  /** Two accepted texts normalise to the same text exactly when they denote the same address. */
  lemma NormalizeDecidesEquality(a: string, b: string)
    ensures Parse(a).Some? && Parse(b).Some? ==>
      (Normalize(a) == Normalize(b) <==>
       Parse(a).value.family == Parse(b).value.family && Parse(a).value.value == Parse(b).value.value)
    ensures Parse(a).Some? <==> Normalize(a).Some?
  {
    hide Ipv4, Ipv6, ReadAddress, Candidate, Canonical, InFamily;
    ParseReadsOnce(a);
    ParseReadsOnce(b);
  }

  /** The mapped form of an IPv4 address, whole or dotted, is that IPv4 address. */
  lemma MappedIsIpv4(value: nat, t: Ip6Text, input: string)
    requires t.Valid() && WithoutZone(input) == t.Render()
    ensures value < TWO_32 && Denotation(t) == 0xffff * TWO_32 + value ==> Ipv6(input) == Some(Canonical(V4, value))
  {
    hide Ipv6, Denotation, Canonical, Pow;
    Ipv6Reads(t, input);
  }

  // ---------- What surrounds an address ----------

  predicate AllSpace(s: string) { forall i :: 0 <= i < |s| ==> IsSpace(s[i]) }

  /** A text that does not begin or end with space. */
  predicate IsCore(s: string) { s != "" && !IsSpace(s[0]) && !IsSpace(s[|s| - 1]) }

  /** Trimming takes off exactly the space around a text. */
  lemma {:induction false} TrimExactly(before: string, core: string, after: string)
    requires AllSpace(before) && IsCore(core) && AllSpace(after)
    ensures Trim(before + core + after) == core
    decreases |before| + |after|
  {
    hide IsSpace;
    var s := before + core + after;
    if before != "" {
      assert s[1..] == before[1..] + core + after;
      TrimExactly(before[1..], core, after);
    } else if after != "" {
      assert s[0] == core[0];
      assert s[..|s| - 1] == before + core + after[..|after| - 1];
      TrimExactly(before, core, after[..|after| - 1]);
    } else {
      assert s == core;
    }
  }

  /** Brackets are opened, and what follows the closing one is dropped; any other text is taken as it stands. */
  lemma CandidateExactly(before: string, core: string, after: string, inner: string, tail: string)
    requires AllSpace(before) && IsCore(core) && AllSpace(after)
    ensures core == "[" + inner + "]" + tail && Lacks(inner, ']') ==> Candidate(before + core + after) == inner
    ensures core[0] != '[' || Lacks(core, ']') ==> Candidate(before + core + after) == core
  {
    TrimExactly(before, core, after);
    hide Trim, IsSpace;
    var close := Find(core, ']');
    if core == "[" + inner + "]" + tail && Lacks(inner, ']') {
      assert core[0] == '[' && core[|inner| + 1] == ']' && core[1..|inner| + 1] == inner;
      assert forall i :: 0 <= i < |inner| + 1 ==> core[i] != ']';
      assert close == |inner| + 1;
    }
  }

  /** A zone after an IPv6 text is ignored. */
  lemma ZoneIsIgnored(t: Ip6Text, zone: string)
    requires t.Valid()
    ensures Ipv6(t.Render() + "%" + zone) == Ipv6(t.Render()) == Some(Identified(Denotation(t)))
  {
    var s := t.Render();
    RenderLacksZone(t);
    assert WithoutZone(s) == s;
    assert (s + "%" + zone)[|s|] == '%';
    assert WithoutZone(s + "%" + zone) == s;
    hide Ipv6, WithoutZone, Denotation, Identified;
    Ipv6Reads(t, s);
    Ipv6Reads(t, s + "%" + zone);
  }

  lemma RenderLacksZone(t: Ip6Text)
    requires t.Valid()
    ensures Lacks(t.Render(), '%')
  {
    match t
    case Whole(parts) => PartsLackZone(parts);
    case Elided(left, right) =>
      PartsLackZone(right);
      JoinLacks(left, ':', '%');
  }

  lemma PartsLackZone(parts: seq<string>)
    requires AreParts(parts)
    ensures Lacks(Join(parts, ':'), '%')
  {
    if EndsDotted(parts) {
      DottedLacksZone(parts[|parts| - 1]);
    }
    hide Split, IsIp4;
    JoinLacks(parts, ':', '%');
  }

  lemma DottedLacksZone(s: string)
    requires IsIp4(s)
    ensures Lacks(s, '%')
  {
    JoinOfSplit(s, '.');
    JoinLacks(Split(s, '.'), '.', '%');
  }

  // ---------- Where the groups stand ----------

  /** A number that is followed by so many groups. */
  function Followed(value: nat, groups: nat): nat { value * Pow(TWO_16, groups) }

  /** The groups before a double colon are the first of eight, those after it the last. */
  lemma ElidedExactly(left: seq<string>, right: seq<string>)
    requires Elided(left, right).Valid()
    ensures Denotation(Elided(left, right))
         == Followed(Fold(HexWords(left), TWO_16), 8 - |left|) + Fold(WordsOf(right), TWO_16)
  {
    HexedParts(right);
    assert |WordsOf(right)| == Weight(right);
    hide Fold, HexWords, WordsOf, Weight, Followed, AreParts, AreHexGroups;
    ZerosBetweenWords(HexWords(left), 8 - |left| - Weight(right), WordsOf(right));
  }

  lemma ZerosBetweenWords(front: seq<nat>, count: nat, back: seq<nat>)
    ensures Fold(front + seq(count, i => 0) + back, TWO_16)
         == Followed(Fold(front, TWO_16), count + |back|) + Fold(back, TWO_16)
  {
    hide Fold, Pow;
    var zeros := seq(count, i => 0);
    FoldOfSum(front, zeros + back, TWO_16);
    FoldOfSum(zeros, back, TWO_16);
    FoldOfZeros(count, TWO_16);
    assert front + zeros + back == front + (zeros + back);
  }

  /** A dotted tail counts as the last thirty-two bits. */
  lemma DottedTailExactly(front: seq<string>, last: string)
    requires IsIp4(last)
    ensures Fold(WordsOf(front + [last]), TWO_16) == Fold(HexWords(front), TWO_16) * TWO_32 + Dotted(last)
    ensures |Split(last, '.')| == 4
    ensures var o := OctetValues(Split(last, '.'));
      Dotted(last) == 0x100_0000 * o[0] + 0x1_0000 * o[1] + 0x100 * o[2] + o[3]
  {
    var value := Dotted(last);
    FourOctets(OctetValues(Split(last, '.')));
    hide Dotted, IsIp4, OctetValues;
    assert (front + [last])[..|front|] == front;
    FoldOfSum(HexWords(front), [value / TWO_16, value % TWO_16], TWO_16);
    assert Pow(TWO_16, 2) == TWO_32;
    TwoWords(value);
  }

  lemma TwoWords(value: nat)
    ensures Fold([value / TWO_16, value % TWO_16], TWO_16) == value
  {
    var words := [value / TWO_16, value % TWO_16];
    assert words[..1] == [words[0]] && words[..1][..0] == [];
    assert Fold(words[..1], TWO_16) == words[0];
  }

  lemma FourOctets(o: seq<nat>)
    requires |o| == 4
    ensures Fold(o, 256) == 0x100_0000 * o[0] + 0x1_0000 * o[1] + 0x100 * o[2] + o[3]
  {
    assert o[..3][..2] == o[..2] && o[..2][..1] == o[..1] && o[..1][..0] == [];
    assert Fold(o[..1], 256) == o[0];
    assert Fold(o[..2], 256) == 256 * o[0] + o[1];
    assert Fold(o[..3], 256) == 0x1_0000 * o[0] + 256 * o[1] + o[2];
  }
}
