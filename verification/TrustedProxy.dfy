/** Trusted ranges and the client address behind trusted proxies. */
module TrustedProxy {
  import opened Wrappers
  import opened Text
  import opened Numerals
  import opened IpAddress
  import opened IpReading
  import opened IpRoundTrip

  datatype Range = Range(family: Family, network: nat, prefix: nat)

  type Cidr = r: Range | r.prefix <= Bits(r.family) witness Range(V4, 0, 0)

  const LOOPBACK_VALUE: nat := 0x7f00_0001

  function Bits(family: Family): nat { if family.V4? then 32 else 128 }

  /** How many addresses share what is left of the last `free` bits. */
  function BlockSize(free: nat): (size: nat)
    ensures size > 0
  {
    PowIsPositive(2, free);
    Pow(2, free)
  }

  function Size(cidr: Cidr): (size: nat)
    ensures size > 0
  {
    BlockSize(Bits(cidr.family) - cidr.prefix)
  }

  /** The prefix of an IPv4 range may count the 96 bits before a mapped address written with colons. */
  function EffectivePrefix(address: Address, text: string, written: int): int {
    if address.family.V4? && ':' in text && written >= 96 then written - 96 else written
  }

  function RangeAround(address: Address, prefix: int): Option<Cidr> {
    var bits := Bits(address.family);
    if prefix < 0 || prefix > bits then None
    else
      var size := BlockSize(bits - prefix);
      Some(Range(address.family, address.value / size * size, prefix))
  }

  /** Reads a range. `number` is the conversion of text to a number, `None` when it gives no integer. */
  function ParseCidr(input: string, number: string -> Option<int>): Option<Cidr> {
    var parts := Split(Trim(input), '/');
    match Parse(parts[0])
    case None => None
    case Some(address) =>
      match if |parts| < 2 then Some(Bits(address.family)) else number(parts[1])
      case None => None
      case Some(written) => RangeAround(address, EffectivePrefix(address, parts[0], written))
  }

  /** A parsed range, or the first text that is none. */
  function ParseCidrs(inputs: seq<string>, number: string -> Option<int>): Result<seq<Cidr>, string> {
    if inputs == [] then Ok([])
    else
      match ParseCidr(inputs[0], number)
      case None => Err(inputs[0])
      case Some(cidr) =>
        match ParseCidrs(inputs[1..], number)
        case Err(invalid) => Err(invalid)
        case Ok(rest) => Ok([cidr] + rest)
  }

  predicate Contains(cidr: Cidr, address: Address) {
    cidr.family == address.family && address.value / Size(cidr) == cidr.network / Size(cidr)
  }

  predicate Trusted(trusted: seq<Cidr>, address: Address) {
    exists i :: 0 <= i < |trusted| && Contains(trusted[i], address)
  }

  // ---------- Ranges ----------

  /** A range holds exactly the addresses of its family from the network on, `2^(bits - prefix)` of them. */
  lemma ContainsIsInterval(cidr: Cidr, address: Address)
    requires cidr.network % Size(cidr) == 0
    ensures Size(cidr) == Pow(2, Bits(cidr.family) - cidr.prefix)
    ensures Contains(cidr, address) <==>
            cidr.family == address.family && cidr.network <= address.value < cidr.network + Size(cidr)
  {
    SameBlock(address.value, cidr.network, Size(cidr));
  }

  lemma SameBlock(value: nat, start: nat, size: nat)
    requires size > 0 && start % size == 0
    ensures value / size == start / size <==> start <= value < start + size
  {
    var k := start / size;
    assert start == Extend(k, 0, size);
    if start <= value < start + size {
      assert value == Extend(k, value - start, size);
      hide Quotient, Remainder, Extend;
      DivideBack(k, value - start, size);
      QuotientIsDivision(value, size);
    }
    if value / size == k {
      assert value == k * size + value % size;
    }
  }

  lemma QuotientIsDivision(n: nat, base: nat)
    requires base > 0
    ensures Quotient(n, base) == n / base
  {
  }

  /** A parsed range starts at a multiple of its size, is of the written address's family, and holds that address. */
  lemma ParsedRangeHoldsItsAddress(input: string, number: string -> Option<int>)
    ensures ParseCidr(input, number).Some? ==>
      var cidr, written := ParseCidr(input, number).value, Parse(Split(Trim(input), '/')[0]);
      cidr.network % Size(cidr) == 0 && written.Some? && Contains(cidr, written.value)
  {
    hide Parse, BlockSize;
    if ParseCidr(input, number).Some? {
      var cidr, address := ParseCidr(input, number).value, Parse(Split(Trim(input), '/')[0]).value;
      StartOfBlock(address.value, Size(cidr));
    }
  }

  /** The prefix a range is written with; without one it covers a single address. */
  function WrittenPrefix(input: string, single: int, number: string -> Option<int>): Option<int> {
    var parts := Split(Trim(input), '/');
    if |parts| < 2 then Some(single) else number(parts[1])
  }

  /**
   A text is a range exactly when it starts with an address and its prefix fits
   the address; of a prefix of at least 96 that follows an IPv4 address written
   with colons, 96 are taken off. It then has that prefix, and its network is the
   last multiple of its size up to the address.
   */
  lemma AcceptedRanges(input: string, number: string -> Option<int>)
    ensures var text := Split(Trim(input), '/')[0];
      match Parse(text)
      case None => ParseCidr(input, number) == None
      case Some(address) =>
        var bits := if address.family == V4 then 32 else 128;
        match WrittenPrefix(input, bits, number)
        case None => ParseCidr(input, number) == None
        case Some(written) =>
          var prefix := if address.family == V4 && ':' in text && written >= 96 then written - 96 else written;
          if 0 <= prefix <= bits then
            && ParseCidr(input, number).Some?
            && var cidr := ParseCidr(input, number).value;
            && cidr.family == address.family && cidr.prefix == prefix && Size(cidr) == Pow(2, bits - prefix)
            && cidr.network % Size(cidr) == 0 && cidr.network <= address.value < cidr.network + Size(cidr)
          else ParseCidr(input, number) == None
  {
    hide Parse, BlockSize, Split, Trim;
    ParsedRangeHoldsItsAddress(input, number);
    if ParseCidr(input, number).Some? {
      ContainsIsInterval(ParseCidr(input, number).value, Parse(Split(Trim(input), '/')[0]).value);
    }
  }

  /**
   Taking 96 off a prefix is right for a mapped address: two IPv4 addresses
   share the remaining bits exactly when their mapped forms share the written ones.
   */
  lemma MappedPrefix(a: nat, b: nat, written: nat)
    requires a < TWO_32 && b < TWO_32 && 96 <= written <= 128
    ensures a / BlockSize(32 - (written - 96)) == b / BlockSize(32 - (written - 96)) <==>
            (0xffff * TWO_32 + a) / BlockSize(128 - written) == (0xffff * TWO_32 + b) / BlockSize(128 - written)
  {
    hide BlockSize;
    var size := BlockSize(128 - written);
    var blocks := 0xffff * BlockSize(written - 96);
    PowSplits(128 - written, written - 96);
    BlockOf32();
    assert 0xffff * TWO_32 == blocks * size;
    AddBlocks(blocks, a, size);
    AddBlocks(blocks, b, size);
  }

  lemma {:induction false} PowSplits(i: nat, j: nat)
    ensures BlockSize(i + j) == BlockSize(j) * BlockSize(i)
    decreases j
  {
    if j > 0 {
      PowSplits(i, j - 1);
    }
  }

  lemma BlockOf32()
    ensures BlockSize(32) == TWO_32
  {
    PowSplits(4, 4);
    PowSplits(8, 8);
    PowSplits(16, 16);
    assert BlockSize(4) == 16 by {
      assert Pow(2, 1) == 2 && Pow(2, 2) == 4 && Pow(2, 3) == 8;
    }
  }

  /** Whole blocks in front move a value's block by their number. */
  lemma AddBlocks(blocks: nat, value: nat, size: nat)
    requires size > 0
    ensures (blocks * size + value) / size == blocks + value / size
  {
    var q, r := value / size, value % size;
    assert value == q * size + r;
    assert blocks * size + value == (blocks + q) * size + r;
    hide Quotient, Remainder;
    DivideBack(blocks + q, r, size);
    QuotientIsDivision(blocks * size + value, size);
  }

  lemma StartOfBlock(value: nat, size: nat)
    requires size > 0
    ensures value / size * size % size == 0 && value / size * size / size == value / size
  {
    DivideBack(value / size, 0, size);
    QuotientIsDivision(value / size * size, size);
  }

  /** Either every text is a range, in order, or the result is the first that is none. */
  lemma {:induction false} ParsedInOrder(inputs: seq<string>, number: string -> Option<int>)
    ensures match ParseCidrs(inputs, number)
      case Ok(ranges) =>
        |ranges| == |inputs| && forall i :: 0 <= i < |inputs| ==> ParseCidr(inputs[i], number) == Some(ranges[i])
      case Err(invalid) =>
        exists k :: 0 <= k < |inputs| && inputs[k] == invalid && ParseCidr(invalid, number) == None
                    && forall i :: 0 <= i < k ==> ParseCidr(inputs[i], number).Some?
  {
    hide ParseCidr;
    if inputs != [] && ParseCidr(inputs[0], number).Some? {
      ParsedInOrder(inputs[1..], number);
      if ParseCidrs(inputs, number).Err? {
        var invalid := ParseCidrs(inputs, number).error;
        var k :| 0 <= k < |inputs[1..]| && inputs[1..][k] == invalid
                 && forall i :: 0 <= i < k ==> ParseCidr(inputs[1..][i], number).Some?;
        assert inputs[k + 1] == invalid;
        forall i | 0 <= i < k + 1 ensures ParseCidr(inputs[i], number).Some? {
          assert i == 0 || inputs[i] == inputs[1..][i - 1];
        }
      }
    }
  }

  // ---------- The client ----------

  /** The remote address, or 127.0.0.1 when it is none. */
  function Peer(remote: Option<string>): Address {
    match Parse(if remote.Some? then remote.value else "")
    case Some(address) => address
    case None => Canonical(V4, LOOPBACK_VALUE)
  }

  /** The hops of a forwarded header, if all of them are addresses. */
  function Hops(pieces: seq<string>): Option<seq<Address>> {
    if pieces == [] then Some([])
    else
      var init := Hops(pieces[..|pieces| - 1]);
      var last := Parse(Trim(pieces[|pieces| - 1]));
      if init.Some? && last.Some? then Some(init.value + [last.value]) else None
  }

  /** The hop the scan from the right stops at: an untrusted one, or the first. */
  ghost predicate IsClient(chain: seq<Address>, trusted: seq<Cidr>, index: nat)
  {
    && index < |chain|
    && (forall j :: index < j < |chain| ==> Trusted(trusted, chain[j]))
    && (Trusted(trusted, chain[index]) ==> index == 0)
  }

  ghost predicate IsClientOf(chain: seq<Address>, trusted: seq<Cidr>, result: Result<string, string>) {
    exists i: nat :: IsClient(chain, trusted, i) && result == Ok(chain[i].normalized)
  }

  method FirstUntrusted(chain: seq<Address>, trusted: seq<Cidr>) returns (index: nat)
    requires chain != []
    ensures IsClient(chain, trusted, index)
  {
    hide Trusted;
    index := |chain|;
    while index > 0
      invariant index <= |chain|
      invariant forall j :: index <= j < |chain| ==> Trusted(trusted, chain[j])
    {
      index := index - 1;
      if !Trusted(trusted, chain[index]) {
        return;
      }
    }
  }

  /** What `resolveClientIp` must return: the address of the client by definition. */
  ghost predicate IsResolved(
    remote: Option<string>, header: Option<string>, cidrs: seq<string>, number: string -> Option<int>,
    result: Result<string, string>)
  {
    match ParseCidrs(cidrs, number)
    case Err(invalid) => result == Err(invalid)
    case Ok(trusted) =>
      var peer := Peer(remote);
      if !Trusted(trusted, peer) || header.None? || header.value == "" then result == Ok(peer.normalized)
      else
        match Hops(Split(header.value, ','))
        case None => result == Ok(peer.normalized)
        case Some(hops) => IsClientOf(hops + [peer], trusted, result)
  }

  method ResolveClientIp(
    remote: Option<string>, header: Option<string>, cidrs: seq<string>, number: string -> Option<int>)
    returns (result: Result<string, string>)
    ensures IsResolved(remote, header, cidrs, number, result)
  {
    hide Trusted, Peer, Hops, IsClient;
    var peer := Peer(remote);
    var parsed := ParseCidrs(cidrs, number);
    if parsed.Err? {
      return Err(parsed.error);
    }
    var trusted := parsed.value;
    if !Trusted(trusted, peer) || header.None? || header.value == "" {
      return Ok(peer.normalized);
    }
    var hops := Hops(Split(header.value, ','));
    if hops.None? {
      return Ok(peer.normalized);
    }
    var chain := hops.value + [peer];
    var index := FirstUntrusted(chain, trusted);
    assert index < |chain| by { ClientIsInChain(chain, trusted, index); }
    return Ok(chain[index].normalized);
  }

  lemma ClientIsInChain(chain: seq<Address>, trusted: seq<Cidr>, index: nat)
    requires IsClient(chain, trusted, index)
    ensures index < |chain|
  {
  }

  /** The client is unique, so the result is. */
  lemma ResultIsUnique(
    remote: Option<string>, header: Option<string>, cidrs: seq<string>, number: string -> Option<int>,
    a: Result<string, string>, b: Result<string, string>)
    ensures IsResolved(remote, header, cidrs, number, a) && IsResolved(remote, header, cidrs, number, b) ==> a == b
  {
    hide Trusted, Peer, Hops, IsClient, Split, ParseCidrs;
    if ParseCidrs(cidrs, number).Ok? && header.Some? && Hops(Split(header.value, ',')).Some? {
      ClientIsUnique(Hops(Split(header.value, ',')).value + [Peer(remote)], ParseCidrs(cidrs, number).value);
    }
  }

  lemma ClientIsUnique(chain: seq<Address>, trusted: seq<Cidr>)
    ensures forall i: nat, j: nat :: IsClient(chain, trusted, i) && IsClient(chain, trusted, j) ==> i == j
  {
    hide Trusted;
  }

  /** The header of an untrusted peer is ignored. */
  lemma UntrustedPeerIgnoresHeader(
    remote: Option<string>, header: Option<string>, other: Option<string>, cidrs: seq<string>,
    number: string -> Option<int>, result: Result<string, string>)
    ensures
      && ParseCidrs(cidrs, number).Ok? && !Trusted(ParseCidrs(cidrs, number).value, Peer(remote))
      && IsResolved(remote, header, cidrs, number, result) ==>
      result == Ok(Peer(remote).normalized) && IsResolved(remote, other, cidrs, number, result)
  {
    hide Trusted, Peer, Hops;
  }

  // ---------- What is left of the client does not matter ----------

  lemma {:induction false} HopsOfSum(a: seq<string>, b: seq<string>)
    requires Hops(a + b).Some?
    ensures Hops(a).Some? && Hops(b).Some? && Hops(a + b).value == Hops(a).value + Hops(b).value
    ensures |Hops(b).value| == |b|
  {
    hide Parse;
    if b == [] {
      assert a + b == a;
    } else {
      assert (a + b)[..|a + b| - 1] == a + b[..|b| - 1];
      HopsOfSum(a, b[..|b| - 1]);
    }
  }

  /** A header that ends in `rest`, with or without something left of it. */
  function Ending(left: Option<string>, rest: string): string {
    match left
    case None => rest
    case Some(text) => text + "," + rest
  }

  /** All hops of the header can be read, and one of those in `rest` is outside every range. */
  ghost predicate StopsInRest(left: Option<string>, rest: string, trusted: seq<Cidr>) {
    && Hops(Split(Ending(left, rest), ',')).Some? && Hops(Split(rest, ',')).Some?
    && exists i :: 0 <= i < |Hops(Split(rest, ',')).value| && !Trusted(trusted, Hops(Split(rest, ',')).value[i])
  }

  /** The hops of a readable header are those left of `rest`, if any, and those in it. */
  lemma HopsOfEnding(left: Option<string>, rest: string) returns (front: seq<Address>)
    requires Hops(Split(Ending(left, rest), ',')).Some?
    ensures Hops(Split(rest, ',')).Some?
    ensures Hops(Split(Ending(left, rest), ',')).value == front + Hops(Split(rest, ',')).value
    ensures Ending(left, rest) != ""
  {
    hide Hops, Split;
    match left
    case None =>
      front := [];
      if rest == "" {
        EmptyIsUnreadable();
      }
    case Some(text) =>
      SplitOfSum(text, rest, ',');
      HopsOfSum(Split(text, ','), Split(rest, ','));
      front := Hops(Split(text, ',')).value;
  }

  /** The empty text is one empty piece, which is no address. */
  lemma EmptyIsUnreadable()
    ensures Hops(Split("", ',')).None?
  {
    SplitFirst("", "", ',');
    EmptyIsNoAddress();
    hide Parse;
    assert Hops([""]).None?;
  }

  lemma EmptyIsNoAddress()
    ensures Parse("").None?
  {
    SplitFirst("", "", '.');
    assert Ipv4("").None? && Ipv6("").None?;
  }

  /**
   If some hop of `rest` is outside every trusted range, it does not matter
   whether anything stands left of `rest` in the header, nor what.
   */
  lemma LeftOfClientIsIrrelevant(
    remote: Option<string>, left: Option<string>, other: Option<string>, rest: string, cidrs: seq<string>,
    number: string -> Option<int>, result: Result<string, string>)
    ensures ParseCidrs(cidrs, number).Ok? ==>
      var trusted := ParseCidrs(cidrs, number).value;
      StopsInRest(left, rest, trusted) && StopsInRest(other, rest, trusted) ==>
      (IsResolved(remote, Some(Ending(left, rest)), cidrs, number, result) <==>
       IsResolved(remote, Some(Ending(other, rest)), cidrs, number, result))
  {
    if ParseCidrs(cidrs, number).Ok? {
      var trusted := ParseCidrs(cidrs, number).value;
      if StopsInRest(left, rest, trusted) && StopsInRest(other, rest, trusted) {
        hide IsResolved, ParseCidrs;
        LeftIsReplaced(remote, left, other, rest, cidrs, number, result);
        LeftIsReplaced(remote, other, left, rest, cidrs, number, result);
      }
    }
  }

  lemma LeftIsReplaced(
    remote: Option<string>, left: Option<string>, other: Option<string>, rest: string, cidrs: seq<string>,
    number: string -> Option<int>, result: Result<string, string>)
    requires ParseCidrs(cidrs, number).Ok?
    requires StopsInRest(left, rest, ParseCidrs(cidrs, number).value)
    requires StopsInRest(other, rest, ParseCidrs(cidrs, number).value)
    ensures IsResolved(remote, Some(Ending(left, rest)), cidrs, number, result) ==>
      IsResolved(remote, Some(Ending(other, rest)), cidrs, number, result)
  {
    hide Trusted, Peer, Hops, Split, ParseCidrs, Ending;
    var trusted := ParseCidrs(cidrs, number).value;
    var front := HopsOfEnding(left, rest);
    var otherFront := HopsOfEnding(other, rest);
    if IsResolved(remote, Some(Ending(left, rest)), cidrs, number, result) && Trusted(trusted, Peer(remote)) {
      ClientIsInRest(front, otherFront, Hops(Split(rest, ',')).value, Peer(remote), trusted, result);
    }
  }

  lemma ClientIsInRest(
    left: seq<Address>, other: seq<Address>, rest: seq<Address>, peer: Address, trusted: seq<Cidr>,
    result: Result<string, string>)
    requires exists i :: 0 <= i < |rest| && !Trusted(trusted, rest[i])
    requires IsClientOf(left + rest + [peer], trusted, result)
    ensures IsClientOf(other + rest + [peer], trusted, result)
  {
    hide Trusted;
    var chain, moved := left + rest + [peer], other + rest + [peer];
    var k :| 0 <= k < |rest| && !Trusted(trusted, rest[k]);
    var i: nat :| IsClient(chain, trusted, i) && result == Ok(chain[i].normalized);
    assert chain[|left| + k] == rest[k];
    assert i >= |left| + k;
    var j := i - |left| + |other|;
    forall m | j <= m < |moved| ensures moved[m] == chain[m - |other| + |left|] {
    }
    assert !Trusted(trusted, chain[i]);
    assert IsClient(moved, trusted, j);
  }

  /** The peer is always an address in canonical form, whatever the socket reports. */
  lemma PeerIsCanonical(remote: Option<string>)
    ensures var peer := Peer(remote); peer == Canonical(peer.family, peer.value) && InFamily(peer.family, peer.value)
    ensures Parse(Peer(remote).normalized) == Some(Peer(remote))
    ensures var reported := if remote.Some? then Parse(remote.value) else None;
      if reported.Some? then Peer(remote) == reported.value
      else Peer(remote).family == V4 && Peer(remote).value == 127 * 0x100_0000 + 1
  {
    hide Parse, Canonical, Pow, Candidate;
    var text := if remote.Some? then remote.value else "";
    ParseReadsOnce(text);
    EmptyIsNoAddress();
    var peer := Peer(remote);
    CanonicalValue(V4, LOOPBACK_VALUE);
    CandidateOfPrinted(peer);
    CanonicalIsRead(peer.family, peer.value);
    ParseReadsOnce(peer.normalized);
  }
}
