/** Which client address is resolved, hop by hop. */
module TrustedClient {
  import opened Wrappers
  import opened Text
  import opened IpAddress
  import opened TrustedProxy

  /** The address lies in one of the configured ranges. */
  predicate InSomeRange(cidrs: seq<string>, number: string -> Option<int>, address: Address) {
    exists i :: 0 <= i < |cidrs| && InRange(cidrs[i], number, address)
  }

  predicate InRange(cidr: string, number: string -> Option<int>, address: Address) {
    match ParseCidr(cidr, number)
    case None => false
    case Some(range) => Contains(range, address)
  }

  lemma TrustedExactly(cidrs: seq<string>, number: string -> Option<int>, address: Address)
    requires ParseCidrs(cidrs, number).Ok?
    ensures Trusted(ParseCidrs(cidrs, number).value, address) <==> InSomeRange(cidrs, number, address)
  {
    hide ParseCidrs, ParseCidr, Contains;
    ParsedInOrder(cidrs, number);
    var ranges := ParseCidrs(cidrs, number).value;
    if i :| 0 <= i < |ranges| && Contains(ranges[i], address) {
      assert InRange(cidrs[i], number, address);
    }
    if i :| 0 <= i < |cidrs| && InRange(cidrs[i], number, address) {
      assert Contains(ranges[i], address);
    }
  }

  /** The address a hop names, with any space around it. */
  function HopAddress(hop: string): Option<Address> { Parse(Trim(hop)) }

  /** The hops are read when each of them is an address, and then in order. */
  lemma {:induction false} HopsExactly(pieces: seq<string>)
    ensures Hops(pieces).Some? <==> forall i :: 0 <= i < |pieces| ==> HopAddress(pieces[i]).Some?
    ensures Hops(pieces).Some? ==> |Hops(pieces).value| == |pieces|
    ensures Hops(pieces).Some? ==> forall i :: 0 <= i < |pieces| ==>
      HopAddress(pieces[i]) == Some(Hops(pieces).value[i])
  {
    hide Parse, Trim;
    if pieces != [] {
      HopsExactly(pieces[..|pieces| - 1]);
      assert HopAddress(pieces[|pieces| - 1]) == Parse(Trim(pieces[|pieces| - 1]));
    }
  }

  /**
   The client is the peer when it lies in no range, or when some hop is no
   address. Otherwise it is the last hop that lies in no range, and the first
   hop when all lie in ranges.
   */
  lemma ClientExactly(
    remote: Option<string>, hops: seq<string>, cidrs: seq<string>, number: string -> Option<int>,
    result: Result<string, string>, i: nat)
    requires hops != [] && AllLack(hops, ',')
    requires forall j :: 0 <= j < |cidrs| ==> ParseCidr(cidrs[j], number).Some?
    requires IsResolved(remote, Some(Join(hops, ',')), cidrs, number, result)
    ensures !InSomeRange(cidrs, number, Peer(remote)) || (exists j :: 0 <= j < |hops| && HopAddress(hops[j]).None?) ==>
      result == Ok(Peer(remote).normalized)
    ensures
      && i < |hops| && InSomeRange(cidrs, number, Peer(remote))
      && (forall j :: 0 <= j < |hops| ==> HopAddress(hops[j]).Some?)
      && (i > 0 ==> !InSomeRange(cidrs, number, HopAddress(hops[i]).value))
      && (forall j :: i < j < |hops| ==> InSomeRange(cidrs, number, HopAddress(hops[j]).value)) ==>
      result == Ok(HopAddress(hops[i]).value.normalized)
  {
    hide Trusted, ParseCidr, ParseCidrs, HopAddress, Peer, InSomeRange, Join, Split, Hops;
    ParsedInOrder(cidrs, number);
    var trusted := ParseCidrs(cidrs, number).value;
    SplitOfJoin(hops, ',');
    HopsExactly(hops);
    TrustedExactly(cidrs, number, Peer(remote));
    if Join(hops, ',') == "" {
      EmptyIsUnreadable();
    } else if Hops(hops).Some? && InSomeRange(cidrs, number, Peer(remote)) && i < |hops| {
      var chain := Hops(hops).value + [Peer(remote)];
      forall j | 0 <= j < |hops|
        ensures Trusted(trusted, chain[j]) <==> InSomeRange(cidrs, number, HopAddress(hops[j]).value)
      {
        TrustedExactly(cidrs, number, chain[j]);
      }
      ClientIsUnique(chain, trusted);
      if (i > 0 ==> !Trusted(trusted, chain[i])) && forall j :: i < j < |hops| ==> Trusted(trusted, chain[j]) {
        assert IsClient(chain, trusted, i);
      }
    }
  }
}
