/**
 Choosing the route of an address (features/topology/cidr.go:11-62): the longest matching prefix, as
 section 5.1 of RFC 4632 asks.
 */
module Routes {
  import opened Common
  import opened Ipv4

  /** What the library makes of an address or a block: an IPv4 one, or another kind. */
  datatype Ip = V4(v: nat) | OtherIp(id: nat)

  datatype Cidr = V4Block(block: Block) | OtherBlock(id: nat, prefix: nat)

  /** Parsing of addresses and blocks, and whether a block that is not IPv4 contains an address. */
  datatype Library = Library(ip: string -> Option<Ip>, cidr: string -> Option<Cidr>, holds: (Cidr, Ip) -> bool)

  /** The library parses IPv4 blocks to aligned ones. */
  ghost predicate Parses(lib: Library) {
    && (forall s: string :: lib.cidr(s).Some? && lib.cidr(s).value.V4Block? ==> IsBlock(lib.cidr(s).value.block))
    && lib.cidr(DEFAULT_ROUTE) == Some(V4Block(Block(0, 0)))
  }

  const DEFAULT_ROUTE := "0.0.0.0/0"

  function IpInCidr(lib: Library, ip: string, cidr: string): bool
    requires Parses(lib)
  {
    if cidr == DEFAULT_ROUTE then true
    else match lib.cidr(cidr)
      case None => false
      case Some(c) =>
        match lib.ip(ip)
        case None => false
        case Some(a) => if c.V4Block? then a.V4? && Contains(c.block, a.v) else lib.holds(c, a)
  }

  function PrefixLength(lib: Library, cidr: string): int {
    match lib.cidr(cidr)
    case None => -1
    case Some(c) => if c.V4Block? then c.block.prefix else c.prefix
  }

  lemma WholeSpace()
    ensures Size(Block(0, 0)) == ADDRESSES
  {
    assert Pow2(4) == 16;
    Pow2Adds(4, 4);
    Pow2Adds(8, 8);
    Pow2Adds(16, 16);
  }

  /** The address and the block of the route are IPv4. */
  predicate IsV4(lib: Library, ip: string, cidr: string) {
    && lib.ip(ip).Some? && lib.ip(ip).value.V4? && lib.ip(ip).value.v < ADDRESSES
    && lib.cidr(cidr).Some? && lib.cidr(cidr).value.V4Block?
  }

  predicate AllV4(lib: Library, ip: string, routes: seq<string>) {
    forall i :: 0 <= i < |routes| ==> IsV4(lib, ip, routes[i])
  }

  /** The address lies in the block of the route. */
  ghost predicate InBlock(lib: Library, ip: string, cidr: string) {
    IsV4(lib, ip, cidr) && lib.cidr(cidr).value.block.prefix <= BITS &&
    Contains(lib.cidr(cidr).value.block, lib.ip(ip).value.v)
  }

  /** For IPv4 a route matches exactly when its block contains the address; the default route contains all. */
  lemma InBlockExactly(lib: Library, ip: string, cidr: string)
    requires Parses(lib) && IsV4(lib, ip, cidr)
    ensures IpInCidr(lib, ip, cidr) <==> InBlock(lib, ip, cidr)
  {
    WholeSpace();
  }

  /** The first route of the longest prefix among those that match, none exactly when none matches. */
  method FindMatchingRoute(lib: Library, routes: seq<string>, destIp: string) returns (best: Option<nat>)
    requires Parses(lib)
    ensures best.None? <==> forall i :: 0 <= i < |routes| ==> !IpInCidr(lib, destIp, routes[i])
    ensures AllV4(lib, destIp, routes) ==>
      (best.None? <==> forall i :: 0 <= i < |routes| ==> !InBlock(lib, destIp, routes[i]))
    ensures best.Some? ==> best.value < |routes| && IpInCidr(lib, destIp, routes[best.value])
    ensures best.Some? ==> forall i :: 0 <= i < |routes| && IpInCidr(lib, destIp, routes[i]) ==>
      && PrefixLength(lib, routes[i]) <= PrefixLength(lib, routes[best.value])
      && (i < best.value ==> PrefixLength(lib, routes[i]) < PrefixLength(lib, routes[best.value]))
  {
    if AllV4(lib, destIp, routes) {
      forall i | 0 <= i < |routes| ensures IpInCidr(lib, destIp, routes[i]) <==> InBlock(lib, destIp, routes[i]) {
        InBlockExactly(lib, destIp, routes[i]);
      }
    }
    hide IpInCidr, InBlock, IsV4;
    best := None;
    var bestPrefix := -1;
    var i := 0;
    while i < |routes|
      invariant 0 <= i <= |routes|
      invariant best.None? ==> bestPrefix == -1 && forall j :: 0 <= j < i ==> !IpInCidr(lib, destIp, routes[j])
      invariant best.Some? ==>
        && best.value < i && IpInCidr(lib, destIp, routes[best.value])
        && bestPrefix == PrefixLength(lib, routes[best.value])
      invariant best.Some? ==> forall j :: 0 <= j < i && IpInCidr(lib, destIp, routes[j]) ==>
        && PrefixLength(lib, routes[j]) <= bestPrefix
        && (j < best.value ==> PrefixLength(lib, routes[j]) < bestPrefix)
    {
      if IpInCidr(lib, destIp, routes[i]) {
        var prefix := PrefixLength(lib, routes[i]);
        if prefix > bestPrefix { best, bestPrefix := Some(i), prefix; }
      }
      i := i + 1;
    }
  }

  /** For IPv4, the block of a route with the longest prefix lies inside that of every other matching route. */
  lemma LongestIsInnermost(lib: Library, destIp: string, best: string, other: string, v: nat)
    requires Parses(lib) && lib.ip(destIp) == Some(V4(v)) && v < ADDRESSES
    requires lib.cidr(best).Some? && lib.cidr(best).value.V4Block?
    requires lib.cidr(other).Some? && lib.cidr(other).value.V4Block?
    requires IpInCidr(lib, destIp, best) && IpInCidr(lib, destIp, other)
    requires PrefixLength(lib, other) <= PrefixLength(lib, best)
    ensures forall a :: Contains(lib.cidr(best).value.block, a) ==> Contains(lib.cidr(other).value.block, a)
  {
    WholeSpace();
    BlocksNest(lib.cidr(best).value.block, lib.cidr(other).value.block, v);
  }
}
