// IP addresses, networks and listen addresses, as Go's net package treats them.
module Addresses {

  type Bits = seq<bool>

  const V4_BITS := 32
  const V6_BITS := 128

  // An address as net.IP holds it: 4 or 16 bytes, here bit by bit.
  predicate IsIp(ip: Bits) { |ip| == V4_BITS || |ip| == V6_BITS }

  // The IPv4-mapped block ::ffff:0:0/96.
  predicate IsMapped(ip: Bits) {
    |ip| == V6_BITS && (forall i :: 0 <= i < 80 ==> !ip[i]) && (forall i :: 80 <= i < 96 ==> ip[i])
  }

  // IP.To4: an IPv4-mapped address is its last 32 bits.
  function To4(ip: Bits): Bits { if IsMapped(ip) then ip[96..] else ip }

  predicate Unspecified(ip: Bits) { forall i :: 0 <= i < |To4(ip)| ==> !To4(ip)[i] }

  // A network as ParseCIDR returns it: the address with the host bits cleared.
  datatype Network = Network(base: Bits, prefix: nat)

  predicate IsNetwork(n: Network) {
    IsIp(n.base) && n.prefix <= |n.base| && forall i :: n.prefix <= i < |n.base| ==> !n.base[i]
  }

  function ParsedNetwork(ip: Bits, prefix: nat): (n: Network)
    requires IsIp(ip) && prefix <= |ip|
    ensures IsNetwork(n) && n.prefix == prefix && n.base[..prefix] == ip[..prefix]
  {
    Network(seq(|ip|, i requires 0 <= i < |ip| => i < prefix && ip[i]), prefix)
  }

  // networkNumberAndMask: a mapped network is compared as IPv4, with the part of
  // the mask that covers the last 32 bits.
  function NetworkNumber(n: Network): Bits { To4(n.base) }

  function MaskLength(n: Network): int { if IsMapped(n.base) then n.prefix - 96 else n.prefix }

  // A masked address can only look mapped if the whole ffff block was kept.
  lemma MappedNetworkKeepsItsPrefix(n: Network)
    requires IsNetwork(n)
    ensures 0 <= MaskLength(n) <= |NetworkNumber(n)|
  {
    if IsMapped(n.base) {
      assert n.base[95];
    }
  }

  // IPNet.Contains
  predicate Contains(n: Network, ip: Bits)
    requires IsNetwork(n)
  {
    MappedNetworkKeepsItsPrefix(n);
    var x := To4(ip);
    |x| == |NetworkNumber(n)| && x[..MaskLength(n)] == NetworkNumber(n)[..MaskLength(n)]
  }

  lemma To4Idempotent(ip: Bits)
    ensures To4(To4(ip)) == To4(ip)
  {
  }

  lemma ContainsItsBase(n: Network)
    requires IsNetwork(n)
    ensures Contains(n, n.base)
  {
    MappedNetworkKeepsItsPrefix(n);
  }

  // Prefixes are laminar: two networks that share any address contain one
  // another's base, so comparing bases is enough.
  lemma SharedAddressMeansNested(a: Network, b: Network, ip: Bits)
    requires IsNetwork(a) && IsNetwork(b) && Contains(a, ip) && Contains(b, ip)
    ensures Contains(a, b.base) || Contains(b, a.base)
  {
    MappedNetworkKeepsItsPrefix(a);
    MappedNetworkKeepsItsPrefix(b);
    var x := To4(ip);
    var la, lb := MaskLength(a), MaskLength(b);
    if la <= lb {
      assert x[..la] == x[..lb][..la];
      assert NetworkNumber(b)[..la] == NetworkNumber(b)[..lb][..la];
      assert Contains(a, b.base);
    } else {
      assert x[..lb] == x[..la][..lb];
      assert NetworkNumber(a)[..lb] == NetworkNumber(a)[..la][..lb];
      assert Contains(b, a.base);
    }
  }

  ghost predicate Disjoint(a: Network, b: Network)
    requires IsNetwork(a) && IsNetwork(b)
  {
    forall ip :: !(Contains(a, ip) && Contains(b, ip))
  }

  // The base-address test decides disjointness exactly.
  lemma BaseTestIsExact(a: Network, b: Network)
    requires IsNetwork(a) && IsNetwork(b)
    ensures Disjoint(a, b) <==> !Contains(a, b.base) && !Contains(b, a.base)
  {
    ContainsItsBase(a);
    ContainsItsBase(b);
    forall ip | Contains(a, ip) && Contains(b, ip) ensures Contains(a, b.base) || Contains(b, a.base) {
      SharedAddressMeansNested(a, b, ip);
    }
  }

  // ---- Listen addresses --------------------------------------------------

  // A listen address after net.SplitHostPort and net.ParseIP.
  datatype Host = Empty | Ip(bits: Bits) | Name(name: string)

  datatype Addr = Unsplittable(raw: string) | Addr(host: Host, port: string)

  // Its canonical form; all bind-everything forms collapse to Wildcard.
  datatype CanonHost = Wildcard | CanonIp(bits: Bits) | CanonName(name: string)

  datatype Canon = Raw(raw: string) | Canon(host: CanonHost, port: string)

  function Canonicalize(a: Addr): Canon {
    match a
    case Unsplittable(raw) => Raw(raw)
    case Addr(Empty, port) => Canon(Wildcard, port)
    case Addr(Ip(bits), port) => Canon(if Unspecified(bits) then Wildcard else CanonIp(To4(bits)), port)
    case Addr(Name(n), port) => Canon(CanonName(n), port)
  }

  // The IPv4-mapped form of an IPv4 address.
  function MappedForm(v4: Bits): (ip: Bits)
    requires |v4| == V4_BITS
    ensures IsMapped(ip) && To4(ip) == v4
  {
    var ip := seq(V6_BITS, i requires 0 <= i < V6_BITS => if i < 80 then false else if i < 96 then true else v4[i - 96]);
    assert ip[96..] == v4;
    ip
  }

  // Spelling an IPv4 address in its mapped form changes neither what it binds nor
  // which networks it belongs to.
  lemma SpellingDoesNotMatter(v4: Bits, port: string, n: Network)
    requires |v4| == V4_BITS && IsNetwork(n)
    ensures Canonicalize(Addr(Ip(MappedForm(v4)), port)) == Canonicalize(Addr(Ip(v4), port))
    ensures Contains(n, MappedForm(v4)) <==> Contains(n, v4)
  {
    To4Idempotent(MappedForm(v4));
  }

  // Two sockets cannot both be bound: same port, and the same host or one of
  // them binds every interface.
  predicate BindConflict(x: Canon, y: Canon) {
    x.Canon? && y.Canon? && x.port == y.port && (x.host == y.host || x.host.Wildcard? || y.host.Wildcard?)
  }

  function Zeros(n: nat): Bits { seq(n, i => false) }

  // All the ways to say "every interface" on a port are one address ...
  lemma WildcardsAreOne(port: string)
    ensures var all := Canonicalize(Addr(Empty, port));
            && all.Canon? && all.port == port
            && Canonicalize(Addr(Ip(Zeros(V4_BITS)), port)) == all
            && Canonicalize(Addr(Ip(Zeros(V6_BITS)), port)) == all
            && Canonicalize(Addr(Ip(MappedForm(Zeros(V4_BITS))), port)) == all
  {
  }

  // ... and it clashes with every host on that port, on no other.
  lemma WildcardClashesOnItsPort(port: string, a: Addr)
    requires a.Addr?
    ensures BindConflict(Canonicalize(Addr(Empty, port)), Canonicalize(a)) <==> a.port == port
    ensures BindConflict(Canonicalize(a), Canonicalize(Addr(Empty, port))) <==> a.port == port
  {
  }

  // Two hosts neither of which binds every interface clash exactly when they are
  // the same name, or the same address in either spelling, on the same port.
  lemma SpecificHostsClashExactly(a: Addr, b: Addr)
    requires a.Addr? && b.Addr? && Specific(a.host) && Specific(b.host)
    ensures BindConflict(Canonicalize(a), Canonicalize(b)) <==>
            a.port == b.port &&
            ((a.host.Name? && a.host == b.host) || (a.host.Ip? && b.host.Ip? && To4(a.host.bits) == To4(b.host.bits)))
  {
  }

  predicate Specific(h: Host) { h.Name? || (h.Ip? && exists i :: 0 <= i < |To4(h.bits)| && To4(h.bits)[i]) }

  // A parsed network contains exactly the addresses of its family that share its
  // prefix.
  lemma ParsedNetworkContains(ip: Bits, prefix: nat, x: Bits)
    requires |ip| == V4_BITS && prefix <= V4_BITS && |x| == V4_BITS
    ensures Contains(ParsedNetwork(ip, prefix), x) <==> x[..prefix] == ip[..prefix]
    ensures Contains(ParsedNetwork(ip, prefix), MappedForm(x)) <==> x[..prefix] == ip[..prefix]
  {
    var n := ParsedNetwork(ip, prefix);
    To4Idempotent(MappedForm(x));
    assert NetworkNumber(n)[..prefix] == ip[..prefix];
  }

  lemma ParsedIpv6NetworkContains(ip: Bits, prefix: nat, x: Bits)
    requires |ip| == V6_BITS && prefix <= V6_BITS && !IsMapped(ParsedNetwork(ip, prefix).base)
    ensures |x| == V6_BITS && !IsMapped(x) ==> (Contains(ParsedNetwork(ip, prefix), x) <==> x[..prefix] == ip[..prefix])
    ensures |x| == V4_BITS ==> !Contains(ParsedNetwork(ip, prefix), x) && !Contains(ParsedNetwork(ip, prefix), MappedForm(x))
  {
    var n := ParsedNetwork(ip, prefix);
    assert NetworkNumber(n)[..prefix] == ip[..prefix];
  }
}
