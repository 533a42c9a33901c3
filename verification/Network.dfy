/** Addresses, networks, endpoints and packets. */
module Network {
  import opened Bits
  import opened Wrappers

  type u8 = n: nat | n < 0x100
  type u16 = n: nat | n < 0x1_0000
  type u32 = n: nat | n < 0x1_0000_0000
  type u128 = n: nat | n < 0x1_0000_0000_0000_0000_0000_0000_0000_0000

  datatype IpAddr = V4(v4: u32) | V6(v6: u128)

  function Width(ip: IpAddr): nat {
    if ip.V4? then 32 else 128
  }

  function AddressBits(ip: IpAddr): nat {
    match ip
    case V4(bits) => bits
    case V6(bits) => bits
  }

  /** A number from its two bytes. */
  function Word(high: u8, low: u8): u16 {
    high * 0x100 + low
  }

  /** An address from its dotted parts, most significant first. */
  function Ipv4(a: u8, b: u8, c: u8, d: u8): IpAddr {
    V4(((a * 0x100 + b) * 0x100 + c) * 0x100 + d)
  }

  /** An address whose groups are `first`, zeros, and then the last two groups. */
  function Ipv6(first: u16, seventh: u16, eighth: u16): IpAddr {
    V6(first * 0x1_0000_0000_0000_0000_0000_0000_0000 + seventh * 0x1_0000 + eighth)
  }

  datatype NetworkParts = NetworkParts(ip: IpAddr, prefix: nat)

  type IpNetwork = n: NetworkParts | n.prefix <= Width(n.ip)
    witness NetworkParts(V4(0), 0)

  function HostBits(net: IpNetwork): nat {
    Width(net.ip) - net.prefix
  }

  /** The address shares the first `prefix` bits with the network. */
  predicate InNetwork(ip: IpAddr, net: IpNetwork) {
    ip.V4? == net.ip.V4? && AddressBits(ip) / Pow2(HostBits(net)) == AddressBits(net.ip) / Pow2(HostBits(net))
  }

  /** The network is written with its lowest address. */
  predicate IsCanonical(net: IpNetwork) {
    AddressBits(net.ip) % Pow2(HostBits(net)) == 0
  }

  datatype TransportProtocol = Udp | Tcp

  datatype Endpoint = Endpoint(ip: IpAddr, port: u16, protocol: TransportProtocol)

  datatype Direction = In | Out

  datatype End = Src | Dst

  /**
   What the packet filter sees of a packet. The two headers are raw bytes in network order; an absent
   or truncated header is a short sequence. `ctState` is the connection-tracking state as a bit set.
   */
  datatype Packet = Packet(
    iif: nat, oif: nat,
    nfproto: nat, l4proto: nat,
    ctState: nat,
    network: seq<u8>, transport: seq<u8>)

  const NFPROTO_IPV4 := 2
  const NFPROTO_IPV6 := 10

  const IPPROTO_ICMP := 1
  const IPPROTO_TCP := 6
  const IPPROTO_UDP := 17
  const IPPROTO_ICMPV6 := 58

  /** The header fields that rules look at. */
  datatype Field =
    | Ipv4Saddr | Ipv4Daddr | Ipv6Saddr | Ipv6Daddr
    | UdpSport | UdpDport | TcpSport | TcpDport
    | Icmpv6Type | Icmpv6Code

  /**
   Where a field lies in its header: offset and length in bytes (section 3.1 of RFC 791, section 3 of
   RFC 8200, RFC 768, section 3.1 of RFC 9293, section 2.1 of RFC 4443).
   */
  function Layout(f: Field): (nat, nat) {
    match f
    case Ipv4Saddr => (12, 4)
    case Ipv4Daddr => (16, 4)
    case Ipv6Saddr => (8, 16)
    case Ipv6Daddr => (24, 16)
    case UdpSport => (0, 2)
    case UdpDport => (2, 2)
    case TcpSport => (0, 2)
    case TcpDport => (2, 2)
    case Icmpv6Type => (0, 1)
    case Icmpv6Code => (1, 1)
  }

  predicate IsAddressField(f: Field) {
    f in {Ipv4Saddr, Ipv4Daddr, Ipv6Saddr, Ipv6Daddr}
  }

  /** The packet carries the protocol the field belongs to. */
  predicate Carries(p: Packet, f: Field) {
    match f
    case Ipv4Saddr => p.nfproto == NFPROTO_IPV4
    case Ipv4Daddr => p.nfproto == NFPROTO_IPV4
    case Ipv6Saddr => p.nfproto == NFPROTO_IPV6
    case Ipv6Daddr => p.nfproto == NFPROTO_IPV6
    case UdpSport => p.l4proto == IPPROTO_UDP
    case UdpDport => p.l4proto == IPPROTO_UDP
    case TcpSport => p.l4proto == IPPROTO_TCP
    case TcpDport => p.l4proto == IPPROTO_TCP
    case Icmpv6Type => p.l4proto == IPPROTO_ICMPV6
    case Icmpv6Code => p.l4proto == IPPROTO_ICMPV6
  }

  function BigEndian(bytes: seq<u8>): nat {
    if bytes == [] then 0 else 0x100 * BigEndian(bytes[..|bytes| - 1]) + bytes[|bytes| - 1]
  }

  lemma PowerOfByte(n: nat)
    ensures Pow2(n + 8) == 0x100 * Pow2(n)
  {
    PowersOfV4();
    Pow2Add(8, n);
  }

  lemma {:induction false} BigEndianFits(bytes: seq<u8>)
    ensures BigEndian(bytes) < Pow2(8 * |bytes|)
  {
    if bytes != [] {
      BigEndianFits(bytes[..|bytes| - 1]);
      PowerOfByte(8 * (|bytes| - 1));
    }
  }

  /** The bytes at a field's place, whatever protocol the packet carries; `None` if there are too few. */
  function Load(p: Packet, f: Field): Option<nat> {
    var (offset, length) := Layout(f);
    var header := if IsAddressField(f) then p.network else p.transport;
    if offset + length <= |header| then Some(BigEndian(header[offset..offset + length])) else None
  }

  lemma LoadFits(p: Packet, f: Field)
    requires Load(p, f).Some?
    ensures Load(p, f).value < Pow2(8 * Layout(f).1)
  {
    var (offset, length) := Layout(f);
    var header := if IsAddressField(f) then p.network else p.transport;
    BigEndianFits(header[offset..offset + length]);
  }
}
