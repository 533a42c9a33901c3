/** The firewall policies and the prose specification of which packets they let through. */
module FirewallPolicy {
  import opened Network
  import opened Wrappers

  datatype TunnelMetadata = TunnelMetadata(interface: string, ipv4Gateway: u32, ipv6Gateway: Option<u128>)

  datatype Policy =
    | Connecting(peerEndpoint: Endpoint, pingableHosts: seq<IpAddr>, allowLan: bool)
    | Connected(peerEndpoint: Endpoint, tunnel: TunnelMetadata, allowLan: bool)
    | Blocked(allowLan: bool)

  const DHCPV4_SERVER_PORT: u16 := 67
  const DHCPV4_CLIENT_PORT: u16 := 68
  const DHCPV6_SERVER_PORT: u16 := 547
  const DHCPV6_CLIENT_PORT: u16 := 546
  const DNS_PORT: u16 := 53

  const BROADCAST := Ipv4(255, 255, 255, 255)

  const IPV6_LINK_LOCAL: IpNetwork := NetworkParts(Ipv6(0xfe80, 0, 0), 10)

  const ALLOWED_LAN_NETS: seq<IpNetwork> := [
    NetworkParts(Ipv4(10, 0, 0, 0), 8),
    NetworkParts(Ipv4(172, 16, 0, 0), 12),
    NetworkParts(Ipv4(192, 168, 0, 0), 16),
    NetworkParts(Ipv4(169, 254, 0, 0), 16),
    NetworkParts(Ipv6(0xfe80, 0, 0), 10)
  ]

  const ALLOWED_LAN_MULTICAST_NETS: seq<IpNetwork> := [
    NetworkParts(Ipv4(224, 0, 0, 0), 24),
    NetworkParts(Ipv4(239, 255, 255, 250), 32),
    NetworkParts(Ipv4(239, 255, 255, 251), 32),
    NetworkParts(Ipv6(0xff02, 0, 0), 16),
    NetworkParts(Ipv6(0xff05, 0, 0), 16)
  ]

  const DHCPV6_SERVER_ADDRS: seq<IpAddr> := [Ipv6(0xff02, 1, 2), Ipv6(0xff05, 1, 3)]

  const ROUTER_SOLICITATION_OUT_DST_ADDR := Ipv6(0xff02, 0, 2)

  // ----- What a packet says -----

  /** The bytes of the address a packet comes from or goes to, from the fixed part of its network header. */
  function Octets(p: Packet, end: End): (r: seq<u8>)
    ensures |r| in {0, 4, 16}
  {
    if p.nfproto == NFPROTO_IPV4 then
      var at := if end == Src then 12 else 16;
      if |p.network| < at + 4 then [] else p.network[at..at + 4]
    else if p.nfproto == NFPROTO_IPV6 then
      var at := if end == Src then 8 else 24;
      if |p.network| < at + 16 then [] else p.network[at..at + 16]
    else []
  }

  function AddressOf(octets: seq<u8>): IpAddr
    requires |octets| == 4 || |octets| == 16
  {
    if |octets| == 4 then Ipv4(octets[0], octets[1], octets[2], octets[3])
    else
      BigEndianFits(octets);
      Bits.PowersOfV6();
      V6(BigEndian(octets))
  }

  /** The address a packet comes from or goes to. */
  function Address(p: Packet, end: End): Option<IpAddr> {
    if Octets(p, end) == [] then None else Some(AddressOf(Octets(p, end)))
  }

  predicate HasAddress(p: Packet, end: End, ip: IpAddr) {
    Address(p, end) == Some(ip)
  }

  predicate HasAddressIn(p: Packet, end: End, net: IpNetwork) {
    Address(p, end).Some? && InNetwork(Address(p, end).value, net)
  }

  /** A port is the first or the second pair of bytes of the transport header. */
  predicate HasPort(p: Packet, protocol: TransportProtocol, end: End, port: u16) {
    var at := if end == Src then 0 else 2;
    && p.l4proto == (if protocol == Udp then IPPROTO_UDP else IPPROTO_TCP)
    && |p.transport| >= at + 2
    && Word(p.transport[at], p.transport[at + 1]) == port
  }

  predicate IsIcmpv6(p: Packet, kind: u8, code: u8) {
    p.l4proto == IPPROTO_ICMPV6 && [kind, code] <= p.transport
  }

  /** The ESTABLISHED bit of the connection-tracking state is set. */
  predicate IsEstablished(p: Packet) {
    p.ctState / 2 % 2 == 1
  }

  // ----- The prose, clause by clause -----

  /** "DHCPv4 and DHCPv6 requests to go out and responses to come in". */
  predicate IsDhcpClientTraffic(d: Direction, p: Packet) {
    match d
    case Out =>
      || (&& HasPort(p, Udp, Src, DHCPV4_CLIENT_PORT)
          && HasAddress(p, Dst, BROADCAST) && HasPort(p, Udp, Dst, DHCPV4_SERVER_PORT))
      || (&& HasAddressIn(p, Src, IPV6_LINK_LOCAL) && HasPort(p, Udp, Src, DHCPV6_CLIENT_PORT)
          && (exists server <- DHCPV6_SERVER_ADDRS :: HasAddress(p, Dst, server))
          && HasPort(p, Udp, Dst, DHCPV6_SERVER_PORT))
    case In =>
      || (HasPort(p, Udp, Src, DHCPV4_SERVER_PORT) && HasPort(p, Udp, Dst, DHCPV4_CLIENT_PORT))
      || (&& HasAddressIn(p, Src, IPV6_LINK_LOCAL) && HasPort(p, Udp, Src, DHCPV6_SERVER_PORT)
          && HasAddressIn(p, Dst, IPV6_LINK_LOCAL) && HasPort(p, Udp, Dst, DHCPV6_CLIENT_PORT))
  }

  /** "Router solicitation, advertisement and redirects". */
  predicate IsNdp(d: Direction, p: Packet) {
    match d
    case Out => HasAddress(p, Dst, ROUTER_SOLICITATION_OUT_DST_ADDR) && IsIcmpv6(p, 133, 0)
    case In => HasAddressIn(p, Src, IPV6_LINK_LOCAL) && (IsIcmpv6(p, 134, 0) || IsIcmpv6(p, 137, 0))
  }

  /** The packet leaves by, or arrives on, the interface with this index. */
  predicate IsOnInterface(d: Direction, p: Packet, index: nat) {
    match d
    case Out => p.oif == index
    case In => p.iif == index
  }

  /** What every policy lets through, the LAN aside. `loopback` is the index of the loopback interface. */
  predicate IsBase(loopback: nat, d: Direction, p: Packet) {
    IsOnInterface(d, p, loopback) || IsDhcpClientTraffic(d, p) || IsNdp(d, p)
  }

  predicate IsLan(d: Direction, p: Packet) {
    match d
    case Out =>
      || (exists net <- ALLOWED_LAN_NETS :: HasAddressIn(p, Dst, net))
      || (exists net <- ALLOWED_LAN_MULTICAST_NETS :: HasAddressIn(p, Dst, net))
      || (HasPort(p, Udp, Src, DHCPV4_SERVER_PORT) && HasPort(p, Udp, Dst, DHCPV4_CLIENT_PORT))
    case In =>
      || (exists net <- ALLOWED_LAN_NETS :: HasAddressIn(p, Src, net))
      || (&& HasPort(p, Udp, Src, DHCPV4_CLIENT_PORT)
          && HasAddress(p, Dst, BROADCAST) && HasPort(p, Udp, Dst, DHCPV4_SERVER_PORT))
  }

  /** To the peer, or from it on a connection that is already established. */
  predicate IsPeerTraffic(peer: Endpoint, d: Direction, p: Packet) {
    match d
    case Out => HasAddress(p, Dst, peer.ip) && HasPort(p, peer.protocol, Dst, peer.port)
    case In => HasAddress(p, Src, peer.ip) && HasPort(p, peer.protocol, Src, peer.port) && IsEstablished(p)
  }

  predicate IsPing(hosts: seq<IpAddr>, d: Direction, p: Packet) {
    exists host <- hosts ::
      && HasAddress(p, if d == Out then Dst else Src, host)
      && p.l4proto == (if host.V4? then IPPROTO_ICMP else IPPROTO_ICMPV6)
  }

  /** A DNS request: destination port 53 over UDP or TCP, on its way out. */
  predicate IsDnsRequest(d: Direction, p: Packet) {
    d == Out && (HasPort(p, Udp, Dst, DNS_PORT) || HasPort(p, Tcp, Dst, DNS_PORT))
  }

  predicate IsToGateway(tunnel: TunnelMetadata, p: Packet) {
    || HasAddress(p, Dst, V4(tunnel.ipv4Gateway))
    || (tunnel.ipv6Gateway.Some? && HasAddress(p, Dst, V6(tunnel.ipv6Gateway.value)))
  }

  /** The interface indices a policy is compiled with. */
  datatype Interfaces = Interfaces(loopback: nat, tunnel: nat)

  /**
   The specification. Where two sentences of the prose disagree, loopback, DHCP, NDP and the peer
   come before the DNS rule, and the DNS rule comes before the tunnel and the LAN.
   */
  predicate Allowed(policy: Policy, ifaces: Interfaces, d: Direction, p: Packet) {
    IsBase(ifaces.loopback, d, p) ||
    match policy
    case Blocked(lan) => lan && IsLan(d, p)
    case Connecting(peer, hosts, lan) =>
      IsPing(hosts, d, p) || IsPeerTraffic(peer, d, p) || (lan && IsLan(d, p))
    case Connected(peer, tunnel, lan) =>
      IsPeerTraffic(peer, d, p) ||
      if IsDnsRequest(d, p) then IsOnInterface(d, p, ifaces.tunnel) && IsToGateway(tunnel, p)
      else IsOnInterface(d, p, ifaces.tunnel) || (lan && IsLan(d, p))
  }
}
