/**
 The compiler from policies to batches of netfilter messages.

 `Check` names the tests a rule is made of and `CompileCheck` the expressions each becomes; the
 functions `*Rules` say which rules each part of a policy contributes to a chain. Module `FirewallBatch`
 builds the same thing by appending expressions and messages one at a time.
 */
module FirewallCompiler {
  import opened Bits
  import opened Network
  import opened Wrappers
  import opened Nftables
  import opened FirewallPolicy

  datatype Check =
    | Iface(direction: Direction, index: nat)
    | Net(end: End, net: IpNetwork)
    | Ip(end: End, ip: IpAddr)
    | Port(protocol: TransportProtocol, end: End, port: u16)
    | L4(proto: nat)
    | Icmpv6(kind: u8, code: u8)
    | Established

  const ESTABLISHED_BIT := 2

  function L3Proto(ip: IpAddr): nat {
    if ip.V4? then NFPROTO_IPV4 else NFPROTO_IPV6
  }

  function ProtocolNumber(protocol: TransportProtocol): nat {
    if protocol == Udp then IPPROTO_UDP else IPPROTO_TCP
  }

  function AddressField(v4: bool, end: End): Field {
    match (v4, end)
    case (true, Src) => Ipv4Saddr
    case (true, Dst) => Ipv4Daddr
    case (false, Src) => Ipv6Saddr
    case (false, Dst) => Ipv6Daddr
  }

  function PortField(protocol: TransportProtocol, end: End): Field {
    match (protocol, end)
    case (Udp, Src) => UdpSport
    case (Udp, Dst) => UdpDport
    case (Tcp, Src) => TcpSport
    case (Tcp, Dst) => TcpDport
  }

  function CompileCheck(c: Check): seq<Expr> {
    match c
    case Iface(direction, index) =>
      [Meta(if direction == In then Iif else Oif), Cmp(Eq, index)]
    case Net(end, net) =>
      [Meta(NfProto), Cmp(Eq, L3Proto(net.ip)), Payload(AddressField(net.ip.V4?, end)),
       Bitwise(PrefixMask(Width(net.ip), net.prefix), 0), Cmp(Eq, AddressBits(net.ip))]
    case Ip(end, ip) =>
      [Meta(NfProto), Cmp(Eq, L3Proto(ip)), Payload(AddressField(ip.V4?, end)), Cmp(Eq, AddressBits(ip))]
    case Port(protocol, end, port) =>
      [Meta(MetaKey.L4Proto), Cmp(Eq, ProtocolNumber(protocol)), Payload(PortField(protocol, end)), Cmp(Eq, port)]
    case L4(proto) =>
      [Meta(MetaKey.L4Proto), Cmp(Eq, proto)]
    case Icmpv6(kind, code) =>
      [Meta(MetaKey.L4Proto), Cmp(Eq, IPPROTO_ICMPV6),
       Payload(Icmpv6Type), Cmp(Eq, kind), Payload(Icmpv6Code), Cmp(Eq, code)]
    case Established =>
      [Ct, Bitwise(ESTABLISHED_BIT, 0), Cmp(Neq, 0)]
  }

  function CompileChecks(checks: seq<Check>): seq<Expr> {
    if checks == [] then []
    else CompileChecks(checks[..|checks| - 1]) + CompileCheck(checks[|checks| - 1])
  }

  function CompileVerdict(counters: bool, verdict: Verdict): seq<Expr> {
    (if counters then [Counter] else []) + [Expr.Verdict(verdict)]
  }

  datatype RuleSpec = RuleSpec(checks: seq<Check>, verdict: Verdict)

  function CompileRule(counters: bool, r: RuleSpec): seq<Expr> {
    CompileChecks(r.checks) + CompileVerdict(counters, r.verdict)
  }

  function CompileRules(counters: bool, rs: seq<RuleSpec>): seq<seq<Expr>> {
    seq(|rs|, i requires 0 <= i < |rs| => CompileRule(counters, rs[i]))
  }

  // ----- Which rules each part of a policy contributes to the chain of direction `d` -----

  function InterfaceRule(index: nat, d: Direction): RuleSpec {
    RuleSpec([Iface(d, index)], Accept)
  }

  const DHCPV4_REQUEST_RULE := RuleSpec(
    [Port(Udp, Src, DHCPV4_CLIENT_PORT), Ip(Dst, BROADCAST), Port(Udp, Dst, DHCPV4_SERVER_PORT)], Accept)

  const DHCPV4_RESPONSE_RULE := RuleSpec(
    [Port(Udp, Src, DHCPV4_SERVER_PORT), Port(Udp, Dst, DHCPV4_CLIENT_PORT)], Accept)

  function Dhcpv4ClientRules(d: Direction): seq<RuleSpec> {
    [if d == Out then DHCPV4_REQUEST_RULE else DHCPV4_RESPONSE_RULE]
  }

  function Dhcpv6RequestRule(server: IpAddr): RuleSpec {
    RuleSpec([Net(Src, IPV6_LINK_LOCAL), Port(Udp, Src, DHCPV6_CLIENT_PORT),
              Ip(Dst, server), Port(Udp, Dst, DHCPV6_SERVER_PORT)], Accept)
  }

  function Dhcpv6RequestRules(servers: seq<IpAddr>): seq<RuleSpec> {
    seq(|servers|, i requires 0 <= i < |servers| => Dhcpv6RequestRule(servers[i]))
  }

  const DHCPV6_RESPONSE_RULE := RuleSpec(
    [Net(Src, IPV6_LINK_LOCAL), Port(Udp, Src, DHCPV6_SERVER_PORT),
     Net(Dst, IPV6_LINK_LOCAL), Port(Udp, Dst, DHCPV6_CLIENT_PORT)], Accept)

  function Dhcpv6ClientRules(d: Direction): seq<RuleSpec> {
    if d == Out then Dhcpv6RequestRules(DHCPV6_SERVER_ADDRS) else [DHCPV6_RESPONSE_RULE]
  }

  const SOLICITATION_RULE := RuleSpec([Ip(Dst, ROUTER_SOLICITATION_OUT_DST_ADDR), Icmpv6(133, 0)], Accept)

  function RouterMessageRule(kind: u8): RuleSpec {
    RuleSpec([Net(Src, IPV6_LINK_LOCAL), Icmpv6(kind, 0)], Accept)
  }

  function NdpRules(d: Direction): seq<RuleSpec> {
    if d == Out then [SOLICITATION_RULE] else [RouterMessageRule(134), RouterMessageRule(137)]
  }

  /** What `add_dhcp_client_rules` makes of a chain that holds `before`. */
  function WithDhcpClientRules(before: seq<RuleSpec>, d: Direction): seq<RuleSpec> {
    before + Dhcpv4ClientRules(d) + Dhcpv6ClientRules(d) + NdpRules(d)
  }

  function EndpointRule(peer: Endpoint, d: Direction): RuleSpec {
    match d
    case Out => RuleSpec([Ip(Dst, peer.ip), Port(peer.protocol, Dst, peer.port)], Accept)
    case In => RuleSpec([Ip(Src, peer.ip), Port(peer.protocol, Src, peer.port), Established], Accept)
  }

  function PingRule(host: IpAddr, d: Direction): RuleSpec {
    RuleSpec([Ip(if d == Out then Dst else Src, host), L4(if host.V4? then IPPROTO_ICMP else IPPROTO_ICMPV6)], Accept)
  }

  function PingRules(hosts: seq<IpAddr>, d: Direction): seq<RuleSpec> {
    seq(|hosts|, i requires 0 <= i < |hosts| => PingRule(hosts[i], d))
  }

  function AllowDnsRule(index: nat, protocol: TransportProtocol, host: IpAddr): RuleSpec {
    RuleSpec([Iface(Out, index), Port(protocol, Dst, DNS_PORT), Ip(Dst, host)], Accept)
  }

  function BlockDnsRule(protocol: TransportProtocol): RuleSpec {
    RuleSpec([Port(protocol, Dst, DNS_PORT)], Drop)
  }

  /** What `add_dns_rule` makes of the outgoing chain. */
  function WithDnsRules(before: seq<RuleSpec>, tunnel: TunnelMetadata, index: nat, protocol: TransportProtocol)
    : seq<RuleSpec>
  {
    var allowV4 := before + [AllowDnsRule(index, protocol, V4(tunnel.ipv4Gateway))];
    var allowV6 := if tunnel.ipv6Gateway.None? then allowV4
                   else allowV4 + [AllowDnsRule(index, protocol, V6(tunnel.ipv6Gateway.value))];
    allowV6 + [BlockDnsRule(protocol)]
  }

  function NetRule(net: IpNetwork, end: End): RuleSpec {
    RuleSpec([Net(end, net)], Accept)
  }

  function NetRules(nets: seq<IpNetwork>, end: End): seq<RuleSpec> {
    seq(|nets|, i requires 0 <= i < |nets| => NetRule(nets[i], end))
  }

  /** The computer acting as a DHCPv4 server: the client's rules the other way around. */
  function DhcpServerRules(d: Direction): seq<RuleSpec> {
    [if d == Out then DHCPV4_RESPONSE_RULE else DHCPV4_REQUEST_RULE]
  }

  function WithLanRules(before: seq<RuleSpec>, d: Direction): seq<RuleSpec> {
    match d
    case Out =>
      before + NetRules(ALLOWED_LAN_NETS, Dst) + NetRules(ALLOWED_LAN_MULTICAST_NETS, Dst) + DhcpServerRules(d)
    case In => before + NetRules(ALLOWED_LAN_NETS, Src) + DhcpServerRules(d)
  }

  function WithConnectedRules(before: seq<RuleSpec>, peer: Endpoint, tunnel: TunnelMetadata, index: nat, d: Direction)
    : seq<RuleSpec>
  {
    var withPeer := before + [EndpointRule(peer, d)];
    var withDns := if d == In then withPeer
                   else WithDnsRules(WithDnsRules(withPeer, tunnel, index, Udp), tunnel, index, Tcp);
    withDns + [InterfaceRule(index, d)]
  }

  function WithSpecificRules(before: seq<RuleSpec>, policy: Policy, tunnelIndex: nat, d: Direction): seq<RuleSpec> {
    var specific := match policy
      case Connecting(peer, hosts, _) => before + PingRules(hosts, d) + [EndpointRule(peer, d)]
      case Connected(peer, tunnel, _) => WithConnectedRules(before, peer, tunnel, tunnelIndex, d)
      case Blocked(_) => before;
    if policy.allowLan then WithLanRules(specific, d) else specific
  }

  /** All rules a policy puts into one chain, in order. */
  function PolicyRules(policy: Policy, ifaces: Interfaces, d: Direction): seq<RuleSpec> {
    WithSpecificRules(WithDhcpClientRules([] + [InterfaceRule(ifaces.loopback, d)], d), policy, ifaces.tunnel, d)
  }

  // ----- Interface lookup -----

  const LOOPBACK_IFACE_NAME := "lo"

  datatype Error = LookupIfaceIndexError(name: string)

  /** The kernel's answers to interface lookups. Index 0 means there is no such interface. */
  type InterfaceLookup = map<string, nat>

  function IfaceIndex(lookup: InterfaceLookup, name: string): Result<nat, Error> {
    if '\0' in name || name !in lookup || lookup[name] == 0 then Err(LookupIfaceIndexError(name))
    else Ok(lookup[name])
  }

  /** The indices a policy needs, or the first lookup that fails. */
  function LookupInterfaces(policy: Policy, lookup: InterfaceLookup): Result<Interfaces, Error> {
    match IfaceIndex(lookup, LOOPBACK_IFACE_NAME)
    case Err(e) => Err(e)
    case Ok(loopback) =>
      if !policy.Connected? then Ok(Interfaces(loopback, 0))
      else
        match IfaceIndex(lookup, policy.tunnel.interface)
        case Err(e) => Err(e)
        case Ok(tunnel) => Ok(Interfaces(loopback, tunnel))
  }
}
