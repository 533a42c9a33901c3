/** Building the batch of a policy: rules grow expression by expression, the batch message by message. */
module FirewallBatch {
  import opened Bits
  import opened Network
  import opened Wrappers
  import opened Nftables
  import opened FirewallPolicy
  import opened FirewallCompiler

  /** The rules a list of messages adds to one chain. */
  ghost function RulesOf(ms: seq<Message>, d: Direction): seq<seq<Expr>> {
    if ms == [] then []
    else
      var last := ms[|ms| - 1];
      RulesOf(ms[..|ms| - 1], d) + (if last.AddRule? && last.chain == d then [last.exprs] else [])
  }

  /** The messages that create the table, empty, and its two chains. */
  const PREAMBLE: seq<Message> := [AddTable, DelTable, AddTable, AddChain(Out, Drop), AddChain(In, Drop)]

  ghost predicate IsPolicyBatch(ms: seq<Message>) {
    PREAMBLE <= ms && forall i | |PREAMBLE| <= i < |ms| :: ms[i].AddRule?
  }

  /** The batch creates the table and adds exactly these rules to its chains. */
  ghost predicate IsBatchOf(ms: seq<Message>, counters: bool, outRules: seq<RuleSpec>, inRules: seq<RuleSpec>) {
    && IsPolicyBatch(ms)
    && RulesOf(ms, Out) == CompileRules(counters, outRules)
    && RulesOf(ms, In) == CompileRules(counters, inRules)
  }

  lemma ExtendBatch(ms: seq<Message>, counters: bool, outRules: seq<RuleSpec>, inRules: seq<RuleSpec>,
                    d: Direction, spec: RuleSpec)
    requires IsBatchOf(ms, counters, outRules, inRules)
    ensures IsBatchOf(ms + [AddRule(d, CompileRule(counters, spec))], counters,
                      if d == Out then outRules + [spec] else outRules, if d == In then inRules + [spec] else inRules)
  {
    var ms' := ms + [AddRule(d, CompileRule(counters, spec))];
    assert ms'[..|ms'| - 1] == ms;
  }

  lemma {:induction false} NoRules(ms: seq<Message>, d: Direction)
    requires forall m <- ms :: !m.AddRule?
    ensures RulesOf(ms, d) == []
  {
    if ms != [] {
      NoRules(ms[..|ms| - 1], d);
    }
  }

  lemma RulesOfPreamble(d: Direction)
    ensures RulesOf(PREAMBLE, d) == []
  {
    NoRules(PREAMBLE, d);
  }

  /** The rules of one more network, after the rules a chain had. */
  lemma NetRulesStep(before: seq<RuleSpec>, nets: seq<IpNetwork>, i: nat, end: End)
    requires i < |nets|
    ensures before + NetRules(nets[..i + 1], end) == before + NetRules(nets[..i], end) + [NetRule(nets[i], end)]
  {
    assert NetRules(nets[..i + 1], end) == NetRules(nets[..i], end) + [NetRule(nets[i], end)];
  }

  lemma Dhcpv6RequestRulesStep(before: seq<RuleSpec>, servers: seq<IpAddr>, i: nat)
    requires i < |servers|
    ensures before + Dhcpv6RequestRules(servers[..i + 1]) ==
            before + Dhcpv6RequestRules(servers[..i]) + [Dhcpv6RequestRule(servers[i])]
  {
    assert Dhcpv6RequestRules(servers[..i + 1]) ==
           Dhcpv6RequestRules(servers[..i]) + [Dhcpv6RequestRule(servers[i])];
  }

  lemma PingRulesStep(hosts: seq<IpAddr>, i: nat, d: Direction)
    requires i < |hosts|
    ensures PingRules(hosts[..i + 1], d) == PingRules(hosts[..i], d) + [PingRule(hosts[i], d)]
  {}

  /** A rule under construction for one chain. */
  class Rule {
    const chain: Direction
    var exprs: seq<Expr>
    ghost var checks: seq<Check>

    /** No verdict has been added yet. */
    ghost predicate IsOpen()
      reads this
    {
      exprs == CompileChecks(checks)
    }

    constructor (chain: Direction)
      ensures IsOpen() && checks == [] && this.chain == chain
    {
      this.chain := chain;
      exprs := [];
      checks := [];
    }

    method AddExpr(e: Expr)
      modifies `exprs
      ensures exprs == old(exprs) + [e]
    {
      exprs := exprs + [e];
    }

    method CheckL3Proto(ip: IpAddr)
      modifies `exprs
      ensures exprs == old(exprs) + [Meta(NfProto), Cmp(Eq, L3Proto(ip))]
    {
      AddExpr(Meta(NfProto));
      AddExpr(Cmp(Eq, L3Proto(ip)));
    }

    method CheckL4Proto(proto: nat)
      modifies `exprs
      ensures exprs == old(exprs) + [Meta(MetaKey.L4Proto), Cmp(Eq, proto)]
    {
      AddExpr(Meta(MetaKey.L4Proto));
      AddExpr(Cmp(Eq, proto));
    }

    /** Records that the expressions added since the rule was last open make up `c`. */
    ghost method Close(c: Check)
      requires exprs == CompileChecks(checks) + CompileCheck(c)
      modifies `checks
      ensures IsOpen() && checks == old(checks) + [c]
    {
      checks := checks + [c];
      assert checks[..|checks| - 1] == old(checks);
    }

    method CheckIface(lookup: InterfaceLookup, direction: Direction, iface: string) returns (r: Result<(), Error>)
      requires IsOpen()
      modifies this
      ensures r == (match IfaceIndex(lookup, iface) case Ok(_) => Ok(()) case Err(e) => Err(e))
      ensures r.Ok? ==> IsOpen() && checks == old(checks) + [Iface(direction, IfaceIndex(lookup, iface).value)]
    {
      var index := IfaceIndex(lookup, iface);
      if index.Err? {
        return Err(index.error);
      }
      AddExpr(Meta(if direction == In then Iif else Oif));
      AddExpr(Cmp(Eq, index.value));
      Close(Iface(direction, index.value));
      r := Ok(());
    }

    method CheckNet(end: End, net: IpNetwork)
      requires IsOpen()
      modifies this
      ensures IsOpen() && checks == old(checks) + [Net(end, net)]
    {
      CheckL3Proto(net.ip);
      AddExpr(Payload(AddressField(net.ip.V4?, end)));
      AddExpr(Bitwise(PrefixMask(Width(net.ip), net.prefix), 0));
      AddExpr(Cmp(Eq, AddressBits(net.ip)));
      Close(Net(end, net));
    }

    method CheckIp(end: End, ip: IpAddr)
      requires IsOpen()
      modifies this
      ensures IsOpen() && checks == old(checks) + [Ip(end, ip)]
    {
      CheckL3Proto(ip);
      AddExpr(Payload(AddressField(ip.V4?, end)));
      AddExpr(Cmp(Eq, AddressBits(ip)));
      Close(Ip(end, ip));
    }

    method CheckPort(protocol: TransportProtocol, end: End, port: u16)
      requires IsOpen()
      modifies this
      ensures IsOpen() && checks == old(checks) + [Port(protocol, end, port)]
    {
      CheckL4Proto(ProtocolNumber(protocol));
      AddExpr(Payload(PortField(protocol, end)));
      AddExpr(Cmp(Eq, port));
      Close(Port(protocol, end, port));
    }

    method CheckEndpoint(end: End, endpoint: Endpoint)
      requires IsOpen()
      modifies this
      ensures IsOpen()
      ensures checks == old(checks) + [Ip(end, endpoint.ip), Port(endpoint.protocol, end, endpoint.port)]
    {
      CheckIp(end, endpoint.ip);
      CheckPort(endpoint.protocol, end, endpoint.port);
    }

    method CheckL4(proto: nat)
      requires IsOpen()
      modifies this
      ensures IsOpen() && checks == old(checks) + [L4(proto)]
    {
      CheckL4Proto(proto);
      Close(L4(proto));
    }

    /** The bits of the connection state that are also in `ESTABLISHED_BIT` are not all zero. */
    method CheckEstablished()
      requires IsOpen()
      modifies this
      ensures IsOpen() && checks == old(checks) + [Established]
    {
      AddExpr(Ct);
      AddExpr(Bitwise(ESTABLISHED_BIT, 0));
      AddExpr(Cmp(Neq, 0));
      Close(Established);
    }

    method CheckIcmpv6(kind: u8, code: u8)
      requires IsOpen()
      modifies this
      ensures IsOpen() && checks == old(checks) + [Icmpv6(kind, code)]
    {
      CheckL4Proto(IPPROTO_ICMPV6);
      AddExpr(Payload(Icmpv6Type));
      AddExpr(Cmp(Eq, kind));
      AddExpr(Payload(Icmpv6Code));
      AddExpr(Cmp(Eq, code));
      Close(Icmpv6(kind, code));
    }

    method AddVerdict(counters: bool, verdict: Verdict)
      requires IsOpen()
      modifies `exprs
      ensures exprs == CompileRule(counters, RuleSpec(checks, verdict))
    {
      if counters {
        AddExpr(Counter);
      }
      AddExpr(Expr.Verdict(verdict));
    }
  }

  class PolicyBatch {
    const lookup: InterfaceLookup
    /** Whether rules get packet counters, which an environment variable decides. */
    const counters: bool
    var batch: seq<Message>

    /** The rules added to each chain so far. */
    ghost var outRules: seq<RuleSpec>
    ghost var inRules: seq<RuleSpec>

    ghost predicate Valid()
      reads this
    {
      IsBatchOf(batch, counters, outRules, inRules)
    }

    constructor (lookup: InterfaceLookup, counters: bool)
      ensures Valid() && this.lookup == lookup && this.counters == counters
      ensures outRules == [] && inRules == []
    {
      this.lookup := lookup;
      this.counters := counters;
      batch := PREAMBLE;
      outRules, inRules := [], [];
      new;
      RulesOfPreamble(Out);
      RulesOfPreamble(In);
    }

    method Add(rule: Rule, ghost spec: RuleSpec)
      requires Valid() && rule.checks == spec.checks
      requires rule.exprs == CompileRule(counters, RuleSpec(rule.checks, spec.verdict))
      modifies this
      ensures Valid()
      ensures outRules == if rule.chain == Out then old(outRules) + [spec] else old(outRules)
      ensures inRules == if rule.chain == In then old(inRules) + [spec] else old(inRules)
    {
      ExtendBatch(batch, counters, outRules, inRules, rule.chain, spec);
      batch := batch + [AddRule(rule.chain, rule.exprs)];
      if rule.chain == Out {
        outRules := outRules + [spec];
      } else {
        inRules := inRules + [spec];
      }
    }

    /** The outcome of looking up an interface, and the index when there is one. */
    ghost function Looked(iface: string): Result<(), Error> {
      match IfaceIndex(lookup, iface)
      case Ok(_) => Ok(())
      case Err(e) => Err(e)
    }

    ghost function Index(iface: string): nat {
      match IfaceIndex(lookup, iface)
      case Ok(index) => index
      case Err(_) => 0
    }

    method AllowInterfaceRule(direction: Direction, iface: string) returns (r: Result<Rule, Error>)
      ensures r.Ok? <==> IfaceIndex(lookup, iface).Ok?
      ensures r.Err? ==> r.error == IfaceIndex(lookup, iface).error
      ensures r.Ok? ==>
        && r.value.chain == direction && r.value.checks == [Iface(direction, IfaceIndex(lookup, iface).value)]
        && r.value.exprs == CompileRule(counters, RuleSpec(r.value.checks, Accept))
    {
      var rule := new Rule(direction);
      var check := rule.CheckIface(lookup, direction, iface);
      if check.Err? {
        return Err(check.error);
      }
      rule.AddVerdict(counters, Accept);
      r := Ok(rule);
    }

    method AddInterfaceRules(iface: string) returns (r: Result<(), Error>)
      requires Valid()
      modifies this
      ensures Valid()
      ensures r == Looked(iface)
      ensures r.Ok? ==> outRules == old(outRules) + [InterfaceRule(Index(iface), Out)]
      ensures r.Ok? ==> inRules == old(inRules) + [InterfaceRule(Index(iface), In)]
    {
      var outRule := AllowInterfaceRule(Out, iface);
      if outRule.Err? {
        return Err(outRule.error);
      }
      Add(outRule.value, InterfaceRule(Index(iface), Out));
      var inRule := AllowInterfaceRule(In, iface);
      Add(inRule.value, InterfaceRule(Index(iface), In));
      r := Ok(());
    }

    /** Outgoing DHCPv4 request and incoming response. */
    method AddDhcpv4ClientRules()
      requires Valid()
      modifies this
      ensures Valid()
      ensures outRules == old(outRules) + Dhcpv4ClientRules(Out)
      ensures inRules == old(inRules) + Dhcpv4ClientRules(In)
    {
      AddDhcpv4RequestRule();
      AddDhcpv4ResponseRule();
    }

    method AddDhcpv4RequestRule()
      requires Valid()
      modifies this
      ensures Valid() && inRules == old(inRules)
      ensures outRules == old(outRules) + [DHCPV4_REQUEST_RULE]
    {
      var outV4 := new Rule(Out);
      outV4.CheckPort(Udp, Src, DHCPV4_CLIENT_PORT);
      outV4.CheckIp(Dst, BROADCAST);
      outV4.CheckPort(Udp, Dst, DHCPV4_SERVER_PORT);
      outV4.AddVerdict(counters, Accept);
      Add(outV4, DHCPV4_REQUEST_RULE);
    }

    method AddDhcpv4ResponseRule()
      requires Valid()
      modifies this
      ensures Valid() && outRules == old(outRules)
      ensures inRules == old(inRules) + [DHCPV4_RESPONSE_RULE]
    {
      var inV4 := new Rule(In);
      inV4.CheckPort(Udp, Src, DHCPV4_SERVER_PORT);
      inV4.CheckPort(Udp, Dst, DHCPV4_CLIENT_PORT);
      inV4.AddVerdict(counters, Accept);
      Add(inV4, DHCPV4_RESPONSE_RULE);
    }

    method AddDhcpv6RequestRule(server: IpAddr)
      requires Valid()
      modifies this
      ensures Valid() && inRules == old(inRules)
      ensures outRules == old(outRules) + [Dhcpv6RequestRule(server)]
    {
      var outV6 := new Rule(Out);
      outV6.CheckNet(Src, IPV6_LINK_LOCAL);
      outV6.CheckPort(Udp, Src, DHCPV6_CLIENT_PORT);
      outV6.CheckIp(Dst, server);
      outV6.CheckPort(Udp, Dst, DHCPV6_SERVER_PORT);
      outV6.AddVerdict(counters, Accept);
      Add(outV6, Dhcpv6RequestRule(server));
    }

    /** Outgoing DHCPv6 requests, one rule per server address, and incoming response. */
    method AddDhcpv6ClientRules()
      requires Valid()
      modifies this
      ensures Valid()
      ensures outRules == old(outRules) + Dhcpv6ClientRules(Out)
      ensures inRules == old(inRules) + Dhcpv6ClientRules(In)
    {
      AddDhcpv6RequestRules(DHCPV6_SERVER_ADDRS);
      AddDhcpv6ResponseRule();
    }

    method AddDhcpv6RequestRules(servers: seq<IpAddr>)
      requires Valid()
      modifies this
      ensures Valid() && inRules == old(inRules)
      ensures outRules == old(outRules) + Dhcpv6RequestRules(servers)
    {
      for i := 0 to |servers|
        invariant Valid()
        invariant outRules == old(outRules) + Dhcpv6RequestRules(servers[..i])
        invariant inRules == old(inRules)
      {
        AddDhcpv6RequestRule(servers[i]);
        Dhcpv6RequestRulesStep(old(outRules), servers, i);
      }
      assert servers[..|servers|] == servers;
    }

    method AddDhcpv6ResponseRule()
      requires Valid()
      modifies this
      ensures Valid() && outRules == old(outRules)
      ensures inRules == old(inRules) + [DHCPV6_RESPONSE_RULE]
    {
      var inV6 := new Rule(In);
      inV6.CheckNet(Src, IPV6_LINK_LOCAL);
      inV6.CheckPort(Udp, Src, DHCPV6_SERVER_PORT);
      inV6.CheckNet(Dst, IPV6_LINK_LOCAL);
      inV6.CheckPort(Udp, Dst, DHCPV6_CLIENT_PORT);
      inV6.AddVerdict(counters, Accept);
      Add(inV6, DHCPV6_RESPONSE_RULE);
    }

    /** Incoming ICMPv6 message of one type from a router on the link. */
    method AddRouterMessageRule(kind: u8)
      requires Valid()
      modifies this
      ensures Valid() && outRules == old(outRules)
      ensures inRules == old(inRules) + [RouterMessageRule(kind)]
    {
      var rule := new Rule(In);
      rule.CheckNet(Src, IPV6_LINK_LOCAL);
      rule.CheckIcmpv6(kind, 0);
      rule.AddVerdict(counters, Accept);
      Add(rule, RouterMessageRule(kind));
    }

    /** Outgoing router solicitation, incoming router advertisement and redirect. */
    method AddNdpRules()
      requires Valid()
      modifies this
      ensures Valid()
      ensures outRules == old(outRules) + NdpRules(Out)
      ensures inRules == old(inRules) + NdpRules(In)
    {
      var solicitation := new Rule(Out);
      solicitation.CheckIp(Dst, ROUTER_SOLICITATION_OUT_DST_ADDR);
      solicitation.CheckIcmpv6(133, 0);
      solicitation.AddVerdict(counters, Accept);
      Add(solicitation, SOLICITATION_RULE);
      AddRouterMessageRule(134);
      AddRouterMessageRule(137);
    }

    method AddDhcpClientRules()
      requires Valid()
      modifies this
      ensures Valid()
      ensures outRules == WithDhcpClientRules(old(outRules), Out)
      ensures inRules == WithDhcpClientRules(old(inRules), In)
    {
      AddDhcpv4ClientRules();
      AddDhcpv6ClientRules();
      AddNdpRules();
    }

    method AddAllowEndpointRules(endpoint: Endpoint)
      requires Valid()
      modifies this
      ensures Valid()
      ensures outRules == old(outRules) + [EndpointRule(endpoint, Out)]
      ensures inRules == old(inRules) + [EndpointRule(endpoint, In)]
    {
      var inRule := new Rule(In);
      inRule.CheckEndpoint(Src, endpoint);
      inRule.CheckEstablished();
      inRule.AddVerdict(counters, Accept);
      Add(inRule, EndpointRule(endpoint, In));

      var outRule := new Rule(Out);
      outRule.CheckEndpoint(Dst, endpoint);
      outRule.AddVerdict(counters, Accept);
      Add(outRule, EndpointRule(endpoint, Out));
    }

    method AddAllowIcmpPingableHosts(hosts: seq<IpAddr>)
      requires Valid()
      modifies this
      ensures Valid()
      ensures outRules == old(outRules) + PingRules(hosts, Out)
      ensures inRules == old(inRules) + PingRules(hosts, In)
    {
      for i := 0 to |hosts|
        invariant Valid()
        invariant outRules == old(outRules) + PingRules(hosts[..i], Out)
        invariant inRules == old(inRules) + PingRules(hosts[..i], In)
      {
        AddAllowIcmpPingableHost(hosts[i]);
        PingRulesStep(hosts, i, Out);
        PingRulesStep(hosts, i, In);
      }
      assert hosts[..|hosts|] == hosts;
    }

    method AddAllowIcmpPingableHost(host: IpAddr)
      requires Valid()
      modifies this
      ensures Valid()
      ensures outRules == old(outRules) + [PingRule(host, Out)]
      ensures inRules == old(inRules) + [PingRule(host, In)]
    {
      AddPingOutRule(host);
      AddPingInRule(host);
    }

    method AddPingOutRule(host: IpAddr)
      requires Valid()
      modifies this
      ensures Valid() && inRules == old(inRules)
      ensures outRules == old(outRules) + [PingRule(host, Out)]
    {
      var outRule := new Rule(Out);
      outRule.CheckIp(Dst, host);
      outRule.CheckL4(if host.V4? then IPPROTO_ICMP else IPPROTO_ICMPV6);
      outRule.AddVerdict(counters, Accept);
      Add(outRule, PingRule(host, Out));
    }

    method AddPingInRule(host: IpAddr)
      requires Valid()
      modifies this
      ensures Valid() && outRules == old(outRules)
      ensures inRules == old(inRules) + [PingRule(host, In)]
    {
      var inRule := new Rule(In);
      inRule.CheckIp(Src, host);
      inRule.CheckL4(if host.V4? then IPPROTO_ICMP else IPPROTO_ICMPV6);
      inRule.AddVerdict(counters, Accept);
      Add(inRule, PingRule(host, In));
    }

    method AddAllowDnsRule(interface: string, protocol: TransportProtocol, host: IpAddr) returns (r: Result<(), Error>)
      requires Valid()
      modifies this
      ensures Valid() && inRules == old(inRules)
      ensures r == Looked(interface)
      ensures r.Ok? ==> outRules == old(outRules) + [AllowDnsRule(Index(interface), protocol, host)]
    {
      var allowRule := new Rule(Out);
      r := allowRule.CheckIface(lookup, Out, interface);
      if r.Err? {
        return;
      }
      allowRule.CheckPort(protocol, Dst, DNS_PORT);
      allowRule.CheckIp(Dst, host);
      assert allowRule.checks == AllowDnsRule(Index(interface), protocol, host).checks;
      allowRule.AddVerdict(counters, Accept);
      Add(allowRule, AllowDnsRule(Index(interface), protocol, host));
    }

    method AddDnsRule(tunnel: TunnelMetadata, protocol: TransportProtocol) returns (r: Result<(), Error>)
      requires Valid()
      modifies this
      ensures Valid() && inRules == old(inRules)
      ensures r == Looked(tunnel.interface)
      ensures r.Ok? ==> outRules == WithDnsRules(old(outRules), tunnel, Index(tunnel.interface), protocol)
    {
      r := AddAllowDnsRule(tunnel.interface, protocol, V4(tunnel.ipv4Gateway));
      if r.Err? {
        return;
      }
      if tunnel.ipv6Gateway.Some? {
        r := AddAllowDnsRule(tunnel.interface, protocol, V6(tunnel.ipv6Gateway.value));
        if r.Err? {
          return;
        }
      }
      var blockRule := new Rule(Out);
      blockRule.CheckPort(protocol, Dst, DNS_PORT);
      blockRule.AddVerdict(counters, Drop);
      Add(blockRule, BlockDnsRule(protocol));
    }

    method AddAllowNet(chain: Direction, end: End, net: IpNetwork)
      requires Valid()
      modifies this
      ensures Valid()
      ensures outRules == if chain == Out then old(outRules) + [NetRule(net, end)] else old(outRules)
      ensures inRules == if chain == In then old(inRules) + [NetRule(net, end)] else old(inRules)
    {
      var rule := new Rule(chain);
      rule.CheckNet(end, net);
      rule.AddVerdict(counters, Accept);
      Add(rule, NetRule(net, end));
    }

    method AddAllowNets(chain: Direction, end: End, nets: seq<IpNetwork>)
      requires Valid()
      modifies this
      ensures Valid()
      ensures outRules == if chain == Out then old(outRules) + NetRules(nets, end) else old(outRules)
      ensures inRules == if chain == In then old(inRules) + NetRules(nets, end) else old(inRules)
    {
      ghost var outBefore, inBefore := outRules, inRules;
      assert outBefore + NetRules(nets[..0], end) == outBefore;
      assert inBefore + NetRules(nets[..0], end) == inBefore;
      for i := 0 to |nets|
        invariant Valid()
        invariant outRules == if chain == Out then outBefore + NetRules(nets[..i], end) else outBefore
        invariant inRules == if chain == In then inBefore + NetRules(nets[..i], end) else inBefore
      {
        AddAllowNet(chain, end, nets[i]);
        NetRulesStep(if chain == Out then outBefore else inBefore, nets, i, end);
      }
      assert nets[..|nets|] == nets;
    }

    method AddDhcpServerRules()
      requires Valid()
      modifies this
      ensures Valid()
      ensures outRules == old(outRules) + DhcpServerRules(Out)
      ensures inRules == old(inRules) + DhcpServerRules(In)
    {
      var outV4 := new Rule(Out);
      outV4.CheckPort(Udp, Src, DHCPV4_SERVER_PORT);
      outV4.CheckPort(Udp, Dst, DHCPV4_CLIENT_PORT);
      outV4.AddVerdict(counters, Accept);
      Add(outV4, DHCPV4_RESPONSE_RULE);
      var inV4 := new Rule(In);
      inV4.CheckPort(Udp, Src, DHCPV4_CLIENT_PORT);
      inV4.CheckEndpoint(Dst, Endpoint(BROADCAST, DHCPV4_SERVER_PORT, Udp));
      inV4.AddVerdict(counters, Accept);
      Add(inV4, DHCPV4_REQUEST_RULE);
    }

    method AddAllowLanRules()
      requires Valid()
      modifies this
      ensures Valid()
      ensures outRules == WithLanRules(old(outRules), Out)
      ensures inRules == WithLanRules(old(inRules), In)
    {
      AddAllowNets(Out, Dst, ALLOWED_LAN_NETS);
      AddAllowNets(In, Src, ALLOWED_LAN_NETS);
      AddAllowNets(Out, Dst, ALLOWED_LAN_MULTICAST_NETS);
      AddDhcpServerRules();
    }

    method AddConnectedRules(peer: Endpoint, tunnel: TunnelMetadata) returns (r: Result<(), Error>)
      requires Valid()
      modifies this
      ensures Valid()
      ensures r == Looked(tunnel.interface)
      ensures r.Ok? ==>
        && outRules == WithConnectedRules(old(outRules), peer, tunnel, Index(tunnel.interface), Out)
        && inRules == WithConnectedRules(old(inRules), peer, tunnel, Index(tunnel.interface), In)
    {
      AddAllowEndpointRules(peer);
      r := AddDnsRule(tunnel, Udp);
      if r.Err? {
        return;
      }
      r := AddDnsRule(tunnel, Tcp);
      if r.Err? {
        return;
      }
      r := AddInterfaceRules(tunnel.interface);
    }

    method AddPolicySpecificRules(policy: Policy) returns (r: Result<(), Error>)
      requires Valid()
      modifies this
      ensures Valid()
      ensures r == if policy.Connected? then Looked(policy.tunnel.interface) else Ok(())
      ensures r.Ok? ==>
        var tunnelIndex := if policy.Connected? then Index(policy.tunnel.interface) else 0;
        && outRules == WithSpecificRules(old(outRules), policy, tunnelIndex, Out)
        && inRules == WithSpecificRules(old(inRules), policy, tunnelIndex, In)
    {
      match policy {
        case Connecting(peer, hosts, _) =>
          AddAllowIcmpPingableHosts(hosts);
          AddAllowEndpointRules(peer);
        case Connected(peer, tunnel, _) =>
          r := AddConnectedRules(peer, tunnel);
          if r.Err? {
            return;
          }
        case Blocked(_) =>
      }
      if policy.allowLan {
        AddAllowLanRules();
      }
      r := Ok(());
    }

    method Finalize(policy: Policy) returns (r: Result<seq<Message>, Error>)
      requires Valid() && outRules == [] && inRules == []
      modifies this
      ensures r.Ok? <==> LookupInterfaces(policy, lookup).Ok?
      ensures r.Err? ==> r.error == LookupInterfaces(policy, lookup).error
      ensures r.Ok? ==> IsPolicyBatch(r.value)
      ensures r.Ok? ==> forall d ::
        RulesOf(r.value, d) == CompileRules(counters, PolicyRules(policy, LookupInterfaces(policy, lookup).value, d))
    {
      var added := AddInterfaceRules(LOOPBACK_IFACE_NAME);
      if added.Err? {
        return Err(added.error);
      }
      AddDhcpClientRules();
      added := AddPolicySpecificRules(policy);
      if added.Err? {
        return Err(added.error);
      }
      ghost var ifaces := LookupInterfaces(policy, lookup).value;
      assert outRules == PolicyRules(policy, ifaces, Out);
      assert inRules == PolicyRules(policy, ifaces, In);
      r := Ok(batch);
    }
  }
}
