/**
 The compiled chains let through exactly the packets of the specification.

 The proof goes up one level at a time: a check tests what its name says, a rule reaches its verdict
 exactly when all its checks hold, and a chain decides like the clauses of the prose in order.
 */
module FirewallCorrectness {
  import opened Bits
  import opened Network
  import opened Wrappers
  import opened Nftables
  import opened FirewallPolicy
  import opened FirewallCompiler

  predicate Holds(c: Check, p: Packet) {
    match c
    case Iface(direction, index) => IsOnInterface(direction, p, index)
    case Net(end, net) => HasAddressIn(p, end, net) && IsCanonical(net)
    case Ip(end, ip) => HasAddress(p, end, ip)
    case Port(protocol, end, port) => HasPort(p, protocol, end, port)
    case L4(proto) => p.l4proto == proto
    case Icmpv6(kind, code) => IsIcmpv6(p, kind, code)
    case Established => IsEstablished(p)
  }

  lemma ExecFirst(exprs: seq<Expr>, register: nat, p: Packet)
    requires exprs != []
    ensures Exec(exprs, register, p) == (match Step(exprs[0], register, p)
                                         case Continue(next) => Exec(exprs[1..], next, p)
                                         case end => end)
  {}

  /** Running a list of at least two expressions, the first of which reads the packet's metadata. */
  lemma ProtocolTest(exprs: seq<Expr>, key: MetaKey, operand: nat, register: nat, p: Packet)
    requires |exprs| >= 2 && exprs[0] == Meta(key) && exprs[1] == Cmp(Eq, operand)
    ensures Exec(exprs, register, p) ==
            if ReadMeta(key, p) == operand then Exec(exprs[2..], operand, p) else Break
    ensures (ReadMeta(key, p) == operand ==> ReadsOwnHeaders(exprs[2..], operand, p))
            ==> ReadsOwnHeaders(exprs, register, p)
  {
    assert exprs[1..][1..] == exprs[2..];
  }

  /** A load followed by a comparison. */
  lemma FieldTest(exprs: seq<Expr>, field: Field, operand: nat, register: nat, p: Packet)
    requires |exprs| >= 2 && exprs[0] == Payload(field) && exprs[1] == Cmp(Eq, operand)
    ensures Exec(exprs, register, p) ==
            if Load(p, field) == Some(operand) then Exec(exprs[2..], operand, p) else Break
    ensures Carries(p, field) && (Load(p, field) == Some(operand) ==> ReadsOwnHeaders(exprs[2..], operand, p))
            ==> ReadsOwnHeaders(exprs, register, p)
  {
    assert exprs[1..][1..] == exprs[2..];
  }

  /** A load followed by a mask and a comparison. */
  lemma MaskedFieldTest(field: Field, mask: nat, operand: nat, register: nat, p: Packet)
    ensures var exprs := [Payload(field), Bitwise(mask, 0), Cmp(Eq, operand)];
            && Exec(exprs, register, p) ==
               (if Load(p, field).Some? && And(Load(p, field).value, mask) == operand then Continue(operand) else Break)
            && (Carries(p, field) ==> ReadsOwnHeaders(exprs, register, p))
  {
    var exprs := [Payload(field), Bitwise(mask, 0), Cmp(Eq, operand)];
    assert exprs[1..] == [Bitwise(mask, 0), Cmp(Eq, operand)];
    assert exprs[1..][1..] == [Cmp(Eq, operand)];
    assert exprs[1..][1..][1..] == [];
    if Load(p, field).Some? {
      var masked := And(Load(p, field).value, mask);
      assert Xor(masked, 0) == masked;
      ExecFirst(exprs[1..], Load(p, field).value, p);
      ExecFirst(exprs[1..][1..], masked, p);
      assert ReadsOwnHeaders(exprs[1..][1..], masked, p);
    }
  }

  lemma BigEndianOfTwo(bytes: seq<u8>)
    requires |bytes| == 2
    ensures BigEndian(bytes) == Word(bytes[0], bytes[1])
  {
    assert bytes[..1][..0] == [];
    assert BigEndian(bytes[..1]) == bytes[0];
  }

  lemma BigEndianOfFour(bytes: seq<u8>)
    requires |bytes| == 4
    ensures BigEndian(bytes) == AddressBits(Ipv4(bytes[0], bytes[1], bytes[2], bytes[3]))
  {
    BigEndianOfTwo(bytes[..2]);
    assert bytes[..3][..2] == bytes[..2];
    assert BigEndian(bytes[..3]) == 0x100 * BigEndian(bytes[..2]) + bytes[2];
  }

  /** Loading an address field loads the address, if the packet is of that version. */
  lemma LoadedAddress(p: Packet, end: End, v4: bool)
    requires p.nfproto == if v4 then NFPROTO_IPV4 else NFPROTO_IPV6
    ensures Load(p, AddressField(v4, end)) == (match Address(p, end)
                                               case Some(ip) => Some(AddressBits(ip))
                                               case None => None)
    ensures Address(p, end).Some? ==> Address(p, end).value.V4? == v4
  {
    var octets := Octets(p, end);
    if |octets| == 4 {
      BigEndianOfFour(octets);
    }
  }

  lemma LoadedPort(p: Packet, protocol: TransportProtocol, end: End, port: u16)
    ensures HasPort(p, protocol, end, port) <==>
            p.l4proto == ProtocolNumber(protocol) && Load(p, PortField(protocol, end)) == Some(port)
  {
    var at := if end == Src then 0 else 2;
    if |p.transport| >= at + 2 {
      BigEndianOfTwo(p.transport[at..at + 2]);
    }
  }

  lemma LoadedIcmpv6(p: Packet, kind: u8, code: u8)
    ensures IsIcmpv6(p, kind, code) <==>
            && p.l4proto == IPPROTO_ICMPV6
            && Load(p, Icmpv6Type) == Some(kind) && Load(p, Icmpv6Code) == Some(code)
  {
    if |p.transport| >= 2 {
      BigEndianOfOne(p.transport[0..1]);
      BigEndianOfOne(p.transport[1..2]);
    }
  }

  lemma BigEndianOfOne(bytes: seq<u8>)
    requires |bytes| == 1
    ensures BigEndian(bytes) == bytes[0]
  {}

  lemma AddressMatches(p: Packet, end: End, ip: IpAddr)
    ensures HasAddress(p, end, ip) <==>
            ReadMeta(NfProto, p) == L3Proto(ip) && Load(p, AddressField(ip.V4?, end)) == Some(AddressBits(ip))
  {
    if p.nfproto == L3Proto(ip) {
      LoadedAddress(p, end, ip.V4?);
    }
  }

  lemma NetMatches(p: Packet, end: End, net: IpNetwork)
    requires ReadMeta(NfProto, p) == L3Proto(net.ip)
    ensures var field := AddressField(net.ip.V4?, end);
            HasAddressIn(p, end, net) && IsCanonical(net) <==>
            Load(p, field).Some?
            && And(Load(p, field).value, PrefixMask(Width(net.ip), net.prefix)) == AddressBits(net.ip)
  {
    var field := AddressField(net.ip.V4?, end);
    LoadedIn(p, end, net);
    if Load(p, field).Some? {
      LoadFits(p, field);
      MaskAndCompare(Width(net.ip), net.prefix, Load(p, field).value, AddressBits(net.ip));
    }
  }

  lemma LoadedIn(p: Packet, end: End, net: IpNetwork)
    requires ReadMeta(NfProto, p) == L3Proto(net.ip)
    ensures var loaded, size := Load(p, AddressField(net.ip.V4?, end)), Pow2(Width(net.ip) - net.prefix);
            HasAddressIn(p, end, net) <==> loaded.Some? && loaded.value / size == AddressBits(net.ip) / size
  {
    LoadedAddress(p, end, net.ip.V4?);
  }

  lemma NetCheckMeaning(end: End, net: IpNetwork, register: nat, p: Packet)
    ensures var exprs := CompileCheck(Net(end, net));
            && !Exec(exprs, register, p).Decided? && (Exec(exprs, register, p).Continue? <==> Holds(Net(end, net), p))
            && ReadsOwnHeaders(exprs, register, p)
  {
    var exprs := CompileCheck(Net(end, net));
    var field, mask := AddressField(net.ip.V4?, end), PrefixMask(Width(net.ip), net.prefix);
    assert exprs[2..] == [Payload(field), Bitwise(mask, 0), Cmp(Eq, AddressBits(net.ip))];
    ProtocolTest(exprs, NfProto, L3Proto(net.ip), register, p);
    if ReadMeta(NfProto, p) == L3Proto(net.ip) {
      MaskedFieldTest(field, mask, AddressBits(net.ip), L3Proto(net.ip), p);
      NetMatches(p, end, net);
    }
  }

  lemma Icmpv6CheckMeaning(kind: u8, code: u8, register: nat, p: Packet)
    ensures var exprs := CompileCheck(Icmpv6(kind, code));
            && Exec(exprs, register, p) == (if IsIcmpv6(p, kind, code) then Continue(code) else Break)
            && ReadsOwnHeaders(exprs, register, p)
  {
    var exprs := CompileCheck(Icmpv6(kind, code));
    ProtocolTest(exprs, MetaKey.L4Proto, IPPROTO_ICMPV6, register, p);
    assert exprs[2..][2..] == exprs[4..];
    assert exprs[4..][2..] == [];
    FieldTest(exprs[2..], Icmpv6Type, kind, IPPROTO_ICMPV6, p);
    FieldTest(exprs[4..], Icmpv6Code, code, kind, p);
    LoadedIcmpv6(p, kind, code);
  }

  lemma EstablishedCheckMeaning(register: nat, p: Packet)
    ensures var exprs := CompileCheck(Established);
            && !Exec(exprs, register, p).Decided? && (Exec(exprs, register, p).Continue? <==> IsEstablished(p))
            && ReadsOwnHeaders(exprs, register, p)
  {
    var exprs := CompileCheck(Established);
    var masked := And(p.ctState, ESTABLISHED_BIT);
    assert Xor(masked, 0) == masked;
    assert exprs[1..] == [Bitwise(ESTABLISHED_BIT, 0), Cmp(Neq, 0)] && exprs[1..][1..] == [Cmp(Neq, 0)];
    ExecFirst(exprs[1..], p.ctState, p);
    ExecFirst(exprs[1..][1..], masked, p);
    assert ReadsOwnHeaders(exprs[1..][1..], masked, p);
    AndWithTwo(p.ctState);
  }

  /** A protocol comparison and one field comparison. */
  lemma GuardedFieldTest(
    exprs: seq<Expr>, key: MetaKey, proto: nat, field: Field, operand: nat, register: nat, p: Packet)
    requires exprs == [Meta(key), Cmp(Eq, proto), Payload(field), Cmp(Eq, operand)]
    requires Carries(p, field) <==> ReadMeta(key, p) == proto
    ensures Exec(exprs, register, p) ==
            if ReadMeta(key, p) == proto && Load(p, field) == Some(operand) then Continue(operand) else Break
    ensures ReadsOwnHeaders(exprs, register, p)
  {
    ProtocolTest(exprs, key, proto, register, p);
    FieldTest(exprs[2..], field, operand, proto, p);
    assert exprs[2..][2..] == [];
  }

  /** A compiled check tests its condition, and loads a header field only of a packet that carries it. */
  lemma CheckMeaning(c: Check, register: nat, p: Packet)
    ensures !Exec(CompileCheck(c), register, p).Decided?
    ensures Exec(CompileCheck(c), register, p).Continue? <==> Holds(c, p)
    ensures ReadsOwnHeaders(CompileCheck(c), register, p)
  {
    var exprs := CompileCheck(c);
    match c {
      case Iface(direction, index) =>
        ProtocolTest(exprs, if direction == In then Iif else Oif, index, register, p);
      case Net(end, net) =>
        NetCheckMeaning(end, net, register, p);
      case Ip(end, ip) =>
        GuardedFieldTest(exprs, NfProto, L3Proto(ip), AddressField(ip.V4?, end), AddressBits(ip), register, p);
        AddressMatches(p, end, ip);
      case Port(protocol, end, port) =>
        GuardedFieldTest(exprs, MetaKey.L4Proto, ProtocolNumber(protocol), PortField(protocol, end), port, register, p);
        LoadedPort(p, protocol, end, port);
      case L4(proto) =>
        ProtocolTest(exprs, MetaKey.L4Proto, proto, register, p);
      case Icmpv6(kind, code) =>
        Icmpv6CheckMeaning(kind, code, register, p);
      case Established =>
        EstablishedCheckMeaning(register, p);
    }
  }

  predicate Matches(r: RuleSpec, p: Packet) {
    forall c <- r.checks :: Holds(c, p)
  }

  lemma {:induction false} ChecksMeaning(checks: seq<Check>, register: nat, p: Packet)
    ensures !Exec(CompileChecks(checks), register, p).Decided?
    ensures Exec(CompileChecks(checks), register, p).Continue? <==> forall c <- checks :: Holds(c, p)
    ensures ReadsOwnHeaders(CompileChecks(checks), register, p)
  {
    if checks != [] {
      var init, last := checks[..|checks| - 1], checks[|checks| - 1];
      assert checks == init + [last];
      ChecksMeaning(init, register, p);
      ExecConcat(CompileChecks(init), CompileCheck(last), register, p);
      var middle := Exec(CompileChecks(init), register, p);
      if middle.Continue? {
        CheckMeaning(last, middle.register, p);
      }
      ReadsConcat(CompileChecks(init), CompileCheck(last), register, p);
    }
  }

  /** A compiled rule reaches its verdict exactly on the packets that meet all its checks. */
  lemma RuleMeaning(counters: bool, r: RuleSpec, p: Packet)
    ensures Exec(CompileRule(counters, r), 0, p) == if Matches(r, p) then Decided(r.verdict) else Break
    ensures ReadsOwnHeaders(CompileRule(counters, r), 0, p)
  {
    ChecksMeaning(r.checks, 0, p);
    var tail := CompileVerdict(counters, r.verdict);
    ExecConcat(CompileChecks(r.checks), tail, 0, p);
    var middle := Exec(CompileChecks(r.checks), 0, p);
    if middle.Continue? {
      if counters {
        assert tail[1..] == [Expr.Verdict(r.verdict)];
      }
      assert Exec(tail, middle.register, p) == Decided(r.verdict);
      assert ReadsOwnHeaders(tail, middle.register, p);
    }
    ReadsConcat(CompileChecks(r.checks), tail, 0, p);
  }

  // ----- Chains -----

  /** What a first-match chain of these rules decides. */
  function Decide(rs: seq<RuleSpec>, p: Packet): Option<Verdict> {
    if rs == [] then None
    else Then(Decide(rs[..|rs| - 1], p), Matches(rs[|rs| - 1], p), rs[|rs| - 1].verdict)
  }

  /** An earlier decision stands; otherwise a packet that meets the test gets the verdict. */
  function Then(earlier: Option<Verdict>, test: bool, verdict: Verdict): Option<Verdict> {
    if earlier.Some? then earlier else if test then Some(verdict) else None
  }

  lemma {:induction false} FirstMatchSnoc(rules: seq<seq<Expr>>, last: seq<Expr>, p: Packet)
    ensures FirstMatch(rules + [last], p) ==
            Then(FirstMatch(rules, p), Exec(last, 0, p).Decided?,
                 if Exec(last, 0, p).Decided? then Exec(last, 0, p).verdict else Drop)
  {
    if rules == [] {
      assert (rules + [last])[1..] == [];
    } else {
      assert (rules + [last])[1..] == rules[1..] + [last];
      FirstMatchSnoc(rules[1..], last, p);
    }
  }

  lemma CompileRulesSnoc(counters: bool, rs: seq<RuleSpec>)
    requires rs != []
    ensures CompileRules(counters, rs) ==
            CompileRules(counters, rs[..|rs| - 1]) + [CompileRule(counters, rs[|rs| - 1])]
  {}

  lemma {:induction false} ChainMeaning(counters: bool, rs: seq<RuleSpec>, p: Packet)
    ensures FirstMatch(CompileRules(counters, rs), p) == Decide(rs, p)
  {
    if rs != [] {
      var init, last := rs[..|rs| - 1], rs[|rs| - 1];
      ChainMeaning(counters, init, p);
      RuleMeaning(counters, last, p);
      CompileRulesSnoc(counters, rs);
      FirstMatchSnoc(CompileRules(counters, init), CompileRule(counters, last), p);
    }
  }

  lemma DecideSnoc(before: seq<RuleSpec>, r: RuleSpec, p: Packet)
    ensures Decide(before + [r], p) == Then(Decide(before, p), Matches(r, p), r.verdict)
  {
    assert (before + [r])[..|before|] == before;
  }

  /** Appending accepting rules accepts what any of them matches. */
  lemma {:induction false} DecideAccepting(before: seq<RuleSpec>, rs: seq<RuleSpec>, p: Packet)
    requires forall r <- rs :: r.verdict == Accept
    ensures Decide(before + rs, p) == Then(Decide(before, p), exists r <- rs :: Matches(r, p), Accept)
  {
    if rs == [] {
      assert before + rs == before;
    } else {
      var init, last := rs[..|rs| - 1], rs[|rs| - 1];
      assert last in rs && forall r <- init :: r in rs;
      DecideAccepting(before, init, p);
      OneMoreAccepting(before, init, last, p);
      assert rs == init + [last];
    }
  }

  lemma OneMoreAccepting(before: seq<RuleSpec>, init: seq<RuleSpec>, last: RuleSpec, p: Packet)
    requires Decide(before + init, p) == Then(Decide(before, p), exists r <- init :: Matches(r, p), Accept)
    requires last.verdict == Accept
    ensures Decide(before + (init + [last]), p) ==
            Then(Decide(before, p), exists r <- init + [last] :: Matches(r, p), Accept)
  {
    assert before + (init + [last]) == before + init + [last];
    DecideSnoc(before + init, last, p);
    SomeMatchesSnoc(init, last, p);
  }

  lemma SomeMatchesSnoc(init: seq<RuleSpec>, last: RuleSpec, p: Packet)
    ensures (exists r <- init + [last] :: Matches(r, p)) <==> (exists r <- init :: Matches(r, p)) || Matches(last, p)
  {
    assert last in init + [last];
  }

  // ----- Clause by clause -----

  lemma LinkLocalIsCanonical()
    ensures IsCanonical(IPV6_LINK_LOCAL)
  {
    PowersOfV6();
    DivisionIsUnique(AddressBits(IPV6_LINK_LOCAL.ip), Pow2(118), 0x3fa, 0);
  }

  lemma MultipleIsCanonical(net: IpNetwork, q: nat, hostSize: nat)
    requires Pow2(HostBits(net)) == hostSize && AddressBits(net.ip) == q * hostSize
    ensures IsCanonical(net)
  {
    DivisionIsUnique(AddressBits(net.ip), hostSize, q, 0);
  }

  lemma LanNetsAreCanonical()
    ensures forall net <- ALLOWED_LAN_NETS :: IsCanonical(net)
  {
    LinkLocalIsCanonical();
    PowersOfV4();
    MultipleIsCanonical(ALLOWED_LAN_NETS[0], 10, 0x100_0000);
    MultipleIsCanonical(ALLOWED_LAN_NETS[1], 172 * 16 + 1, 0x10_0000);
    MultipleIsCanonical(ALLOWED_LAN_NETS[2], 192 * 256 + 168, 0x1_0000);
    MultipleIsCanonical(ALLOWED_LAN_NETS[3], 169 * 256 + 254, 0x1_0000);
  }

  lemma LanMulticastNetsAreCanonical()
    ensures forall net <- ALLOWED_LAN_MULTICAST_NETS :: IsCanonical(net)
  {
    PowersOfV4();
    PowersOfV6();
    MultipleIsCanonical(ALLOWED_LAN_MULTICAST_NETS[0], 224 * 0x1_0000, 0x100);
    MultipleIsCanonical(ALLOWED_LAN_MULTICAST_NETS[3], 0xff02, 0x1_0000_0000_0000_0000_0000_0000_0000);
    MultipleIsCanonical(ALLOWED_LAN_MULTICAST_NETS[4], 0xff05, 0x1_0000_0000_0000_0000_0000_0000_0000);
  }

  lemma MatchesOne(a: Check, v: Verdict, p: Packet)
    ensures Matches(RuleSpec([a], v), p) <==> Holds(a, p)
  {
    assert RuleSpec([a], v).checks[0] == a;
  }

  lemma MatchesTwo(a: Check, b: Check, v: Verdict, p: Packet)
    ensures Matches(RuleSpec([a, b], v), p) <==> Holds(a, p) && Holds(b, p)
  {
    var checks := RuleSpec([a, b], v).checks;
    assert checks[0] == a && checks[1] == b;
  }

  lemma MatchesThree(a: Check, b: Check, c: Check, v: Verdict, p: Packet)
    ensures Matches(RuleSpec([a, b, c], v), p) <==> Holds(a, p) && Holds(b, p) && Holds(c, p)
  {
    var checks := RuleSpec([a, b, c], v).checks;
    assert checks[0] == a && checks[1] == b && checks[2] == c;
  }

  lemma MatchesFour(a: Check, b: Check, c: Check, d: Check, v: Verdict, p: Packet)
    ensures Matches(RuleSpec([a, b, c, d], v), p) <==> Holds(a, p) && Holds(b, p) && Holds(c, p) && Holds(d, p)
  {
    var checks := RuleSpec([a, b, c, d], v).checks;
    assert checks[0] == a && checks[1] == b && checks[2] == c && checks[3] == d;
  }

  predicate IsDhcpv4Request(p: Packet) {
    && HasPort(p, Udp, Src, DHCPV4_CLIENT_PORT)
    && HasAddress(p, Dst, BROADCAST) && HasPort(p, Udp, Dst, DHCPV4_SERVER_PORT)
  }

  predicate IsDhcpv4Response(p: Packet) {
    HasPort(p, Udp, Src, DHCPV4_SERVER_PORT) && HasPort(p, Udp, Dst, DHCPV4_CLIENT_PORT)
  }

  lemma Dhcpv4Meaning(p: Packet)
    ensures Matches(DHCPV4_REQUEST_RULE, p) <==> IsDhcpv4Request(p)
    ensures Matches(DHCPV4_RESPONSE_RULE, p) <==> IsDhcpv4Response(p)
  {
    MatchesThree(Port(Udp, Src, DHCPV4_CLIENT_PORT), Ip(Dst, BROADCAST), Port(Udp, Dst, DHCPV4_SERVER_PORT), Accept, p);
    MatchesTwo(Port(Udp, Src, DHCPV4_SERVER_PORT), Port(Udp, Dst, DHCPV4_CLIENT_PORT), Accept, p);
  }

  predicate IsDhcpv6Request(p: Packet, server: IpAddr) {
    && HasAddressIn(p, Src, IPV6_LINK_LOCAL) && HasPort(p, Udp, Src, DHCPV6_CLIENT_PORT)
    && HasAddress(p, Dst, server) && HasPort(p, Udp, Dst, DHCPV6_SERVER_PORT)
  }

  lemma Dhcpv6RequestsMeaning(servers: seq<IpAddr>, p: Packet)
    ensures (exists r <- Dhcpv6RequestRules(servers) :: Matches(r, p)) <==>
            exists server <- servers :: IsDhcpv6Request(p, server)
  {
    LinkLocalIsCanonical();
    var rules := Dhcpv6RequestRules(servers);
    forall i | 0 <= i < |servers|
      ensures Matches(rules[i], p) <==> IsDhcpv6Request(p, servers[i])
    {
      MatchesFour(Net(Src, IPV6_LINK_LOCAL), Port(Udp, Src, DHCPV6_CLIENT_PORT),
                  Ip(Dst, servers[i]), Port(Udp, Dst, DHCPV6_SERVER_PORT), Accept, p);
    }
    if exists server <- servers :: IsDhcpv6Request(p, server) {
      var i :| 0 <= i < |servers| && IsDhcpv6Request(p, servers[i]);
      assert rules[i] in rules;
    }
  }

  lemma Dhcpv6ResponseMeaning(p: Packet)
    ensures Matches(DHCPV6_RESPONSE_RULE, p) <==>
            && HasAddressIn(p, Src, IPV6_LINK_LOCAL) && HasPort(p, Udp, Src, DHCPV6_SERVER_PORT)
            && HasAddressIn(p, Dst, IPV6_LINK_LOCAL) && HasPort(p, Udp, Dst, DHCPV6_CLIENT_PORT)
  {
    LinkLocalIsCanonical();
    MatchesFour(Net(Src, IPV6_LINK_LOCAL), Port(Udp, Src, DHCPV6_SERVER_PORT),
                Net(Dst, IPV6_LINK_LOCAL), Port(Udp, Dst, DHCPV6_CLIENT_PORT), Accept, p);
  }

  lemma NdpMeaning(before: seq<RuleSpec>, d: Direction, p: Packet)
    ensures Decide(before + NdpRules(d), p) == Then(Decide(before, p), IsNdp(d, p), Accept)
  {
    if d == Out {
      DecideSnoc(before, SOLICITATION_RULE, p);
      MatchesTwo(Ip(Dst, ROUTER_SOLICITATION_OUT_DST_ADDR), Icmpv6(133, 0), Accept, p);
    } else {
      var advertisement, redirect := RouterMessageRule(134), RouterMessageRule(137);
      assert before + NdpRules(d) == before + [advertisement] + [redirect];
      DecideSnoc(before, advertisement, p);
      DecideSnoc(before + [advertisement], redirect, p);
      RouterMessageMeaning(134, p);
      RouterMessageMeaning(137, p);
    }
  }

  lemma RouterMessageMeaning(kind: u8, p: Packet)
    ensures Matches(RouterMessageRule(kind), p) <==> HasAddressIn(p, Src, IPV6_LINK_LOCAL) && IsIcmpv6(p, kind, 0)
  {
    LinkLocalIsCanonical();
    MatchesTwo(Net(Src, IPV6_LINK_LOCAL), Icmpv6(kind, 0), Accept, p);
  }

  lemma DhcpClientMeaning(before: seq<RuleSpec>, d: Direction, p: Packet)
    ensures Decide(WithDhcpClientRules(before, d), p) ==
            Then(Decide(before, p), IsDhcpClientTraffic(d, p) || IsNdp(d, p), Accept)
  {
    var withV4 := before + Dhcpv4ClientRules(d);
    Dhcpv4ClientMeaning(before, d, p);
    Dhcpv6ClientMeaning(withV4, d, p);
    NdpMeaning(withV4 + Dhcpv6ClientRules(d), d, p);
  }

  predicate IsDhcpv4ClientTraffic(d: Direction, p: Packet) {
    if d == Out then IsDhcpv4Request(p) else IsDhcpv4Response(p)
  }

  predicate IsDhcpv6ClientTraffic(d: Direction, p: Packet) {
    if d == Out then exists server <- DHCPV6_SERVER_ADDRS :: IsDhcpv6Request(p, server)
    else
      && HasAddressIn(p, Src, IPV6_LINK_LOCAL) && HasPort(p, Udp, Src, DHCPV6_SERVER_PORT)
      && HasAddressIn(p, Dst, IPV6_LINK_LOCAL) && HasPort(p, Udp, Dst, DHCPV6_CLIENT_PORT)
  }

  lemma Dhcpv4ClientMeaning(before: seq<RuleSpec>, d: Direction, p: Packet)
    ensures Decide(before + Dhcpv4ClientRules(d), p) == Then(Decide(before, p), IsDhcpv4ClientTraffic(d, p), Accept)
  {
    DecideSnoc(before, if d == Out then DHCPV4_REQUEST_RULE else DHCPV4_RESPONSE_RULE, p);
    Dhcpv4Meaning(p);
  }

  lemma Dhcpv6ClientMeaning(before: seq<RuleSpec>, d: Direction, p: Packet)
    ensures Decide(before + Dhcpv6ClientRules(d), p) == Then(Decide(before, p), IsDhcpv6ClientTraffic(d, p), Accept)
  {
    if d == Out {
      DecideAccepting(before, Dhcpv6ClientRules(d), p);
      Dhcpv6RequestsMeaning(DHCPV6_SERVER_ADDRS, p);
    } else {
      DecideSnoc(before, DHCPV6_RESPONSE_RULE, p);
      Dhcpv6ResponseMeaning(p);
    }
  }

  lemma NetsMeaning(before: seq<RuleSpec>, nets: seq<IpNetwork>, end: End, p: Packet)
    requires forall net <- nets :: IsCanonical(net)
    ensures Decide(before + NetRules(nets, end), p) ==
            Then(Decide(before, p), exists net <- nets :: HasAddressIn(p, end, net), Accept)
  {
    var rules := NetRules(nets, end);
    DecideAccepting(before, rules, p);
    forall i | 0 <= i < |nets|
      ensures Matches(rules[i], p) <==> HasAddressIn(p, end, nets[i])
    {
      MatchesOne(Net(end, nets[i]), Accept, p);
    }
    if exists net <- nets :: HasAddressIn(p, end, net) {
      var i :| 0 <= i < |nets| && HasAddressIn(p, end, nets[i]);
      assert rules[i] in rules;
    }
  }

  lemma LanMeaning(before: seq<RuleSpec>, d: Direction, p: Packet)
    ensures Decide(WithLanRules(before, d), p) == Then(Decide(before, p), IsLan(d, p), Accept)
  {
    LanNetsAreCanonical();
    LanMulticastNetsAreCanonical();
    match d {
      case Out => LanOutMeaning(before, ALLOWED_LAN_NETS, ALLOWED_LAN_MULTICAST_NETS, p);
      case In => LanInMeaning(before, ALLOWED_LAN_NETS, p);
    }
  }

  lemma LanOutMeaning(before: seq<RuleSpec>, nets: seq<IpNetwork>, multicast: seq<IpNetwork>, p: Packet)
    requires (forall net <- nets :: IsCanonical(net)) && (forall net <- multicast :: IsCanonical(net))
    ensures Decide(before + NetRules(nets, Dst) + NetRules(multicast, Dst) + DhcpServerRules(Out), p) ==
            Then(Decide(before, p),
                 || (exists net <- nets :: HasAddressIn(p, Dst, net))
                 || (exists net <- multicast :: HasAddressIn(p, Dst, net))
                 || IsDhcpv4Response(p), Accept)
  {
    Dhcpv4Meaning(p);
    NetsMeaning(before, nets, Dst, p);
    NetsMeaning(before + NetRules(nets, Dst), multicast, Dst, p);
    DecideSnoc(before + NetRules(nets, Dst) + NetRules(multicast, Dst), DHCPV4_RESPONSE_RULE, p);
  }

  lemma LanInMeaning(before: seq<RuleSpec>, nets: seq<IpNetwork>, p: Packet)
    requires forall net <- nets :: IsCanonical(net)
    ensures Decide(before + NetRules(nets, Src) + DhcpServerRules(In), p) ==
            Then(Decide(before, p), (exists net <- nets :: HasAddressIn(p, Src, net)) || IsDhcpv4Request(p), Accept)
  {
    Dhcpv4Meaning(p);
    NetsMeaning(before, nets, Src, p);
    DecideSnoc(before + NetRules(nets, Src), DHCPV4_REQUEST_RULE, p);
  }

  lemma PingMeaning(before: seq<RuleSpec>, hosts: seq<IpAddr>, d: Direction, p: Packet)
    ensures Decide(before + PingRules(hosts, d), p) == Then(Decide(before, p), IsPing(hosts, d, p), Accept)
  {
    var rules := PingRules(hosts, d);
    DecideAccepting(before, rules, p);
    forall i | 0 <= i < |hosts| ensures Matches(rules[i], p) <==> IsPing([hosts[i]], d, p) {
      PingRuleMeaning(hosts[i], d, p);
    }
    assert IsPing(hosts, d, p) <==> exists i | 0 <= i < |hosts| :: IsPing([hosts[i]], d, p) by {
      PingOfSome(hosts, d, p);
    }
    assert forall i | 0 <= i < |hosts| :: rules[i] in rules;
  }

  lemma PingRuleMeaning(host: IpAddr, d: Direction, p: Packet)
    ensures Matches(PingRule(host, d), p) <==> IsPing([host], d, p)
  {
    MatchesTwo(Ip(if d == Out then Dst else Src, host),
               L4(if host.V4? then IPPROTO_ICMP else IPPROTO_ICMPV6), Accept, p);
    assert [host][0] == host;
  }

  lemma PingOfSome(hosts: seq<IpAddr>, d: Direction, p: Packet)
    ensures IsPing(hosts, d, p) <==> exists i | 0 <= i < |hosts| :: IsPing([hosts[i]], d, p)
  {
    forall i | 0 <= i < |hosts| ensures IsPing([hosts[i]], d, p) ==> IsPing(hosts, d, p) {
      assert hosts[i] in hosts;
    }
    if IsPing(hosts, d, p) {
      var host :| host in hosts && IsPing([host], d, p) by {
        var host :| host in hosts && HasAddress(p, if d == Out then Dst else Src, host) &&
                    p.l4proto == (if host.V4? then IPPROTO_ICMP else IPPROTO_ICMPV6);
        assert host in [host];
      }
    }
  }

  lemma PeerMeaning(before: seq<RuleSpec>, peer: Endpoint, d: Direction, p: Packet)
    ensures Decide(before + [EndpointRule(peer, d)], p) == Then(Decide(before, p), IsPeerTraffic(peer, d, p), Accept)
  {
    DecideSnoc(before, EndpointRule(peer, d), p);
    MatchesTwo(Ip(Dst, peer.ip), Port(peer.protocol, Dst, peer.port), Accept, p);
    MatchesThree(Ip(Src, peer.ip), Port(peer.protocol, Src, peer.port), Established, Accept, p);
  }

  lemma InterfaceMeaning(before: seq<RuleSpec>, index: nat, d: Direction, p: Packet)
    ensures Decide(before + [InterfaceRule(index, d)], p) ==
            Then(Decide(before, p), IsOnInterface(d, p, index), Accept)
  {
    DecideSnoc(before, InterfaceRule(index, d), p);
    MatchesOne(Iface(d, index), Accept, p);
  }

  /** DNS over one protocol: through to a gateway in the tunnel, dropped everywhere else. */
  lemma DnsMeaning(before: seq<RuleSpec>, tunnel: TunnelMetadata, index: nat, protocol: TransportProtocol, p: Packet)
    ensures Decide(WithDnsRules(before, tunnel, index, protocol), p) ==
            Then(Decide(before, p), HasPort(p, protocol, Dst, DNS_PORT),
                 if p.oif == index && IsToGateway(tunnel, p) then Accept else Drop)
  {
    AllowDnsMeaning(before, index, protocol, V4(tunnel.ipv4Gateway), p);
    var withAllowed := before + [AllowDnsRule(index, protocol, V4(tunnel.ipv4Gateway))];
    if tunnel.ipv6Gateway.Some? {
      AllowDnsMeaning(withAllowed, index, protocol, V6(tunnel.ipv6Gateway.value), p);
      withAllowed := withAllowed + [AllowDnsRule(index, protocol, V6(tunnel.ipv6Gateway.value))];
    }
    BlockDnsMeaning(withAllowed, protocol, p);
  }

  lemma AllowDnsMeaning(before: seq<RuleSpec>, index: nat, protocol: TransportProtocol, host: IpAddr, p: Packet)
    ensures Decide(before + [AllowDnsRule(index, protocol, host)], p) ==
            Then(Decide(before, p),
                 p.oif == index && HasPort(p, protocol, Dst, DNS_PORT) && HasAddress(p, Dst, host), Accept)
  {
    DecideSnoc(before, AllowDnsRule(index, protocol, host), p);
    MatchesThree(Iface(Out, index), Port(protocol, Dst, DNS_PORT), Ip(Dst, host), Accept, p);
  }

  lemma BlockDnsMeaning(before: seq<RuleSpec>, protocol: TransportProtocol, p: Packet)
    ensures Decide(before + [BlockDnsRule(protocol)], p) ==
            Then(Decide(before, p), HasPort(p, protocol, Dst, DNS_PORT), Drop)
  {
    DecideSnoc(before, BlockDnsRule(protocol), p);
    MatchesOne(Port(protocol, Dst, DNS_PORT), Drop, p);
  }

  lemma ConnectedMeaning(
    before: seq<RuleSpec>, peer: Endpoint, tunnel: TunnelMetadata, index: nat, d: Direction, p: Packet)
    requires Decide(before, p) != Some(Drop)
    ensures Decide(WithConnectedRules(before, peer, tunnel, index, d), p) ==
            if Decide(before, p).Some? || IsPeerTraffic(peer, d, p) then Some(Accept)
            else if IsDnsRequest(d, p) then Some(if p.oif == index && IsToGateway(tunnel, p) then Accept else Drop)
            else if IsOnInterface(d, p, index) then Some(Accept)
            else None
  {
    var withPeer := before + [EndpointRule(peer, d)];
    PeerMeaning(before, peer, d, p);
    assert Decide(before, p).Some? ==> Decide(before, p).value == Accept;
    if d == In {
      InterfaceMeaning(withPeer, index, d, p);
    } else {
      var withUdp := WithDnsRules(withPeer, tunnel, index, Udp);
      var withTcp := WithDnsRules(withUdp, tunnel, index, Tcp);
      DnsMeaning(withPeer, tunnel, index, Udp, p);
      DnsMeaning(withUdp, tunnel, index, Tcp, p);
      InterfaceMeaning(withTcp, index, d, p);
      assert WithConnectedRules(before, peer, tunnel, index, d) == withTcp + [InterfaceRule(index, d)];
      assert Decide(withTcp, p) ==
        Then(Decide(withPeer, p), IsDnsRequest(d, p),
             if p.oif == index && IsToGateway(tunnel, p) then Accept else Drop);
    }
  }

  // ----- Theorems about whole policies -----

  /** What the rules of a policy decide before those about the LAN. */
  function DecideSpecific(policy: Policy, ifaces: Interfaces, d: Direction, p: Packet): Option<Verdict> {
    if IsBase(ifaces.loopback, d, p) then Some(Accept)
    else
      match policy
      case Connecting(peer, hosts, _) =>
        if IsPing(hosts, d, p) || IsPeerTraffic(peer, d, p) then Some(Accept) else None
      case Connected(peer, tunnel, _) =>
        if IsPeerTraffic(peer, d, p) then Some(Accept)
        else if IsDnsRequest(d, p) then Some(if p.oif == ifaces.tunnel && IsToGateway(tunnel, p) then Accept else Drop)
        else if IsOnInterface(d, p, ifaces.tunnel) then Some(Accept)
        else None
      case Blocked(_) => None
  }

  lemma SpecificMeaning(policy: Policy, ifaces: Interfaces, d: Direction, p: Packet)
    ensures var base := WithDhcpClientRules([] + [InterfaceRule(ifaces.loopback, d)], d);
            Decide(WithSpecificRules(base, policy.(allowLan := false), ifaces.tunnel, d), p) ==
            DecideSpecific(policy, ifaces, d, p)
  {
    var base := WithDhcpClientRules([] + [InterfaceRule(ifaces.loopback, d)], d);
    BaseMeaning(ifaces.loopback, d, p);
    match policy {
      case Connecting(peer, hosts, _) =>
        ConnectingMeaning(base, peer, hosts, d, p);
      case Connected(peer, tunnel, _) =>
        ConnectedMeaning(base, peer, tunnel, ifaces.tunnel, d, p);
      case Blocked(_) =>
    }
  }

  lemma AllowedIff(policy: Policy, ifaces: Interfaces, d: Direction, p: Packet)
    ensures Then(DecideSpecific(policy, ifaces, d, p), policy.allowLan && IsLan(d, p), Accept) == Some(Accept) <==>
            Allowed(policy, ifaces, d, p)
  {}

  /** A chain with the rules of a policy accepts exactly the packets the specification allows. */
  lemma PolicyMeaning(policy: Policy, ifaces: Interfaces, d: Direction, p: Packet)
    ensures Decide(PolicyRules(policy, ifaces, d), p) == Some(Accept) <==> Allowed(policy, ifaces, d, p)
  {
    var base := WithDhcpClientRules([] + [InterfaceRule(ifaces.loopback, d)], d);
    var specific := WithSpecificRules(base, policy.(allowLan := false), ifaces.tunnel, d);
    assert PolicyRules(policy, ifaces, d) == if policy.allowLan then WithLanRules(specific, d) else specific;
    SpecificMeaning(policy, ifaces, d, p);
    LanMeaning(specific, d, p);
    AllowedIff(policy, ifaces, d, p);
  }

  lemma BaseMeaning(loopback: nat, d: Direction, p: Packet)
    ensures Decide(WithDhcpClientRules([] + [InterfaceRule(loopback, d)], d), p) ==
            if IsBase(loopback, d, p) then Some(Accept) else None
  {
    InterfaceMeaning([], loopback, d, p);
    DhcpClientMeaning([] + [InterfaceRule(loopback, d)], d, p);
  }

  lemma ConnectingMeaning(before: seq<RuleSpec>, peer: Endpoint, hosts: seq<IpAddr>, d: Direction, p: Packet)
    ensures Decide(before + PingRules(hosts, d) + [EndpointRule(peer, d)], p) ==
            Then(Decide(before, p), IsPing(hosts, d, p) || IsPeerTraffic(peer, d, p), Accept)
  {
    PingMeaning(before, hosts, d, p);
    PeerMeaning(before + PingRules(hosts, d), peer, d, p);
  }

  /** The chain as the kernel holds it, with its default policy. */
  function CompiledChain(counters: bool, policy: Policy, ifaces: Interfaces, d: Direction): Chain {
    Chain(Drop, CompileRules(counters, PolicyRules(policy, ifaces, d)))
  }

  /** Compilation preserves meaning: the compiled chain filters like the specification. */
  lemma CompilationIsCorrect(counters: bool, policy: Policy, ifaces: Interfaces, d: Direction, p: Packet)
    ensures Filter(CompiledChain(counters, policy, ifaces, d), p) == Accept <==> Allowed(policy, ifaces, d, p)
  {
    ChainMeaning(counters, PolicyRules(policy, ifaces, d), p);
    PolicyMeaning(policy, ifaces, d, p);
  }

  /** No compiled rule ever reads a field of a header its packet does not have. */
  lemma CompiledRulesReadOwnHeaders(counters: bool, policy: Policy, ifaces: Interfaces, d: Direction, p: Packet)
    ensures forall exprs <- CompiledChain(counters, policy, ifaces, d).rules :: ReadsOwnHeaders(exprs, 0, p)
  {
    var rs := PolicyRules(policy, ifaces, d);
    forall exprs | exprs in CompileRules(counters, rs)
      ensures ReadsOwnHeaders(exprs, 0, p)
    {
      var i :| 0 <= i < |rs| && exprs == CompileRule(counters, rs[i]);
      RuleMeaning(counters, rs[i], p);
    }
  }

  lemma {:induction false} ChecksDoNotCount(checks: seq<Check>)
    ensures Counter !in CompileChecks(checks)
  {
    if checks != [] {
      ChecksDoNotCount(checks[..|checks| - 1]);
      CheckDoesNotCount(checks[|checks| - 1]);
    }
  }

  lemma CheckDoesNotCount(c: Check)
    ensures Counter !in CompileCheck(c)
  {}

  /** Each rule counts its packets, right before its verdict, exactly if counters are asked for. */
  lemma RuleCountsIff(counters: bool, r: RuleSpec)
    ensures var exprs := CompileRule(counters, r);
            && exprs != [] && exprs[|exprs| - 1] == Expr.Verdict(r.verdict)
            && (counters ==> |exprs| >= 2 && exprs[|exprs| - 2] == Counter)
            && (Counter in exprs <==> counters)
  {
    ChecksDoNotCount(r.checks);
    assert counters ==> CompileVerdict(counters, r.verdict)[0] == Counter;
  }

  /** Connecting opens the firewall no less than Blocked. */
  lemma BlockedIsContainedInConnecting(
    counters: bool, peer: Endpoint, hosts: seq<IpAddr>, lan: bool, ifaces: Interfaces, d: Direction, p: Packet)
    requires Filter(CompiledChain(counters, Blocked(lan), ifaces, d), p) == Accept
    ensures Filter(CompiledChain(counters, Connecting(peer, hosts, lan), ifaces, d), p) == Accept
  {
    CompilationIsCorrect(counters, Blocked(lan), ifaces, d, p);
    CompilationIsCorrect(counters, Connecting(peer, hosts, lan), ifaces, d, p);
  }

  /**
   Exactly which packets pass while blocked but not while connected: DNS requests to the local
   network that are not to a gateway through the tunnel.
   */
  lemma LostByConnecting(
    counters: bool, peer: Endpoint, tunnel: TunnelMetadata, lan: bool, ifaces: Interfaces, d: Direction, p: Packet)
    ensures
      && Filter(CompiledChain(counters, Blocked(lan), ifaces, d), p) == Accept
      && Filter(CompiledChain(counters, Connected(peer, tunnel, lan), ifaces, d), p) == Drop
      <==>
      && lan && IsLan(d, p) && IsDnsRequest(d, p)
      && !IsBase(ifaces.loopback, d, p) && !IsPeerTraffic(peer, d, p)
      && !(p.oif == ifaces.tunnel && IsToGateway(tunnel, p))
  {
    CompilationIsCorrect(counters, Blocked(lan), ifaces, d, p);
    CompilationIsCorrect(counters, Connected(peer, tunnel, lan), ifaces, d, p);
  }

  /** While connected, a DNS request that is neither on loopback nor to the peer stays in the tunnel. */
  lemma DnsStaysInTunnel(
    counters: bool, peer: Endpoint, tunnel: TunnelMetadata, lan: bool, ifaces: Interfaces, p: Packet)
    requires IsDnsRequest(Out, p)
    requires p.oif != ifaces.loopback && !IsPeerTraffic(peer, Out, p)
    ensures Filter(CompiledChain(counters, Connected(peer, tunnel, lan), ifaces, Out), p) == Accept <==>
            p.oif == ifaces.tunnel && IsToGateway(tunnel, p)
  {
    CompilationIsCorrect(counters, Connected(peer, tunnel, lan), ifaces, Out, p);
    assert !IsDhcpClientTraffic(Out, p) && !IsNdp(Out, p);
  }
}
