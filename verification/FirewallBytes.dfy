/**
 The policies over raw bytes: which packets a compiled chain lets through, read off the headers with all
 offsets, addresses and ports written out. Nothing here uses the compiler's fields or the constants of
 the policies.
 */
module FirewallBytes {
  import opened Bits
  import opened Network
  import opened Wrappers
  import opened Nftables
  import opened FirewallPolicy
  import opened FirewallCompiler
  import opened FirewallCorrectness
  import opened FirewallKernel

  // ----- Headers -----

  /** The source address: bytes 12 to 15 of an IPv4 header, 8 to 23 of an IPv6 header. */
  function Source(p: Packet): seq<u8> {
    if p.nfproto == 2 && |p.network| >= 16 then p.network[12..16]
    else if p.nfproto == 10 && |p.network| >= 24 then p.network[8..24]
    else []
  }

  /** The destination address: bytes 16 to 19 of an IPv4 header, 24 to 39 of an IPv6 header. */
  function Destination(p: Packet): seq<u8> {
    if p.nfproto == 2 && |p.network| >= 20 then p.network[16..20]
    else if p.nfproto == 10 && |p.network| >= 40 then p.network[24..40]
    else []
  }

  /** The last `length` bytes of a number, most significant first. */
  function ToBytes(n: nat, length: nat): (r: seq<u8>)
    ensures |r| == length
  {
    if length == 0 then [] else ToBytes(n / 0x100, length - 1) + [n % 0x100]
  }

  function Bytes(ip: IpAddr): seq<u8> {
    match ip
    case V4(bits) => ToBytes(bits, 4)
    case V6(bits) => ToBytes(bits, 16)
  }

  predicate IsFrom(p: Packet, protocol: TransportProtocol, port: u16) {
    && p.l4proto == (match protocol case Udp => 17 case Tcp => 6)
    && |p.transport| >= 2 && p.transport[..2] == ToBytes(port, 2)
  }

  predicate IsTo(p: Packet, protocol: TransportProtocol, port: u16) {
    && p.l4proto == (match protocol case Udp => 17 case Tcp => 6)
    && |p.transport| >= 4 && p.transport[2..4] == ToBytes(port, 2)
  }

  /** The packet is UDP, between these ports. */
  predicate IsUdp(p: Packet, source: u16, destination: u16) {
    IsFrom(p, Udp, source) && IsTo(p, Udp, destination)
  }

  /** The packet is ICMPv6, of this type and with code 0. */
  predicate IsRouterMessage(p: Packet, kind: u8) {
    p.l4proto == 58 && |p.transport| >= 2 && p.transport[..2] == [kind, 0]
  }

  // ----- Addresses -----

  /** fe80::/10. */
  predicate IsLinkLocal(o: seq<u8>) {
    |o| == 16 && o[0] == 0xfe && 0x80 <= o[1] < 0xc0
  }

  /** 10.0.0.0/8, 172.16.0.0/12, 192.168.0.0/16, 169.254.0.0/16 and fe80::/10. */
  predicate IsLocal(o: seq<u8>) {
    || (|o| == 4 && (|| o[0] == 10
                     || (o[0] == 172 && 16 <= o[1] < 32)
                     || (o[0] == 192 && o[1] == 168)
                     || (o[0] == 169 && o[1] == 254)))
    || IsLinkLocal(o)
  }

  /** 224.0.0.0/24, 239.255.255.250, 239.255.255.251, ff02::/16 and ff05::/16. */
  predicate IsMulticast(o: seq<u8>) {
    || (|o| == 4 && (o[..3] == [224, 0, 0] || o == [239, 255, 255, 250] || o == [239, 255, 255, 251]))
    || (|o| == 16 && o[0] == 0xff && (o[1] == 2 || o[1] == 5))
  }

  /** `first` and the last two groups, with zeros between: an address such as ff02::1:2. */
  function Groups(a: u8, b: u8, seventh: u8, eighth: u8): seq<u8> {
    [a, b] + Zeros(10) + [0, seventh, 0, eighth]
  }

  function Zeros(n: nat): (r: seq<u8>)
    ensures |r| == n
  {
    seq(n, _ => 0)
  }

  // ----- What passes -----

  predicate DhcpPasses(d: Direction, p: Packet) {
    match d
    case Out =>
      || (IsUdp(p, 68, 67) && Destination(p) == [255, 255, 255, 255])
      || (&& IsLinkLocal(Source(p)) && IsUdp(p, 546, 547)
          && (Destination(p) == Groups(0xff, 2, 1, 2) || Destination(p) == Groups(0xff, 5, 1, 3)))
    case In => IsUdp(p, 67, 68) || (IsLinkLocal(Source(p)) && IsLinkLocal(Destination(p)) && IsUdp(p, 547, 546))
  }

  predicate NdpPasses(d: Direction, p: Packet) {
    match d
    case Out => Destination(p) == Groups(0xff, 2, 0, 2) && IsRouterMessage(p, 133)
    case In => IsLinkLocal(Source(p)) && (IsRouterMessage(p, 134) || IsRouterMessage(p, 137))
  }

  predicate BasePasses(loopback: nat, d: Direction, p: Packet) {
    (match d case Out => p.oif case In => p.iif) == loopback || DhcpPasses(d, p) || NdpPasses(d, p)
  }

  predicate LanPasses(d: Direction, p: Packet) {
    match d
    case Out => IsLocal(Destination(p)) || IsMulticast(Destination(p)) || IsUdp(p, 67, 68)
    case In => IsLocal(Source(p)) || (IsUdp(p, 68, 67) && Destination(p) == [255, 255, 255, 255])
  }

  predicate PeerPasses(peer: Endpoint, d: Direction, p: Packet) {
    match d
    case Out => Destination(p) == Bytes(peer.ip) && IsTo(p, peer.protocol, peer.port)
    case In => Source(p) == Bytes(peer.ip) && IsFrom(p, peer.protocol, peer.port) && p.ctState / 2 % 2 == 1
  }

  predicate PingPasses(hosts: seq<IpAddr>, d: Direction, p: Packet) {
    exists host <- hosts ::
      && (match d case Out => Destination(p) case In => Source(p)) == Bytes(host)
      && p.l4proto == (match host case V4(_) => 1 case V6(_) => 58)
  }

  predicate IsDns(p: Packet) {
    IsTo(p, Udp, 53) || IsTo(p, Tcp, 53)
  }

  predicate IsForGateway(tunnel: TunnelMetadata, p: Packet) {
    || Destination(p) == ToBytes(tunnel.ipv4Gateway, 4)
    || (tunnel.ipv6Gateway.Some? && Destination(p) == ToBytes(tunnel.ipv6Gateway.value, 16))
  }

  predicate Accepted(policy: Policy, loopback: nat, tunnelIndex: nat, d: Direction, p: Packet) {
    BasePasses(loopback, d, p) ||
    match policy
    case Blocked(lan) => lan && LanPasses(d, p)
    case Connecting(peer, hosts, lan) => PeerPasses(peer, d, p) || PingPasses(hosts, d, p) || (lan && LanPasses(d, p))
    case Connected(peer, tunnel, lan) =>
      PeerPasses(peer, d, p) ||
      (match d
       case Out =>
         if IsDns(p) then p.oif == tunnelIndex && IsForGateway(tunnel, p)
         else p.oif == tunnelIndex || (lan && LanPasses(d, p))
       case In => p.iif == tunnelIndex || (lan && LanPasses(d, p)))
  }

  // ----- Bytes and numbers -----

  lemma {:induction false} ToBytesBack(bytes: seq<u8>)
    ensures ToBytes(BigEndian(bytes), |bytes|) == bytes
  {
    if bytes != [] {
      var init, last := bytes[..|bytes| - 1], bytes[|bytes| - 1];
      ToBytesBack(init);
      DivisionIsUnique(BigEndian(bytes), 0x100, BigEndian(init), last);
    }
  }

  lemma BigEndianSnoc(bytes: seq<u8>, last: u8)
    ensures BigEndian(bytes + [last]) == 0x100 * BigEndian(bytes) + last
  {
    assert (bytes + [last])[..|bytes|] == bytes;
  }

  lemma {:induction false} BigEndianBack(n: nat, length: nat)
    requires n < Pow2(8 * length)
    ensures BigEndian(ToBytes(n, length)) == n
  {
    if length > 0 {
      var init := ToBytes(n / 0x100, length - 1);
      PowerOfByte(8 * (length - 1));
      BigEndianBack(n / 0x100, length - 1);
      BigEndianSnoc(init, n % 0x100);
    }
  }

  lemma {:induction false} BigEndianSplit(bytes: seq<u8>, k: nat)
    requires k <= |bytes|
    ensures BigEndian(bytes) == BigEndian(bytes[..k]) * Pow2(8 * (|bytes| - k)) + BigEndian(bytes[k..])
    decreases |bytes| - k
  {
    if k == |bytes| {
      assert bytes[..k] == bytes;
    } else {
      var init := bytes[..|bytes| - 1];
      BigEndianSplit(init, k);
      assert init[..k] == bytes[..k] && init[k..] == bytes[k..][..|bytes| - 1 - k];
      PowerOfByte(8 * (|bytes| - 1 - k));
      ScaledSum(BigEndian(bytes[..k]), Pow2(8 * (|init| - k)), BigEndian(init[k..]));
    }
  }

  lemma ScaledSum(x: nat, y: nat, z: nat)
    ensures 0x100 * (x * y + z) == x * (0x100 * y) + 0x100 * z
  {}

  lemma AddressOfBits(octets: seq<u8>)
    requires |octets| == 4 || |octets| == 16
    ensures AddressBits(AddressOf(octets)) == BigEndian(octets)
  {
    if |octets| == 4 {
      BigEndianOfFour(octets);
    }
  }

  /** An address is read from its bytes, and from no others. */
  lemma BytesIff(octets: seq<u8>, ip: IpAddr)
    requires |octets| == 4 || |octets| == 16
    ensures AddressOf(octets) == ip <==> octets == Bytes(ip)
  {
    AddressOfBits(octets);
    ToBytesBack(octets);
    PowersOfV4();
    PowersOfV6();
    match ip {
      case V4(bits) => BigEndianBack(bits, 4);
      case V6(bits) => BigEndianBack(bits, 16);
    }
  }

  lemma EndsAreOctets(p: Packet)
    ensures Octets(p, Src) == Source(p) && Octets(p, Dst) == Destination(p)
  {}

  /**
   Which bytes each end of a packet is read from: an address matches exactly if the source or
   destination bytes of the header, by the packet's version, are its bytes.
   */
  lemma HasAddressIff(p: Packet, ip: IpAddr)
    ensures HasAddress(p, Src, ip) <==> Source(p) == Bytes(ip)
    ensures HasAddress(p, Dst, ip) <==> Destination(p) == Bytes(ip)
  {
    EndsAreOctets(p);
    if Source(p) != [] {
      BytesIff(Source(p), ip);
    }
    if Destination(p) != [] {
      BytesIff(Destination(p), ip);
    }
  }

  lemma HasPortIff(p: Packet, protocol: TransportProtocol, port: u16)
    ensures HasPort(p, protocol, Src, port) <==> IsFrom(p, protocol, port)
    ensures HasPort(p, protocol, Dst, port) <==> IsTo(p, protocol, port)
  {
    if |p.transport| >= 2 {
      WordIff(p.transport[..2], port);
    }
    if |p.transport| >= 4 {
      WordIff(p.transport[2..4], port);
    }
  }

  lemma WordIff(bytes: seq<u8>, n: u16)
    requires |bytes| == 2
    ensures Word(bytes[0], bytes[1]) == n <==> bytes == ToBytes(n, 2)
  {
    BigEndianOfTwo(bytes);
    ToBytesBack(bytes);
    PowersOfV4();
    BigEndianBack(n, 2);
  }

  // ----- The constants of the policies -----

  lemma {:induction false} ZerosAreNothing(n: nat)
    ensures BigEndian(Zeros(n)) == 0
  {
    if n > 0 {
      assert Zeros(n)[..n - 1] == Zeros(n - 1);
      ZerosAreNothing(n - 1);
    }
  }

  lemma FirstGroup(o: seq<u8>)
    requires |o| == 16
    ensures AddressBits(AddressOf(o)) == Word(o[0], o[1]) * Pow2(112) + BigEndian(o[2..])
  {
    AddressOfBits(o);
    BigEndianSplit(o, 2);
    BigEndianOfTwo(o[..2]);
  }

  /** The last 14 bytes of such an address. */
  lemma LowGroups(low: seq<u8>, seventh: u8, eighth: u8)
    requires low == Zeros(10) + [0, seventh, 0, eighth]
    ensures BigEndian(low) == AddressBits(Ipv4(0, seventh, 0, eighth))
  {
    assert low[..10] == Zeros(10) && low[10..] == [0, seventh, 0, eighth];
    BigEndianSplit(low, 10);
    ZerosAreNothing(10);
    BigEndianOfFour(low[10..]);
  }

  lemma AddressOfGroups(a: u8, b: u8, seventh: u8, eighth: u8)
    ensures AddressOf(Groups(a, b, seventh, eighth)) == Ipv6(Word(a, b), seventh, eighth)
  {
    var o := Groups(a, b, seventh, eighth);
    var low := o[2..];
    assert low == Zeros(10) + [0, seventh, 0, eighth];
    LowGroups(low, seventh, eighth);
    FirstGroup(o);
    PowersOfV6();
    LowBits(seventh, eighth);
  }

  lemma LowBits(seventh: u8, eighth: u8)
    ensures AddressBits(Ipv4(0, seventh, 0, eighth)) == seventh as nat * 0x1_0000 + eighth
  {}

  // ----- Networks -----

  /** What is left of an IPv4 address without the bits after the prefix. */
  function LeadingV4(o: seq<u8>, prefix: nat): nat
    requires |o| == 4 && prefix in {8, 12, 16, 24, 32}
  {
    match prefix
    case 8 => o[0]
    case 12 => 16 * (o[0] as nat) + o[1] / 16
    case 16 => Word(o[0], o[1])
    case 24 => 0x100 * (Word(o[0], o[1]) as nat) + o[2]
    case _ => AddressBits(AddressOf(o))
  }

  lemma LeadingV4Is(o: seq<u8>, prefix: nat)
    requires |o| == 4 && prefix in {8, 12, 16, 24, 32}
    ensures AddressBits(AddressOf(o)) / Pow2(32 - prefix) == LeadingV4(o, prefix)
  {
    PowersOfV4();
    var a: nat, b: nat, c: nat, d: nat := o[0], o[1], o[2], o[3];
    var bits := AddressBits(AddressOf(o));
    match prefix {
      case 8 => DivisionIsUnique(bits, 0x100_0000, a, (b * 0x100 + c) * 0x100 + d);
      case 12 => DivisionIsUnique(bits, 0x10_0000, 16 * a + b / 16, (b % 16 * 0x100 + c) * 0x100 + d);
      case 16 => DivisionIsUnique(bits, 0x1_0000, 0x100 * a + b, c * 0x100 + d);
      case 24 => DivisionIsUnique(bits, 0x100, (a * 0x100 + b) * 0x100 + c, d);
      case _ =>
    }
  }

  lemma SameDigitsIff(x: nat, a: u8, y: nat, b: u8)
    ensures 0x100 * x + a == 0x100 * y + b <==> x == y && a == b
  {}

  lemma SameHighIff(a: u8, b: u8, c: u8, d: u8)
    ensures 16 * (a as nat) + b / 16 == 16 * (c as nat) + d / 16 <==> a == c && b / 16 == d / 16
  {}

  lemma SameLeadingV4Iff(o: seq<u8>, n: seq<u8>, prefix: nat)
    requires |o| == 4 && |n| == 4 && prefix in {8, 12, 16, 24, 32}
    ensures LeadingV4(o, prefix) == LeadingV4(n, prefix) <==>
            && o[0] == n[0]
            && (prefix == 12 ==> o[1] / 16 == n[1] / 16)
            && (prefix >= 16 ==> o[1] == n[1])
            && (prefix >= 24 ==> o[2] == n[2])
            && (prefix == 32 ==> o[3] == n[3])
  {
    SameHighIff(o[0], o[1], n[0], n[1]);
    SameDigitsIff(o[0], o[1], n[0], n[1]);
    SameDigitsIff(Word(o[0], o[1]), o[2], Word(n[0], n[1]), n[2]);
    SameDigitsIff(LeadingV4(o, 24), o[3], LeadingV4(n, 24), n[3]);
    if prefix == 32 {
      LastByte(o);
      LastByte(n);
    }
  }

  lemma LastByte(o: seq<u8>)
    requires |o| == 4
    ensures LeadingV4(o, 32) == 0x100 * LeadingV4(o, 24) + o[3]
  {}

  lemma SameNetworkIff(ip: IpAddr, net: IpNetwork)
    requires ip.V4? == net.ip.V4?
    ensures InNetwork(ip, net) <==>
            AddressBits(ip) / Pow2(Width(ip) - net.prefix) == AddressBits(net.ip) / Pow2(Width(ip) - net.prefix)
  {}

  /** Sharing a network with the address `n`, byte by byte. */
  lemma SameV4NetworkIff(o: seq<u8>, n: seq<u8>, prefix: nat)
    requires |o| == 4 && |n| == 4 && prefix in {8, 12, 16, 24, 32}
    ensures InNetwork(AddressOf(o), NetworkParts(AddressOf(n), prefix)) <==>
            && o[0] == n[0]
            && (prefix == 12 ==> o[1] / 16 == n[1] / 16)
            && (prefix >= 16 ==> o[1] == n[1])
            && (prefix >= 24 ==> o[2] == n[2])
            && (prefix == 32 ==> o[3] == n[3])
  {
    SameNetworkIff(AddressOf(o), NetworkParts(AddressOf(n), prefix));
    LeadingV4Is(o, prefix);
    LeadingV4Is(n, prefix);
    SameLeadingV4Iff(o, n, prefix);
  }

  function LeadingV6(o: seq<u8>, prefix: nat): nat
    requires |o| == 16 && prefix in {10, 16}
  {
    if prefix == 16 then Word(o[0], o[1]) else Word(o[0], o[1]) / 64
  }

  lemma LeadingV6Is(o: seq<u8>, prefix: nat)
    requires |o| == 16 && prefix in {10, 16}
    ensures AddressBits(AddressOf(o)) / Pow2(128 - prefix) == LeadingV6(o, prefix)
  {
    FirstGroup(o);
    PowersOfV6();
    BigEndianFits(o[2..]);
    var bits, word: nat, low: nat, unit: nat :=
      AddressBits(AddressOf(o)), Word(o[0], o[1]), BigEndian(o[2..]), Pow2(112);
    if prefix == 16 {
      DivisionIsUnique(bits, unit, word, low);
    } else {
      DivisionIsUnique(bits, 64 * unit, word / 64, word % 64 * unit + low);
    }
  }

  lemma SameLeadingV6Iff(o: seq<u8>, n: seq<u8>, prefix: nat)
    requires |o| == 16 && |n| == 16 && prefix in {10, 16}
    ensures LeadingV6(o, prefix) == LeadingV6(n, prefix) <==>
            o[0] == n[0] && (if prefix == 16 then o[1] == n[1] else o[1] / 64 == n[1] / 64)
  {
    SameDigitsIff(o[0], o[1], n[0], n[1]);
    SameQuarterIff(o[0], o[1], n[0], n[1]);
  }

  lemma SameQuarterIff(a: u8, b: u8, c: u8, d: u8)
    ensures Word(a, b) / 64 == Word(c, d) / 64 <==> a == c && b / 64 == d / 64
  {
    assert Word(a, b) / 64 == 4 * (a as nat) + b / 64;
    assert Word(c, d) / 64 == 4 * (c as nat) + d / 64;
  }

  lemma SameV6NetworkIff(o: seq<u8>, n: seq<u8>, prefix: nat)
    requires |o| == 16 && |n| == 16 && prefix in {10, 16}
    ensures InNetwork(AddressOf(o), NetworkParts(AddressOf(n), prefix)) <==>
            o[0] == n[0] && (if prefix == 16 then o[1] == n[1] else o[1] / 64 == n[1] / 64)
  {
    SameNetworkIff(AddressOf(o), NetworkParts(AddressOf(n), prefix));
    LeadingV6Is(o, prefix);
    LeadingV6Is(n, prefix);
    SameLeadingV6Iff(o, n, prefix);
  }

  lemma OtherVersion(o: seq<u8>, net: IpNetwork)
    requires (|o| == 4 || |o| == 16) && net.ip.V4? != (|o| == 4)
    ensures !InNetwork(AddressOf(o), net)
  {}

  lemma InLinkLocalIff(o: seq<u8>)
    requires |o| == 4 || |o| == 16
    ensures InNetwork(AddressOf(o), IPV6_LINK_LOCAL) <==> IsLinkLocal(o)
  {
    if |o| == 16 {
      AddressOfGroups(0xfe, 0x80, 0, 0);
      SameV6NetworkIff(o, Groups(0xfe, 0x80, 0, 0), 10);
    } else {
      OtherVersion(o, IPV6_LINK_LOCAL);
    }
  }

  /** In one of five networks. */
  predicate InOneOf(ip: IpAddr, nets: seq<IpNetwork>)
    requires |nets| == 5
  {
    InNetwork(ip, nets[0]) || InNetwork(ip, nets[1]) || InNetwork(ip, nets[2]) || InNetwork(ip, nets[3]) ||
    InNetwork(ip, nets[4])
  }

  lemma InOneOfIff(ip: IpAddr, nets: seq<IpNetwork>)
    requires |nets| == 5
    ensures (exists net <- nets :: InNetwork(ip, net)) <==> InOneOf(ip, nets)
  {
    if net :| net in nets && InNetwork(ip, net) {
      var i :| 0 <= i < 5 && nets[i] == net;
    }
  }

  lemma LanV4(o: seq<u8>)
    requires |o| == 4
    ensures InNetwork(AddressOf(o), ALLOWED_LAN_NETS[0]) <==> o[0] == 10
    ensures InNetwork(AddressOf(o), ALLOWED_LAN_NETS[1]) <==> o[0] == 172 && 16 <= o[1] < 32
    ensures InNetwork(AddressOf(o), ALLOWED_LAN_NETS[2]) <==> o[0] == 192 && o[1] == 168
    ensures InNetwork(AddressOf(o), ALLOWED_LAN_NETS[3]) <==> o[0] == 169 && o[1] == 254
  {
    SameV4NetworkIff(o, [10, 0, 0, 0], 8);
    SameV4NetworkIff(o, [172, 16, 0, 0], 12);
    SameV4NetworkIff(o, [192, 168, 0, 0], 16);
    SameV4NetworkIff(o, [169, 254, 0, 0], 16);
  }

  lemma InLanNetsIff(o: seq<u8>)
    requires |o| == 4 || |o| == 16
    ensures (exists net <- ALLOWED_LAN_NETS :: InNetwork(AddressOf(o), net)) <==> IsLocal(o)
  {
    InOneOfIff(AddressOf(o), ALLOWED_LAN_NETS);
    InLinkLocalIff(o);
    if |o| == 4 {
      LanV4(o);
    } else {
      forall i | 0 <= i < 4 {
        OtherVersion(o, ALLOWED_LAN_NETS[i]);
      }
    }
  }

  lemma InMulticastNetsIff(o: seq<u8>)
    requires |o| == 4 || |o| == 16
    ensures (exists net <- ALLOWED_LAN_MULTICAST_NETS :: InNetwork(AddressOf(o), net)) <==> IsMulticast(o)
  {
    InOneOfIff(AddressOf(o), ALLOWED_LAN_MULTICAST_NETS);
    if |o| == 4 {
      MulticastV4(o);
    } else {
      MulticastV6(o);
    }
  }

  lemma MulticastV4(o: seq<u8>)
    requires |o| == 4
    ensures InNetwork(AddressOf(o), ALLOWED_LAN_MULTICAST_NETS[0]) <==> o[..3] == [224, 0, 0]
    ensures InNetwork(AddressOf(o), ALLOWED_LAN_MULTICAST_NETS[1]) <==> o == [239, 255, 255, 250]
    ensures InNetwork(AddressOf(o), ALLOWED_LAN_MULTICAST_NETS[2]) <==> o == [239, 255, 255, 251]
  {
    SameV4NetworkIff(o, [224, 0, 0, 0], 24);
    SameV4NetworkIff(o, [239, 255, 255, 250], 32);
    SameV4NetworkIff(o, [239, 255, 255, 251], 32);
    assert o == [o[0], o[1], o[2], o[3]] && o[..3] == [o[0], o[1], o[2]];
  }

  lemma MulticastV6(o: seq<u8>)
    requires |o| == 16
    ensures InNetwork(AddressOf(o), ALLOWED_LAN_MULTICAST_NETS[3]) <==> o[0] == 0xff && o[1] == 2
    ensures InNetwork(AddressOf(o), ALLOWED_LAN_MULTICAST_NETS[4]) <==> o[0] == 0xff && o[1] == 5
  {
    InGroupIff(o, 0xff, 2);
    InGroupIff(o, 0xff, 5);
  }

  lemma InGroupIff(o: seq<u8>, a: u8, b: u8)
    requires |o| == 16
    ensures InNetwork(AddressOf(o), NetworkParts(Ipv6(Word(a, b), 0, 0), 16)) <==> o[0] == a && o[1] == b
  {
    AddressOfGroups(a, b, 0, 0);
    SameV6NetworkIff(o, Groups(a, b, 0, 0), 16);
  }

  lemma HasLinkLocalIff(p: Packet)
    ensures HasAddressIn(p, Src, IPV6_LINK_LOCAL) <==> IsLinkLocal(Source(p))
    ensures HasAddressIn(p, Dst, IPV6_LINK_LOCAL) <==> IsLinkLocal(Destination(p))
  {
    EndsAreOctets(p);
    if Source(p) != [] {
      InLinkLocalIff(Source(p));
    }
    if Destination(p) != [] {
      InLinkLocalIff(Destination(p));
    }
  }

  // ----- Clause by clause -----

  lemma UdpInBytes(p: Packet, source: u16, destination: u16)
    ensures HasPort(p, Udp, Src, source) && HasPort(p, Udp, Dst, destination) <==> IsUdp(p, source, destination)
  {
    HasPortIff(p, Udp, source);
    HasPortIff(p, Udp, destination);
  }

  lemma BroadcastInBytes(p: Packet)
    ensures HasAddress(p, Dst, BROADCAST) <==> Destination(p) == [255, 255, 255, 255]
  {
    BytesIff([255, 255, 255, 255], BROADCAST);
    HasAddressIff(p, BROADCAST);
  }

  /** A constant IPv6 address as the destination. */
  lemma GroupsInBytes(p: Packet, a: u8, b: u8, seventh: u8, eighth: u8)
    ensures HasAddress(p, Dst, Ipv6(Word(a, b), seventh, eighth)) <==> Destination(p) == Groups(a, b, seventh, eighth)
  {
    AddressOfGroups(a, b, seventh, eighth);
    BytesIff(Groups(a, b, seventh, eighth), Ipv6(Word(a, b), seventh, eighth));
    HasAddressIff(p, Ipv6(Word(a, b), seventh, eighth));
  }

  lemma Dhcpv6ServersInBytes(p: Packet)
    ensures (exists server <- DHCPV6_SERVER_ADDRS :: HasAddress(p, Dst, server)) <==>
            Destination(p) == Groups(0xff, 2, 1, 2) || Destination(p) == Groups(0xff, 5, 1, 3)
  {
    GroupsInBytes(p, 0xff, 2, 1, 2);
    GroupsInBytes(p, 0xff, 5, 1, 3);
    var servers := DHCPV6_SERVER_ADDRS;
    assert servers[0] == Ipv6(Word(0xff, 2), 1, 2) && servers[1] == Ipv6(Word(0xff, 5), 1, 3);
    assert servers[0] in servers && servers[1] in servers;
  }

  lemma DhcpInBytes(d: Direction, p: Packet)
    ensures IsDhcpClientTraffic(d, p) <==> DhcpPasses(d, p)
  {
    HasLinkLocalIff(p);
    match d {
      case Out =>
        UdpInBytes(p, 68, 67);
        UdpInBytes(p, 546, 547);
        BroadcastInBytes(p);
        Dhcpv6ServersInBytes(p);
      case In =>
        UdpInBytes(p, 67, 68);
        UdpInBytes(p, 547, 546);
    }
  }

  lemma RouterMessageInBytes(p: Packet, kind: u8)
    ensures IsIcmpv6(p, kind, 0) <==> IsRouterMessage(p, kind)
  {}

  lemma NdpInBytes(d: Direction, p: Packet)
    ensures IsNdp(d, p) <==> NdpPasses(d, p)
  {
    match d {
      case Out =>
        GroupsInBytes(p, 0xff, 2, 0, 2);
        RouterMessageInBytes(p, 133);
      case In =>
        HasLinkLocalIff(p);
        RouterMessageInBytes(p, 134);
        RouterMessageInBytes(p, 137);
    }
  }

  lemma LanNetsInBytes(p: Packet)
    ensures (exists net <- ALLOWED_LAN_NETS :: HasAddressIn(p, Src, net)) <==> IsLocal(Source(p))
    ensures (exists net <- ALLOWED_LAN_NETS :: HasAddressIn(p, Dst, net)) <==> IsLocal(Destination(p))
    ensures (exists net <- ALLOWED_LAN_MULTICAST_NETS :: HasAddressIn(p, Dst, net)) <==> IsMulticast(Destination(p))
  {
    EndsAreOctets(p);
    if Source(p) != [] {
      InLanNetsIff(Source(p));
    }
    if Destination(p) != [] {
      InLanNetsIff(Destination(p));
      InMulticastNetsIff(Destination(p));
    }
  }

  lemma LanInBytes(d: Direction, p: Packet)
    ensures IsLan(d, p) <==> LanPasses(d, p)
  {
    LanNetsInBytes(p);
    match d {
      case Out => UdpInBytes(p, 67, 68);
      case In =>
        UdpInBytes(p, 68, 67);
        BroadcastInBytes(p);
    }
  }

  lemma PeerInBytes(peer: Endpoint, d: Direction, p: Packet)
    ensures IsPeerTraffic(peer, d, p) <==> PeerPasses(peer, d, p)
  {
    HasAddressIff(p, peer.ip);
    HasPortIff(p, peer.protocol, peer.port);
  }

  lemma PingInBytes(hosts: seq<IpAddr>, d: Direction, p: Packet)
    ensures IsPing(hosts, d, p) <==> PingPasses(hosts, d, p)
  {
    forall host | host in hosts {
      HasAddressIff(p, host);
    }
  }

  lemma DnsInBytes(tunnel: TunnelMetadata, d: Direction, p: Packet)
    ensures IsDnsRequest(d, p) <==> d == Out && IsDns(p)
    ensures IsToGateway(tunnel, p) <==> IsForGateway(tunnel, p)
  {
    HasPortIff(p, Udp, 53);
    HasPortIff(p, Tcp, 53);
    HasAddressIff(p, V4(tunnel.ipv4Gateway));
    if tunnel.ipv6Gateway.Some? {
      HasAddressIff(p, V6(tunnel.ipv6Gateway.value));
    }
  }

  /** The specification, read off the bytes of a packet. */
  lemma AllowedIffAccepted(policy: Policy, ifaces: Interfaces, d: Direction, p: Packet)
    ensures Allowed(policy, ifaces, d, p) <==> Accepted(policy, ifaces.loopback, ifaces.tunnel, d, p)
  {
    DhcpInBytes(d, p);
    NdpInBytes(d, p);
    LanInBytes(d, p);
    match policy {
      case Blocked(_) =>
      case Connecting(peer, hosts, _) =>
        PeerInBytes(peer, d, p);
        PingInBytes(hosts, d, p);
      case Connected(peer, tunnel, _) =>
        PeerInBytes(peer, d, p);
        DnsInBytes(tunnel, d, p);
    }
  }

  /** Exactly which packets the compiled chain of a policy accepts, by the bytes of their headers. */
  lemma ChainAcceptsIff(counters: bool, policy: Policy, ifaces: Interfaces, d: Direction, p: Packet)
    ensures Filter(CompiledChain(counters, policy, ifaces, d), p) == Accept <==>
            Accepted(policy, ifaces.loopback, ifaces.tunnel, d, p)
  {
    CompilationIsCorrect(counters, policy, ifaces, d, p);
    AllowedIffAccepted(policy, ifaces, d, p);
  }

  predicate IsKnown(lookup: InterfaceLookup, name: string) {
    '\0' !in name && name in lookup && lookup[name] != 0
  }

  /** A policy can be applied exactly if the kernel knows the loopback and, once connected, the tunnel interface. */
  lemma SucceedsIff(policy: Policy, lookup: InterfaceLookup, counters: bool)
    ensures Succeeds(Apply(policy, lookup, counters)) <==>
            IsKnown(lookup, "lo") && (policy.Connected? ==> IsKnown(lookup, policy.tunnel.interface))
    ensures Succeeds(Apply(policy, lookup, counters)) ==>
              var ifaces := LookupInterfaces(policy, lookup).value;
              && ifaces.loopback == lookup["lo"]
              && (policy.Connected? ==> ifaces.tunnel == lookup[policy.tunnel.interface])
    ensures Succeeds(Operation.Reset)
  {}

  /** What the last successful operation lets through, over the interface indices the kernel gave for the names. */
  predicate LetsThrough(op: Operation, d: Direction, p: Packet) {
    match op
    case Apply(policy, lookup, _) =>
      && "lo" in lookup && (policy.Connected? ==> policy.tunnel.interface in lookup)
      && Accepted(policy, lookup["lo"], if policy.Connected? then lookup[policy.tunnel.interface] else 0, d, p)
    case Reset => true
  }

  /** After any history of operations, by the bytes of the headers: what the last successful operation lets through. */
  lemma HistoryInBytes(ops: seq<Operation>, initial: Option<Table>, d: Direction, p: Packet)
    requires exists op <- ops :: Succeeds(op)
    ensures exists i | 0 <= i < |ops| ::
              && Succeeds(ops[i]) && (forall j | i < j < |ops| :: !Succeeds(ops[j]))
              && (Passes(AfterAll(ops, initial), d, p) <==> LetsThrough(ops[i], d, p))
  {
    HistoryDecidesPackets(ops, initial, d, p);
    var i := LastSuccess(ops).value;
    match ops[i] {
      case Apply(policy, lookup, counters) =>
        SucceedsIff(policy, lookup, counters);
        AllowedIffAccepted(policy, LookupInterfaces(policy, lookup).value, d, p);
      case Reset =>
    }
  }

  /**
   A blocked computer that may talk to its network: the outgoing IPv4 TCP packets off loopback that pass
   are those to 10.0.0.0/8, 172.16.0.0/12, 192.168.0.0/16, 169.254.0.0/16 and the multicast addresses.
   */
  lemma BlockedTcpIff(counters: bool, ifaces: Interfaces, p: Packet)
    requires p.oif != ifaces.loopback && p.nfproto == 2 && p.l4proto == 6
    ensures Filter(CompiledChain(counters, Blocked(true), ifaces, Out), p) == Accept <==>
            && |p.network| >= 20
            && var (a, b, c, d) := (p.network[16], p.network[17], p.network[18], p.network[19]);
               || a == 10 || (a == 172 && 16 <= b < 32) || (a == 192 && b == 168) || (a == 169 && b == 254)
               || (a == 224 && b == 0 && c == 0) || (a == 239 && b == 255 && c == 255 && (d == 250 || d == 251))
  {
    ChainAcceptsIff(counters, Blocked(true), ifaces, Out, p);
    if |p.network| >= 20 {
      var o := p.network[16..20];
      assert o[..3] == [o[0], o[1], o[2]] && o == [o[0], o[1], o[2], o[3]];
    }
  }
}
