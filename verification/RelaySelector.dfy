/**
 The relay selector: which relays and endpoints match a user's constraints, and what it may answer.
 Randomness enters as draws, and the distance to a relay as a given whole number.
 */
module RelaySelector {
  import opened Network
  import opened RelayDraws
  import opened Wrappers

  // ----- Constraints -----

  datatype Constraint<T> = Any | Only(value: T)

  predicate Matches<T(==)>(c: Constraint<T>, value: T) {
    match c
    case Any => true
    case Only(v) => v == value
  }

  datatype LocationConstraint =
    | Country(country: string)
    | City(country: string, city: string)
    | Hostname(country: string, city: string, hostname: string)

  datatype TunnelProtocol = Wireguard | OpenVpn

  datatype OpenVpnConstraints = OpenVpnConstraints(port: Constraint<u16>, protocol: Constraint<TransportProtocol>)

  datatype WireguardConstraints = WireguardConstraints(port: Constraint<u16>)

  datatype RelayConstraints = RelayConstraints(
    location: Constraint<LocationConstraint>,
    tunnelProtocol: Constraint<TunnelProtocol>,
    wireguard: WireguardConstraints,
    openVpn: OpenVpnConstraints)

  // ----- Relays -----

  datatype OpenVpnEndpointData = OpenVpnEndpointData(port: u16, protocol: TransportProtocol)

  datatype WireguardEndpointData = WireguardEndpointData(
    portRanges: seq<PortRange>, ipv4Gateway: u32, ipv6Gateway: u128, publicKey: int)

  datatype RelayTunnels = RelayTunnels(openVpn: seq<OpenVpnEndpointData>, wireguard: seq<WireguardEndpointData>)

  datatype Bridge = Bridge(port: u16, cipher: string, password: string, protocol: TransportProtocol)

  datatype Location = Location(country: string, countryCode: string, city: string, cityCode: string)

  datatype Relay = Relay(
    hostname: string,
    address: u32,
    includeInCountry: bool,
    weight: u64,
    tunnels: RelayTunnels,
    bridges: seq<Bridge>,
    location: Option<Location>)

  datatype MullvadEndpoint =
    | OpenVpnEndpoint(endpoint: Endpoint)
    | WireguardEndpoint(publicKey: int, address: IpAddr, port: u16, ipv4Gateway: u32, ipv6Gateway: u128)

  // ----- Matching -----

  predicate RelayMatchesLocation(relay: Relay, location: Constraint<LocationConstraint>) {
    match location
    case Any => true
    case Only(Country(country)) =>
      relay.location.Some? && relay.location.value.countryCode == country && relay.includeInCountry
    case Only(City(country, city)) =>
      relay.location.Some? && relay.location.value.countryCode == country && relay.location.value.cityCode == city
    case Only(Hostname(country, city, hostname)) =>
      && relay.location.Some? && relay.location.value.countryCode == country && relay.location.value.cityCode == city
      && relay.hostname == hostname
  }

  predicate MatchesOpenVpn(c: OpenVpnConstraints, data: OpenVpnEndpointData) {
    Matches(c.port, data.port) && Matches(c.protocol, data.protocol)
  }

  predicate SomeRangeHas(ranges: seq<PortRange>, port: u16) {
    exists range <- ranges :: HasPort(range, port)
  }

  predicate MatchesWireguard(c: WireguardConstraints, data: WireguardEndpointData) {
    c.port.Only? ==> SomeRangeHas(data.portRanges, c.port.value)
  }

  function MatchingOpenVpn(c: OpenVpnConstraints, tunnels: seq<OpenVpnEndpointData>): (r: seq<OpenVpnEndpointData>)
    ensures forall data :: data in r <==> data in tunnels && MatchesOpenVpn(c, data)
  {
    if tunnels == [] then []
    else
      assert tunnels == [tunnels[0]] + tunnels[1..];
      (if MatchesOpenVpn(c, tunnels[0]) then [tunnels[0]] else []) + MatchingOpenVpn(c, tunnels[1..])
  }

  function MatchingWireguard(c: WireguardConstraints, tunnels: seq<WireguardEndpointData>)
    : (r: seq<WireguardEndpointData>)
    ensures forall data :: data in r <==> data in tunnels && MatchesWireguard(c, data)
  {
    if tunnels == [] then []
    else
      assert tunnels == [tunnels[0]] + tunnels[1..];
      (if MatchesWireguard(c, tunnels[0]) then [tunnels[0]] else []) + MatchingWireguard(c, tunnels[1..])
  }

  /** The relay with the tunnels that match; for any protocol, all of them. */
  function MatchingRelay(relay: Relay, c: RelayConstraints): Option<Relay> {
    if !RelayMatchesLocation(relay, c.location) then None
    else
      var tunnels := match c.tunnelProtocol
        case Any => relay.tunnels
        case Only(Wireguard) => RelayTunnels([], MatchingWireguard(c.wireguard, relay.tunnels.wireguard))
        case Only(OpenVpn) => RelayTunnels(MatchingOpenVpn(c.openVpn, relay.tunnels.openVpn), []);
      if tunnels.openVpn == [] && tunnels.wireguard == [] then None else Some(relay.(tunnels := tunnels))
  }

  /** Some tunnel of the relay meets the constraints; any does if no protocol is named. */
  predicate HasTunnel(listed: Relay, c: RelayConstraints) {
    match c.tunnelProtocol
    case Any => listed.tunnels.openVpn != [] || listed.tunnels.wireguard != []
    case Only(OpenVpn) => exists data <- listed.tunnels.openVpn :: OpenVpnMeets(c.openVpn, data)
    case Only(Wireguard) => exists data <- listed.tunnels.wireguard :: WireguardMeets(c.wireguard, data)
  }

  predicate OpenVpnMeets(c: OpenVpnConstraints, data: OpenVpnEndpointData) {
    && (c.port.Only? ==> data.port == c.port.value)
    && (c.protocol.Only? ==> data.protocol == c.protocol.value)
  }

  predicate WireguardMeets(c: WireguardConstraints, data: WireguardEndpointData) {
    c.port.Only? ==> exists range <- data.portRanges :: range.first <= c.port.value <= range.last
  }

  /** Exactly which listed relays are candidates, and with which of their tunnels; the rest of them is kept. */
  lemma MatchingRelayIff(listed: Relay, c: RelayConstraints)
    ensures MatchingRelay(listed, c).Some? <==> RelayMatchesLocation(listed, c.location) && HasTunnel(listed, c)
    ensures MatchingRelay(listed, c).Some? ==>
              var relay := MatchingRelay(listed, c).value;
              && relay.(tunnels := listed.tunnels) == listed
              && (forall data :: data in relay.tunnels.openVpn <==>
                    && data in listed.tunnels.openVpn && c.tunnelProtocol != Only(Wireguard)
                    && (c.tunnelProtocol == Only(OpenVpn) ==> OpenVpnMeets(c.openVpn, data)))
              && (forall data :: data in relay.tunnels.wireguard <==>
                    && data in listed.tunnels.wireguard && c.tunnelProtocol != Only(OpenVpn)
                    && (c.tunnelProtocol == Only(Wireguard) ==> WireguardMeets(c.wireguard, data)))
  {
    var openVpn := MatchingOpenVpn(c.openVpn, listed.tunnels.openVpn);
    var wireguard := MatchingWireguard(c.wireguard, listed.tunnels.wireguard);
    assert openVpn != [] ==> openVpn[0] in openVpn;
    assert wireguard != [] ==> wireguard[0] in wireguard;
    match c.tunnelProtocol {
      case Any =>
      case Only(Wireguard) =>
      case Only(OpenVpn) =>
    }
  }

  function MatchingRelays(relays: seq<Relay>, c: RelayConstraints): seq<Relay> {
    if relays == [] then []
    else
      (match MatchingRelay(relays[0], c) case Some(relay) => [relay] case None => [])
      + MatchingRelays(relays[1..], c)
  }

  lemma {:induction false} MatchingRelaysIff(relays: seq<Relay>, c: RelayConstraints, relay: Relay)
    ensures relay in MatchingRelays(relays, c) <==> exists listed <- relays :: MatchingRelay(listed, c) == Some(relay)
  {
    if relays != [] {
      MatchingRelaysIff(relays[1..], c, relay);
      assert relays == [relays[0]] + relays[1..];
    }
  }

  function Weights(relays: seq<Relay>): (r: seq<u64>)
    ensures |r| == |relays| && forall k | 0 <= k < |r| :: r[k] == relays[k].weight
  {
    seq(|relays|, k requires 0 <= k < |relays| => relays[k].weight)
  }

  // ----- The answer, given the draws -----

  /** What is drawn: a relay, one of its tunnels, one of the tunnel's ports; each taken modulo what it is drawn from. */
  datatype Draws = Draws(relay: nat, tunnel: nat, port: nat)

  /** A draw in range is not changed by the modulo. */
  lemma DrawIsItself(draw: nat, n: nat)
    requires draw < n
    ensures draw % n == draw
  {}

  function PortOf(data: WireguardEndpointData, c: WireguardConstraints, draw: nat): Option<u16> {
    match c.port
    case Any =>
      var total := PortTotal(data.portRanges);
      if total < 1 then None else Some(PortAt(data.portRanges, draw % total).1)
    case Only(port) => if SomeRangeHas(data.portRanges, port) then Some(port) else None
  }

  function EndpointOf(relay: Relay, data: WireguardEndpointData, port: u16): MullvadEndpoint {
    WireguardEndpoint(data.publicKey, V4(relay.address), port, data.ipv4Gateway, data.ipv6Gateway)
  }

  function TunnelOf(relay: Relay, c: RelayConstraints, d: Draws): Option<MullvadEndpoint> {
    if c.tunnelProtocol == Only(Wireguard) then
      if relay.tunnels.wireguard == [] then None
      else
        var data := relay.tunnels.wireguard[d.tunnel % |relay.tunnels.wireguard|];
        match PortOf(data, c.wireguard, d.port)
        case None => None
        case Some(port) => Some(EndpointOf(relay, data, port))
    else
      if relay.tunnels.openVpn == [] then None
      else
        var data := relay.tunnels.openVpn[d.tunnel % |relay.tunnels.openVpn|];
        Some(OpenVpnEndpoint(Endpoint(V4(relay.address), data.port, data.protocol)))
  }

  function Picked(relays: seq<Relay>, draw: nat): Option<Relay> {
    var weights := Weights(relays);
    if Total(weights) == 0 then None else Some(relays[PickIndex(weights, draw % (Total(weights) + 1))])
  }

  lemma PickedByDraw(relays: seq<Relay>, draw: nat)
    requires 0 < Total(Weights(relays)) && draw <= Total(Weights(relays))
    ensures Picked(relays, draw) == Some(relays[PickIndex(Weights(relays), draw)])
  {
    DrawIsItself(draw, Total(Weights(relays)) + 1);
  }

  function Selected(relays: seq<Relay>, c: RelayConstraints, d: Draws): Option<(Relay, MullvadEndpoint)> {
    match Picked(MatchingRelays(relays, c), d.relay)
    case None => None
    case Some(relay) =>
      match TunnelOf(relay, c, d)
      case None => None
      case Some(endpoint) => Some((relay, endpoint))
  }

  /** UDP is preferred, then TCP on port 443, then either in turn, unless the user wants something specific. */
  function PreferredConstraints(c: RelayConstraints, retryAttempt: nat): RelayConstraints {
    var (port, protocol) :=
      if retryAttempt < 2 then (Any, Udp)
      else if retryAttempt < 4 then (Only(443), Tcp)
      else if retryAttempt % 2 == 0 then (Any, Udp)
      else (Any, Tcp);
    var neutral :=
      RelayConstraints(c.location, c.tunnelProtocol, WireguardConstraints(Any), OpenVpnConstraints(Any, Any));
    match c.tunnelProtocol
    case Any =>
      if c.openVpn.port.Any? && c.openVpn.protocol.Any?
      then neutral.(openVpn := OpenVpnConstraints(port, Only(protocol)))
      else neutral.(openVpn := c.openVpn)
    case Only(OpenVpn) => neutral.(openVpn := c.openVpn)
    case Only(Wireguard) => neutral.(wireguard := c.wireguard)
  }

  /**
   The preferred constraints never widen the user's, and if the user asked for nothing about OpenVPN, they
   ask for UDP twice, for TCP on port 443 twice, and then for either in turn. No answer depends on that.
   */
  lemma PreferencesOnlyNarrow(c: RelayConstraints, retryAttempt: nat)
    ensures var p := PreferredConstraints(c, retryAttempt);
            && p.location == c.location && p.tunnelProtocol == c.tunnelProtocol
            && (c.tunnelProtocol != Only(Wireguard) ==>
                  forall data :: MatchesOpenVpn(p.openVpn, data) ==> MatchesOpenVpn(c.openVpn, data))
            && (c.tunnelProtocol == Only(Wireguard) ==>
                  forall data :: MatchesWireguard(p.wireguard, data) ==> MatchesWireguard(c.wireguard, data))
    ensures c.tunnelProtocol.Any? && c.openVpn.port.Any? && c.openVpn.protocol.Any? ==>
              forall data :: MatchesOpenVpn(PreferredConstraints(c, retryAttempt).openVpn, data) <==>
                if retryAttempt in {2, 3} then data == OpenVpnEndpointData(443, Tcp)
                else data.protocol == if retryAttempt % 2 == 0 || retryAttempt == 1 then Udp else Tcp
  {}

  /**
   For all constraints and attempts, the preferences change nothing. They differ from the user's
   constraints only if no protocol is named, and then nothing looks at OpenVPN constraints.
   */
  lemma PreferencesChangeNothing(relays: seq<Relay>, c: RelayConstraints, retryAttempt: nat, d: Draws)
    ensures Selected(relays, PreferredConstraints(c, retryAttempt), d) == Selected(relays, c, d)
  {
    var p := PreferredConstraints(c, retryAttempt);
    PreferencesOnlyNarrow(c, retryAttempt);
    SameMatches(relays, c, p);
    if Picked(MatchingRelays(relays, c), d.relay).Some? {
      SameTunnel(Picked(MatchingRelays(relays, c), d.relay).value, c, p, d);
    }
  }

  lemma SameTunnel(relay: Relay, c: RelayConstraints, p: RelayConstraints, d: Draws)
    requires p.tunnelProtocol == c.tunnelProtocol
    requires c.tunnelProtocol == Only(Wireguard) ==> p.wireguard == c.wireguard
    ensures TunnelOf(relay, p, d) == TunnelOf(relay, c, d)
  {}

  lemma {:induction false} SameMatches(relays: seq<Relay>, c: RelayConstraints, p: RelayConstraints)
    requires p.location == c.location && p.tunnelProtocol == c.tunnelProtocol
    requires c.tunnelProtocol == Only(OpenVpn) ==> p.openVpn == c.openVpn
    requires c.tunnelProtocol == Only(Wireguard) ==> p.wireguard == c.wireguard
    ensures MatchingRelays(relays, p) == MatchingRelays(relays, c)
  {
    if relays != [] {
      SameMatches(relays[1..], c, p);
    }
  }

  // ----- What a right answer is -----

  /** The endpoint is the relay's own, of the OpenVPN or WireGuard tunnel with this data, but for the port. */
  predicate IsOpenVpnOf(listed: Relay, data: OpenVpnEndpointData, endpoint: Endpoint) {
    endpoint.ip == V4(listed.address) && endpoint.port == data.port && endpoint.protocol == data.protocol
  }

  predicate IsWireguardOf(listed: Relay, data: WireguardEndpointData, endpoint: MullvadEndpoint)
    requires endpoint.WireguardEndpoint?
  {
    && endpoint.address == V4(listed.address)
    && endpoint.publicKey == data.publicKey
    && endpoint.ipv4Gateway == data.ipv4Gateway
    && endpoint.ipv6Gateway == data.ipv6Gateway
  }

  /** An endpoint of a relay that meets constraints which name a protocol. */
  ghost predicate Satisfies(listed: Relay, c: RelayConstraints, endpoint: MullvadEndpoint) {
    && RelayMatchesLocation(listed, c.location)
    && match endpoint
       case OpenVpnEndpoint(e) =>
         && c.tunnelProtocol == Only(OpenVpn)
         && (exists data <- listed.tunnels.openVpn :: IsOpenVpnOf(listed, data, e))
         && (c.openVpn.port.Only? ==> c.openVpn.port.value == e.port)
         && (c.openVpn.protocol.Only? ==> c.openVpn.protocol.value == e.protocol)
       case WireguardEndpoint(_, _, port, _, _) =>
         && c.tunnelProtocol == Only(Wireguard)
         && (c.wireguard.port.Only? ==> c.wireguard.port.value == port)
         && exists data <- listed.tunnels.wireguard :: exists range <- data.portRanges ::
              IsWireguardOf(listed, data, endpoint) && range.first <= port <= range.last
  }

  /** No range is the wrong way round. */
  predicate HasOrderedRanges(relay: Relay) {
    forall data <- relay.tunnels.wireguard :: forall range <- data.portRanges :: IsOrdered(range)
  }

  predicate HasNoFullRange(relay: Relay) {
    forall data <- relay.tunnels.wireguard :: forall range <- data.portRanges :: !IsFull(range)
  }

  /** The relay of an answer, but for the tunnels left out of it, is a listed one that has the endpoint. */
  ghost predicate IsRight(relays: seq<Relay>, c: RelayConstraints, relay: Relay, endpoint: MullvadEndpoint) {
    exists listed <- relays :: relay.(tunnels := listed.tunnels) == listed && Satisfies(listed, c, endpoint)
  }

  lemma PickedIsIn(relays: seq<Relay>, draw: nat)
    ensures Picked(relays, draw).Some? ==> Picked(relays, draw).value in relays
  {}

  // ----- When there is an answer -----

  /** Every WireGuard endpoint of every relay has a port to draw. */
  predicate HasPorts(relays: seq<Relay>) {
    forall relay <- relays :: forall data <- relay.tunnels.wireguard :: OffersPorts(data.portRanges)
  }

  /** For one protocol, and whatever is drawn, there is no answer exactly if the matching relays have no weight. */
  lemma NoAnswerIff(relays: seq<Relay>, c: RelayConstraints, d: Draws)
    requires c.tunnelProtocol.Only? && (c.tunnelProtocol == Only(Wireguard) ==> HasPorts(relays))
    ensures Selected(relays, c, d).None? <==> Total(Weights(MatchingRelays(relays, c))) == 0
  {
    var picked := Picked(MatchingRelays(relays, c), d.relay);
    if picked.Some? {
      PickedIsIn(MatchingRelays(relays, c), d.relay);
      MatchingRelaysIff(relays, c, picked.value);
      var listed :| listed in relays && MatchingRelay(listed, c) == Some(picked.value);
      TunnelHasPort(listed, c, d);
    }
  }

  lemma TunnelHasPort(listed: Relay, c: RelayConstraints, d: Draws)
    requires c.tunnelProtocol.Only? && MatchingRelay(listed, c).Some?
    requires c.tunnelProtocol == Only(Wireguard) ==>
               forall data <- listed.tunnels.wireguard :: OffersPorts(data.portRanges)
    ensures TunnelOf(MatchingRelay(listed, c).value, c, d).Some?
  {
    if c.tunnelProtocol == Only(Wireguard) {
      var matching := MatchingWireguard(c.wireguard, listed.tunnels.wireguard);
      var data := matching[d.tunnel % |matching|];
      assert data in matching;
      assert data in listed.tunnels.wireguard;
      PortTotalIff(data.portRanges);
    }
  }

  /** A relay that can come out of the draw. */
  ghost predicate IsDrawable(relays: seq<Relay>, k: nat) {
    k < |relays| && Total(Weights(relays)) > 0 && (relays[k].weight > 0 || k == 0)
  }

  lemma IndexCanBeDrawn(relays: seq<Relay>, k: nat) returns (draw: nat)
    requires IsDrawable(relays, k)
    ensures Picked(relays, draw) == Some(relays[k])
  {
    var weights := Weights(relays);
    assert weights[k] == relays[k].weight;
    CanBeDrawnIff(weights, k);
    draw :| draw <= Total(weights) && PickIndex(weights, draw) == k;
    DrawIsItself(draw, Total(weights) + 1);
  }

  lemma DrawnIsDrawable(relays: seq<Relay>, draw: nat) returns (k: nat)
    requires Picked(relays, draw).Some?
    ensures IsDrawable(relays, k) && relays[k] == Picked(relays, draw).value
  {
    var weights := Weights(relays);
    var inRange: nat := draw % (Total(weights) + 1);
    k := PickIndex(weights, inRange);
    DrawnHasWeight(weights, inRange);
  }

  // ----- Exactly which answers there are -----

  predicate SomeRangeYields(ranges: seq<PortRange>, port: u16) {
    exists range <- ranges :: Yields(range, port)
  }

  /** The ports that may be answered for a WireGuard tunnel. */
  predicate GivesPort(data: WireguardEndpointData, c: WireguardConstraints, port: u16) {
    match c.port
    case Any => SomeRangeYields(data.portRanges, port)
    case Only(wanted) => port == wanted && SomeRangeHas(data.portRanges, port)
  }

  lemma DrawnPortIff(data: WireguardEndpointData, c: WireguardConstraints, port: u16)
    ensures (exists draw: nat :: PortOf(data, c, draw) == Some(port)) <==> GivesPort(data, c, port)
  {
    if draw: nat :| PortOf(data, c, draw) == Some(port) {
      DrawnPortIsGiven(data, c, draw);
    }
    if GivesPort(data, c, port) {
      var draw := PortCanBeDrawn(data, c, port);
    }
  }

  lemma DrawnPortIsGiven(data: WireguardEndpointData, c: WireguardConstraints, draw: nat)
    ensures PortOf(data, c, draw).Some? ==> GivesPort(data, c, PortOf(data, c, draw).value)
  {
    if c.port.Any? && PortTotal(data.portRanges) >= 1 {
      IndexToPort(data.portRanges, draw % PortTotal(data.portRanges));
    }
  }

  lemma PortCanBeDrawn(data: WireguardEndpointData, c: WireguardConstraints, port: u16) returns (draw: nat)
    requires GivesPort(data, c, port)
    ensures PortOf(data, c, draw) == Some(port)
  {
    draw := 0;
    if c.port.Any? {
      var k: nat :| k < |data.portRanges| && Yields(data.portRanges[k], port);
      PortToIndex(data.portRanges, k, port);
      draw := IndexOf(data.portRanges, k, port);
      DrawIsItself(draw, PortTotal(data.portRanges));
    }
  }

  /** The endpoints a listed relay may be answered with, for every protocol or none. */
  ghost predicate Gives(listed: Relay, c: RelayConstraints, endpoint: MullvadEndpoint) {
    && RelayMatchesLocation(listed, c.location)
    && match endpoint
       case OpenVpnEndpoint(e) =>
         && c.tunnelProtocol != Only(Wireguard)
         && (exists data <- listed.tunnels.openVpn :: IsOpenVpnOf(listed, data, e))
         && (c.tunnelProtocol.Only? && c.openVpn.port.Only? ==> c.openVpn.port.value == e.port)
         && (c.tunnelProtocol.Only? && c.openVpn.protocol.Only? ==> c.openVpn.protocol.value == e.protocol)
       case WireguardEndpoint(_, _, port, _, _) =>
         && c.tunnelProtocol == Only(Wireguard)
         && exists data <- listed.tunnels.wireguard ::
              IsWireguardOf(listed, data, endpoint) && GivesPort(data, c.wireguard, port)
  }

  lemma DrawnTunnelIsGiven(listed: Relay, c: RelayConstraints, d: Draws)
    requires MatchingRelay(listed, c).Some?
    ensures var r := TunnelOf(MatchingRelay(listed, c).value, c, d); r.Some? ==> Gives(listed, c, r.value)
  {
    var relay := MatchingRelay(listed, c).value;
    if c.tunnelProtocol == Only(Wireguard) {
      var data := relay.tunnels.wireguard[d.tunnel % |relay.tunnels.wireguard|];
      assert data in relay.tunnels.wireguard;
      assert data in listed.tunnels.wireguard;
      DrawnPortIsGiven(data, c.wireguard, d.port);
    } else if relay.tunnels.openVpn != [] {
      var data := relay.tunnels.openVpn[d.tunnel % |relay.tunnels.openVpn|];
      assert data in relay.tunnels.openVpn;
      assert data == OpenVpnEndpointData(data.port, data.protocol);
    }
  }

  lemma TunnelCanBeDrawn(listed: Relay, c: RelayConstraints, endpoint: MullvadEndpoint) returns (tunnel: nat, port: nat)
    requires Gives(listed, c, endpoint)
    ensures MatchingRelay(listed, c).Some?
    ensures forall draw :: TunnelOf(MatchingRelay(listed, c).value, c, Draws(draw, tunnel, port)) == Some(endpoint)
  {
    if endpoint.OpenVpnEndpoint? {
      tunnel := OpenVpnCanBeDrawn(listed, c, endpoint.endpoint);
      port := 0;
    } else {
      var data :| data in listed.tunnels.wireguard && IsWireguardOf(listed, data, endpoint) &&
                  GivesPort(data, c.wireguard, endpoint.port);
      port := PortCanBeDrawn(data, c.wireguard, endpoint.port);
      tunnel := WireguardCanBeDrawn(listed, c, data);
    }
  }

  lemma OpenVpnCanBeDrawn(listed: Relay, c: RelayConstraints, e: Endpoint) returns (tunnel: nat)
    requires Gives(listed, c, OpenVpnEndpoint(e))
    ensures MatchingRelay(listed, c).Some?
    ensures forall draw, port ::
              TunnelOf(MatchingRelay(listed, c).value, c, Draws(draw, tunnel, port)) == Some(OpenVpnEndpoint(e))
  {
    var data :| data in listed.tunnels.openVpn && IsOpenVpnOf(listed, data, e);
    var matching :=
      if c.tunnelProtocol.Any? then listed.tunnels.openVpn else MatchingOpenVpn(c.openVpn, listed.tunnels.openVpn);
    assert data in matching;
    tunnel :| tunnel < |matching| && matching[tunnel] == data;
    DrawIsItself(tunnel, |matching|);
  }

  lemma WireguardCanBeDrawn(listed: Relay, c: RelayConstraints, data: WireguardEndpointData) returns (tunnel: nat)
    requires c.tunnelProtocol == Only(Wireguard) && RelayMatchesLocation(listed, c.location)
    requires data in listed.tunnels.wireguard && MatchesWireguard(c.wireguard, data)
    ensures MatchingRelay(listed, c).Some?
    ensures var ofRelay := MatchingRelay(listed, c).value.tunnels.wireguard;
            ofRelay != [] && ofRelay[tunnel % |ofRelay|] == data
  {
    var matching := MatchingWireguard(c.wireguard, listed.tunnels.wireguard);
    assert data in matching;
    tunnel :| tunnel < |matching| && matching[tunnel] == data;
    DrawIsItself(tunnel, |matching|);
  }

  /** An answer that some draws lead to. */
  ghost predicate IsAnswer(relays: seq<Relay>, c: RelayConstraints, r: Option<(Relay, MullvadEndpoint)>) {
    exists d :: r == Selected(relays, c, d)
  }

  ghost predicate CanBePicked(relays: seq<Relay>, relay: Relay) {
    exists k: nat :: IsDrawable(relays, k) && relays[k] == relay
  }

  /** A relay gives nothing else once the tunnels that do not match are left out. */
  lemma MatchGivesTheSame(listed: Relay, c: RelayConstraints, endpoint: MullvadEndpoint)
    requires MatchingRelay(listed, c).Some?
    ensures Gives(MatchingRelay(listed, c).value, c, endpoint) <==> Gives(listed, c, endpoint)
  {
    var relay := MatchingRelay(listed, c).value;
    if c.tunnelProtocol == Only(Wireguard) && endpoint.WireguardEndpoint? {
      assert forall data <- listed.tunnels.wireguard | GivesPort(data, c.wireguard, endpoint.port) ::
          data in relay.tunnels.wireguard &&
          (IsWireguardOf(relay, data, endpoint) <==> IsWireguardOf(listed, data, endpoint));
    }
  }

  /**
   For every protocol or none, and all port ranges: an endpoint is the answer of some draws exactly if a
   matching relay that can be drawn gives it.
   */
  lemma AnswerIff(relays: seq<Relay>, c: RelayConstraints, relay: Relay, endpoint: MullvadEndpoint)
    ensures IsAnswer(relays, c, Some((relay, endpoint))) <==>
            CanBePicked(MatchingRelays(relays, c), relay) && Gives(relay, c, endpoint)
  {
    if d :| Some((relay, endpoint)) == Selected(relays, c, d) {
      AnswerIsGiven(relays, c, d);
    }
    if CanBePicked(MatchingRelays(relays, c), relay) && Gives(relay, c, endpoint) {
      GivenIsAnswered(relays, c, relay, endpoint);
    }
  }

  lemma AnswerIsGiven(relays: seq<Relay>, c: RelayConstraints, d: Draws)
    requires Selected(relays, c, d).Some?
    ensures var (relay, endpoint) := Selected(relays, c, d).value;
            CanBePicked(MatchingRelays(relays, c), relay) && Gives(relay, c, endpoint)
  {
    var (relay, endpoint) := Selected(relays, c, d).value;
    var k := DrawnIsDrawable(MatchingRelays(relays, c), d.relay);
    MatchingRelaysIff(relays, c, relay);
    var listed :| listed in relays && MatchingRelay(listed, c) == Some(relay);
    DrawnTunnelIsGiven(listed, c, d);
    MatchGivesTheSame(listed, c, endpoint);
  }

  lemma GivenIsAnswered(relays: seq<Relay>, c: RelayConstraints, relay: Relay, endpoint: MullvadEndpoint)
    requires CanBePicked(MatchingRelays(relays, c), relay) && Gives(relay, c, endpoint)
    ensures IsAnswer(relays, c, Some((relay, endpoint)))
  {
    var matching := MatchingRelays(relays, c);
    var k: nat :| IsDrawable(matching, k) && matching[k] == relay;
    MatchingRelaysIff(relays, c, relay);
    var listed :| listed in relays && MatchingRelay(listed, c) == Some(relay);
    MatchGivesTheSame(listed, c, endpoint);
    var draw := IndexCanBeDrawn(matching, k);
    var tunnel, port := TunnelCanBeDrawn(listed, c, endpoint);
    assert Some((relay, endpoint)) == Selected(relays, c, Draws(draw, tunnel, port));
  }

  /** If no range is the wrong way round, a relay gives only what is right. */
  lemma GivenIsRight(listed: Relay, c: RelayConstraints, endpoint: MullvadEndpoint)
    requires c.tunnelProtocol.Only? && (c.tunnelProtocol == Only(Wireguard) ==> HasOrderedRanges(listed))
    requires Gives(listed, c, endpoint)
    ensures Satisfies(listed, c, endpoint)
  {
    assert c.tunnelProtocol.value.Wireguard? || c.tunnelProtocol.value.OpenVpn?;
  }

  /** If no range holds all ports, it gives everything that is. */
  lemma RightIsGiven(listed: Relay, c: RelayConstraints, endpoint: MullvadEndpoint)
    requires c.tunnelProtocol == Only(Wireguard) ==> HasNoFullRange(listed)
    requires Satisfies(listed, c, endpoint)
    ensures Gives(listed, c, endpoint)
  {}

  lemma MatchKeepsRanges(relays: seq<Relay>, c: RelayConstraints, relay: Relay)
    requires relay in MatchingRelays(relays, c)
    ensures (forall listed <- relays :: HasOrderedRanges(listed)) ==> HasOrderedRanges(relay)
    ensures (forall listed <- relays :: HasNoFullRange(listed)) ==> HasNoFullRange(relay)
  {
    MatchingRelaysIff(relays, c, relay);
  }

  /**
   For one protocol, and unless port ranges are the wrong way round or hold all ports: the answers are
   exactly the right endpoints of the matching relays that can be drawn.
   */
  lemma RightAnswersIff(relays: seq<Relay>, c: RelayConstraints, relay: Relay, endpoint: MullvadEndpoint)
    requires c.tunnelProtocol.Only?
    requires c.tunnelProtocol == Only(Wireguard) ==>
               forall listed <- relays :: HasOrderedRanges(listed) && HasNoFullRange(listed)
    ensures IsAnswer(relays, c, Some((relay, endpoint))) <==>
            CanBePicked(MatchingRelays(relays, c), relay) && Satisfies(relay, c, endpoint)
  {
    AnswerIff(relays, c, relay, endpoint);
    if CanBePicked(MatchingRelays(relays, c), relay) {
      MatchKeepsRanges(relays, c, relay);
      if Gives(relay, c, endpoint) {
        GivenIsRight(relay, c, endpoint);
      }
      if Satisfies(relay, c, endpoint) {
        RightIsGiven(relay, c, endpoint);
      }
    }
  }

  /** Whatever is drawn, an answer for one protocol is right. */
  lemma SelectedIsRight(relays: seq<Relay>, c: RelayConstraints, d: Draws)
    requires c.tunnelProtocol.Only?
    requires c.tunnelProtocol == Only(Wireguard) ==> forall listed <- relays :: HasOrderedRanges(listed)
    ensures Selected(relays, c, d).Some? ==>
              IsRight(relays, c, Selected(relays, c, d).value.0, Selected(relays, c, d).value.1)
  {
    if Selected(relays, c, d).Some? {
      var (relay, endpoint) := Selected(relays, c, d).value;
      AnswerIsGiven(relays, c, d);
      MatchingRelaysIff(relays, c, relay);
      var listed :| listed in relays && MatchingRelay(listed, c) == Some(relay);
      MatchGivesTheSame(listed, c, endpoint);
      GivenIsRight(listed, c, endpoint);
      assert relay.(tunnels := listed.tunnels) == listed;
    }
  }

  /** One of the relay's tunnels offers the port of the endpoint. */
  predicate IsOffered(relay: Relay, endpoint: MullvadEndpoint) {
    && endpoint.WireguardEndpoint?
    && exists data <- relay.tunnels.wireguard ::
         IsWireguardOf(relay, data, endpoint) && SomeRangeHas(data.portRanges, endpoint.port)
  }

  /** What a range the wrong way round yields is offered all the same. */
  ghost predicate WrongRangesDoNoHarm(relay: Relay) {
    forall data <- relay.tunnels.wireguard :: forall range <- data.portRanges ::
      forall port: u16 | !IsOrdered(range) && Yields(range, port) :: IsOffered(relay, EndpointOf(relay, data, port))
  }

  lemma GivesOfferedIff(relay: Relay, c: RelayConstraints)
    requires c.tunnelProtocol == Only(Wireguard) && RelayMatchesLocation(relay, c.location)
    ensures (forall endpoint | Gives(relay, c, endpoint) :: IsOffered(relay, endpoint)) <==>
            (c.wireguard.port.Any? ==> WrongRangesDoNoHarm(relay))
  {
    if c.wireguard.port.Any? {
      if forall endpoint | Gives(relay, c, endpoint) :: IsOffered(relay, endpoint) {
        forall data, range, port: u16 |
          data in relay.tunnels.wireguard && range in data.portRanges && !IsOrdered(range) && Yields(range, port)
          ensures IsOffered(relay, EndpointOf(relay, data, port))
        {
          assert Gives(relay, c, EndpointOf(relay, data, port));
        }
      }
      if WrongRangesDoNoHarm(relay) {
        forall endpoint | Gives(relay, c, endpoint) ensures IsOffered(relay, endpoint) {
          HarmlessIsOffered(relay, c, endpoint);
        }
      }
    }
  }

  lemma HarmlessIsOffered(relay: Relay, c: RelayConstraints, endpoint: MullvadEndpoint)
    requires c.tunnelProtocol == Only(Wireguard) && Gives(relay, c, endpoint) && WrongRangesDoNoHarm(relay)
    ensures IsOffered(relay, endpoint)
  {
    var data :| data in relay.tunnels.wireguard && IsWireguardOf(relay, data, endpoint) &&
                GivesPort(data, c.wireguard, endpoint.port);
    if c.wireguard.port.Any? {
      var range :| range in data.portRanges && Yields(range, endpoint.port);
      assert IsOrdered(range) ==> HasPort(range, endpoint.port);
    }
  }

  /**
   For WireGuard: the ports of all answers are offered exactly if a port is asked for, or what ranges the
   wrong way round yield is offered all the same by the matching relays that can be drawn.
   */
  lemma AnsweredPortsAreOfferedIff(relays: seq<Relay>, c: RelayConstraints)
    requires c.tunnelProtocol == Only(Wireguard)
    ensures (forall relay, endpoint | IsAnswer(relays, c, Some((relay, endpoint))) :: IsOffered(relay, endpoint)) <==>
            (c.wireguard.port.Any? ==>
               forall relay | CanBePicked(MatchingRelays(relays, c), relay) :: WrongRangesDoNoHarm(relay))
  {
    forall relay | CanBePicked(MatchingRelays(relays, c), relay)
      ensures (forall endpoint | Gives(relay, c, endpoint) :: IsOffered(relay, endpoint)) <==>
              (c.wireguard.port.Any? ==> WrongRangesDoNoHarm(relay))
    {
      MatchingRelaysIff(relays, c, relay);
      GivesOfferedIff(relay, c);
    }
    forall relay, endpoint
      ensures IsAnswer(relays, c, Some((relay, endpoint))) <==>
              CanBePicked(MatchingRelays(relays, c), relay) && Gives(relay, c, endpoint)
    {
      AnswerIff(relays, c, relay, endpoint);
    }
  }

  // ----- Any protocol -----

  ghost predicate HonoursOpenVpn(c: RelayConstraints, r: Option<(Relay, MullvadEndpoint)>) {
    r.Some? ==> r.value.1.OpenVpnEndpoint? &&
                OpenVpnMeets(c.openVpn, OpenVpnEndpointData(r.value.1.endpoint.port, r.value.1.endpoint.protocol))
  }

  /** All its OpenVPN endpoints happen to meet the constraints. */
  predicate AllMatchOpenVpn(c: RelayConstraints, relay: Relay) {
    forall data <- relay.tunnels.openVpn :: OpenVpnMeets(c.openVpn, data)
  }

  ghost predicate AlwaysHonoursOpenVpn(relays: seq<Relay>, c: RelayConstraints) {
    forall d: Draws :: HonoursOpenVpn(c, Selected(relays, c, d))
  }

  ghost predicate AllDrawableMatchOpenVpn(relays: seq<Relay>, c: RelayConstraints) {
    forall k: nat | IsDrawable(relays, k) :: AllMatchOpenVpn(c, relays[k])
  }

  lemma AllMatchIfHonoured(relays: seq<Relay>, c: RelayConstraints, k: nat)
    requires c.tunnelProtocol.Any? && IsDrawable(MatchingRelays(relays, c), k)
    requires AlwaysHonoursOpenVpn(relays, c)
    ensures AllMatchOpenVpn(c, MatchingRelays(relays, c)[k])
  {
    var matching := MatchingRelays(relays, c);
    var openVpn := matching[k].tunnels.openVpn;
    forall data | data in openVpn ensures OpenVpnMeets(c.openVpn, data) {
      var draw := IndexCanBeDrawn(matching, k);
      var tunnel: nat :| tunnel < |openVpn| && openVpn[tunnel] == data;
      DrawIsItself(tunnel, |openVpn|);
      assert HonoursOpenVpn(c, Selected(relays, c, Draws(draw, tunnel, 0)));
    }
  }

  lemma HonouredIfAllMatch(relays: seq<Relay>, c: RelayConstraints, d: Draws)
    requires c.tunnelProtocol.Any?
    requires AllDrawableMatchOpenVpn(MatchingRelays(relays, c), c)
    ensures HonoursOpenVpn(c, Selected(relays, c, d))
  {
    var matching := MatchingRelays(relays, c);
    if Picked(matching, d.relay).Some? {
      var k := DrawnIsDrawable(matching, d.relay);
      var openVpn := matching[k].tunnels.openVpn;
      if openVpn != [] {
        assert openVpn[d.tunnel % |openVpn|] in openVpn;
      }
    }
  }

  /**
   If no protocol is named, constraints on OpenVPN are not looked at, and answers meet them exactly if
   all OpenVPN endpoints of the relays that can be drawn happen to.
   */
  lemma AnyHonoursOpenVpnIff(relays: seq<Relay>, c: RelayConstraints)
    requires c.tunnelProtocol.Any?
    ensures AlwaysHonoursOpenVpn(relays, c) <==> AllDrawableMatchOpenVpn(MatchingRelays(relays, c), c)
  {
    if AlwaysHonoursOpenVpn(relays, c) {
      forall k: nat | IsDrawable(MatchingRelays(relays, c), k)
        ensures AllMatchOpenVpn(c, MatchingRelays(relays, c)[k]) {
        AllMatchIfHonoured(relays, c, k);
      }
    }
    if AllDrawableMatchOpenVpn(MatchingRelays(relays, c), c) {
      forall d: Draws ensures HonoursOpenVpn(c, Selected(relays, c, d)) {
        HonouredIfAllMatch(relays, c, d);
      }
    }
  }

  // ----- When a try fails -----

  /** A matching relay that may be drawn without giving an endpoint. */
  predicate MayGiveNone(relay: Relay, c: RelayConstraints) {
    match c.tunnelProtocol
    case Any => relay.tunnels.openVpn == []
    case Only(OpenVpn) => false
    case Only(Wireguard) =>
      c.wireguard.port.Any? && exists data <- relay.tunnels.wireguard :: !OffersPorts(data.portRanges)
  }

  lemma GivesNoneIff(listed: Relay, c: RelayConstraints)
    requires MatchingRelay(listed, c).Some?
    ensures var relay := MatchingRelay(listed, c).value;
            (exists d :: TunnelOf(relay, c, d).None?) <==> MayGiveNone(relay, c)
  {
    var relay := MatchingRelay(listed, c).value;
    if MayGiveNone(relay, c) {
      var d := DrawsOfNone(relay, c);
    } else {
      forall d ensures TunnelOf(relay, c, d).Some? {
        GivesOne(listed, c, d);
      }
    }
  }

  lemma DrawsOfNone(relay: Relay, c: RelayConstraints) returns (d: Draws)
    requires MayGiveNone(relay, c)
    ensures TunnelOf(relay, c, d).None?
  {
    d := Draws(0, 0, 0);
    if c.tunnelProtocol == Only(Wireguard) {
      var ofRelay := relay.tunnels.wireguard;
      var tunnel: nat :| tunnel < |ofRelay| && !OffersPorts(ofRelay[tunnel].portRanges);
      PortTotalIff(ofRelay[tunnel].portRanges);
      DrawIsItself(tunnel, |ofRelay|);
      d := Draws(0, tunnel, 0);
    }
  }

  lemma GivesOne(listed: Relay, c: RelayConstraints, d: Draws)
    requires MatchingRelay(listed, c).Some? && !MayGiveNone(MatchingRelay(listed, c).value, c)
    ensures TunnelOf(MatchingRelay(listed, c).value, c, d).Some?
  {
    if c.tunnelProtocol == Only(Wireguard) {
      var matching := MatchingWireguard(c.wireguard, listed.tunnels.wireguard);
      var data := matching[d.tunnel % |matching|];
      assert data in matching;
      PortTotalIff(data.portRanges);
    }
  }

  /** For every protocol or none: whether there are draws that lead to no answer. */
  ghost predicate MayFail(relays: seq<Relay>, c: RelayConstraints) {
    exists d :: Selected(relays, c, d).None?
  }

  /**
   Exactly when a try may fail: if the matching relays have no weight, or one that can be drawn may give
   no endpoint.
   */
  lemma MayFailIff(relays: seq<Relay>, c: RelayConstraints)
    ensures MayFail(relays, c) <==>
            || Total(Weights(MatchingRelays(relays, c))) == 0
            || exists k: nat :: IsDrawable(MatchingRelays(relays, c), k) && MayGiveNone(MatchingRelays(relays, c)[k], c)
  {
    var matching := MatchingRelays(relays, c);
    var weights := Weights(matching);
    if Total(weights) == 0 {
      assert Selected(relays, c, Draws(0, 0, 0)).None?;
    } else {
      if k: nat :| IsDrawable(matching, k) && MayGiveNone(matching[k], c) {
        var draw := IndexCanBeDrawn(matching, k);
        var d := DrawsOfNone(matching[k], c);
        assert TunnelOf(matching[k], c, Draws(draw, d.tunnel, d.port)).None?;
        assert Selected(relays, c, Draws(draw, d.tunnel, d.port)).None?;
      }
      if d :| Selected(relays, c, d).None? {
        FailureHasReason(relays, c, d);
      }
    }
  }

  lemma FailureHasReason(relays: seq<Relay>, c: RelayConstraints, d: Draws)
    requires Total(Weights(MatchingRelays(relays, c))) > 0 && Selected(relays, c, d).None?
    ensures exists k: nat :: IsDrawable(MatchingRelays(relays, c), k) && MayGiveNone(MatchingRelays(relays, c)[k], c)
  {
    var matching := MatchingRelays(relays, c);
    var k := DrawnIsDrawable(matching, d.relay);
    MatchingRelaysIff(relays, c, matching[k]);
    var listed :| listed in relays && MatchingRelay(listed, c) == Some(matching[k]);
    GivesNoneIff(listed, c);
  }

  // ----- What two tries answer -----

  /** What `GetTunnelEndpoint` may answer: the preferred constraints first, then the user's own. */
  ghost predicate IsTunnelEndpoint(
    relays: seq<Relay>, c: RelayConstraints, retryAttempt: nat, r: Option<(Relay, MullvadEndpoint)>)
  {
    exists d1, d2 :: r == TwoTries(relays, c, retryAttempt, d1, d2)
  }

  function TwoTries(relays: seq<Relay>, c: RelayConstraints, retryAttempt: nat, d1: Draws, d2: Draws)
    : Option<(Relay, MullvadEndpoint)>
  {
    var preferred := Selected(relays, PreferredConstraints(c, retryAttempt), d1);
    if preferred.Some? then preferred else Selected(relays, c, d2)
  }

  /** At every attempt, two tries may answer exactly what one with the user's constraints may. */
  lemma TwoTriesAnswerLikeOne(
    relays: seq<Relay>, c: RelayConstraints, retryAttempt: nat, r: Option<(Relay, MullvadEndpoint)>)
    ensures IsTunnelEndpoint(relays, c, retryAttempt, r) <==> IsAnswer(relays, c, r)
  {
    if d :| r == Selected(relays, c, d) {
      PreferencesChangeNothing(relays, c, retryAttempt, d);
      assert r == TwoTries(relays, c, retryAttempt, d, d);
    }
    if IsTunnelEndpoint(relays, c, retryAttempt, r) {
      var d1, d2 :| r == TwoTries(relays, c, retryAttempt, d1, d2);
      PreferencesChangeNothing(relays, c, retryAttempt, d1);
    }
  }

  /** The same for what `GetTunnelEndpoint` answers, at every attempt. */
  lemma EndpointsHonourOpenVpnIff(relays: seq<Relay>, c: RelayConstraints, retryAttempt: nat)
    requires c.tunnelProtocol.Any?
    ensures (forall r | IsTunnelEndpoint(relays, c, retryAttempt, r) :: HonoursOpenVpn(c, r)) <==>
            AllDrawableMatchOpenVpn(MatchingRelays(relays, c), c)
  {
    AnyHonoursOpenVpnIff(relays, c);
    forall r ensures IsTunnelEndpoint(relays, c, retryAttempt, r) <==> IsAnswer(relays, c, r) {
      TwoTriesAnswerLikeOne(relays, c, retryAttempt, r);
    }
    if forall r | IsTunnelEndpoint(relays, c, retryAttempt, r) :: HonoursOpenVpn(c, r) {
      forall d: Draws ensures HonoursOpenVpn(c, Selected(relays, c, d)) {
        assert IsAnswer(relays, c, Selected(relays, c, d));
      }
    }
  }

  // ----- Bridges -----

  datatype BridgeConstraints = BridgeConstraints(
    location: Constraint<LocationConstraint>, transportProtocol: Constraint<TransportProtocol>)

  datatype ProxySettings = ProxySettings(peer: IpAddr, port: u16, cipher: string, password: string)

  /** The fifth and sixth attempt, the ninth and tenth, and so on. */
  predicate ShouldUseBridge(retryAttempt: nat) {
    retryAttempt > 3 && retryAttempt % 4 < 2
  }

  function RetainBridges(c: BridgeConstraints, bridges: seq<Bridge>): (r: seq<Bridge>)
    ensures forall bridge :: bridge in r <==> bridge in bridges && Matches(c.transportProtocol, bridge.protocol)
  {
    if bridges == [] then []
    else
      assert bridges == [bridges[0]] + bridges[1..];
      (if Matches(c.transportProtocol, bridges[0].protocol) then [bridges[0]] else []) + RetainBridges(c, bridges[1..])
  }

  function MatchingBridgeRelay(relay: Relay, c: BridgeConstraints): Option<Relay> {
    if !RelayMatchesLocation(relay, c.location) then None
    else
      var bridges := RetainBridges(c, relay.bridges);
      if bridges == [] then None else Some(relay.(bridges := bridges))
  }

  function MatchingBridgeRelays(relays: seq<Relay>, c: BridgeConstraints): seq<Relay> {
    if relays == [] then []
    else
      (match MatchingBridgeRelay(relays[0], c) case Some(relay) => [relay] case None => [])
      + MatchingBridgeRelays(relays[1..], c)
  }

  lemma {:induction false} MatchingBridgeRelaysIff(relays: seq<Relay>, c: BridgeConstraints, relay: Relay)
    ensures relay in MatchingBridgeRelays(relays, c) <==>
            exists listed <- relays :: MatchingBridgeRelay(listed, c) == Some(relay)
  {
    if relays != [] {
      MatchingBridgeRelaysIff(relays[1..], c, relay);
      assert relays == [relays[0]] + relays[1..];
    }
  }

  /** The head of the list once it is sorted by distance, which keeps the order of equally distant relays. */
  function Nearest(relays: seq<Relay>, distance: Option<Location> -> int): (r: Relay)
    requires relays != []
    ensures r in relays && forall other <- relays :: distance(r.location) <= distance(other.location)
    decreases |relays|
  {
    if |relays| == 1 then relays[0]
    else
      var rest := Nearest(relays[1..], distance);
      assert relays == [relays[0]] + relays[1..];
      if distance(relays[0].location) <= distance(rest.location) then relays[0] else rest
  }

  /** Of equally distant relays, it is the one listed first. */
  lemma {:induction false} NearestIsFirst(relays: seq<Relay>, distance: Option<Location> -> int) returns (i: nat)
    requires relays != []
    ensures i < |relays| && relays[i] == Nearest(relays, distance)
    ensures forall j | 0 <= j < i :: distance(relays[i].location) < distance(relays[j].location)
    decreases |relays|
  {
    i := 0;
    if |relays| > 1 && distance(relays[0].location) > distance(Nearest(relays[1..], distance).location) {
      var k := NearestIsFirst(relays[1..], distance);
      NearerThanBefore(relays, distance, k);
      i := k + 1;
    }
  }

  lemma NearerThanBefore(relays: seq<Relay>, distance: Option<Location> -> int, k: nat)
    requires k + 1 < |relays| && distance(relays[1..][k].location) < distance(relays[0].location)
    requires forall j | 0 <= j < k :: distance(relays[1..][k].location) < distance(relays[1..][j].location)
    ensures relays[k + 1] == relays[1..][k]
    ensures forall j | 0 <= j < k + 1 :: distance(relays[k + 1].location) < distance(relays[j].location)
  {
    var rest := relays[1..];
    forall j | 0 <= j < k + 1 ensures distance(relays[k + 1].location) < distance(relays[j].location) {
      assert j > 0 ==> relays[j] == rest[j - 1];
    }
  }

  /** A bridge of a relay as the settings of a proxy; the draw is taken modulo what it is drawn from. */
  function SettingsOf(relay: Relay, draw: nat): ProxySettings
    requires relay.bridges != []
  {
    var bridge := relay.bridges[draw % |relay.bridges|];
    ProxySettings(V4(relay.address), bridge.port, bridge.cipher, bridge.password)
  }

  function ProxySettingsOf(relays: seq<Relay>, c: BridgeConstraints, distance: Option<Location> -> int, draw: nat)
    : Option<(ProxySettings, Relay)>
  {
    var matching := MatchingBridgeRelays(relays, c);
    if matching == [] then None
    else
      var relay := Nearest(matching, distance);
      if relay.bridges == [] then None else Some((SettingsOf(relay, draw), relay))
  }

  /** No bridge for the first attempts and every other pair of them, nor for tunnels over UDP. */
  function AutoProxySettingsOf(
    relays: seq<Relay>, c: BridgeConstraints, distance: Option<Location> -> int, draw: nat, retryAttempt: nat)
    : Option<(ProxySettings, Relay)>
  {
    if !ShouldUseBridge(retryAttempt) then None
    else if c.transportProtocol == Only(Udp) then None
    else ProxySettingsOf(relays, c, distance, draw)
  }

  /**
   Exactly when a bridge is used automatically: at attempts 4k and 4k + 1 from the fourth on, counted
   from zero, not for UDP, and if some relay has a bridge that matches.
   */
  lemma BridgeIsUsedIff(
    relays: seq<Relay>, c: BridgeConstraints, distance: Option<Location> -> int, draw: nat, retryAttempt: nat)
    ensures AutoProxySettingsOf(relays, c, distance, draw, retryAttempt).Some? <==>
            && (exists k: nat :: k >= 1 && (retryAttempt == 4 * k || retryAttempt == 4 * k + 1))
            && c.transportProtocol != Only(Udp)
            && exists listed <- relays :: HasBridge(listed, c)
  {
    BridgeIsNearest(relays, c, distance, draw);
    BridgeAttempts(retryAttempt);
  }

  lemma BridgeAttempts(retryAttempt: nat)
    ensures ShouldUseBridge(retryAttempt) <==>
            exists k: nat :: k >= 1 && (retryAttempt == 4 * k || retryAttempt == 4 * k + 1)
  {
    if ShouldUseBridge(retryAttempt) {
      var k: nat := retryAttempt / 4;
      assert k >= 1 && (retryAttempt == 4 * k || retryAttempt == 4 * k + 1);
    }
  }

  /** A bridge that may be used with a listed relay. */
  ghost predicate IsBridgeOf(listed: Relay, c: BridgeConstraints, settings: ProxySettings) {
    && RelayMatchesLocation(listed, c.location)
    && settings.peer == V4(listed.address)
    && exists bridge <- listed.bridges ::
         && (c.transportProtocol.Only? ==> bridge.protocol == c.transportProtocol.value)
         && settings.port == bridge.port && settings.cipher == bridge.cipher && settings.password == bridge.password
  }

  predicate HasBridge(listed: Relay, c: BridgeConstraints) {
    && RelayMatchesLocation(listed, c.location)
    && exists bridge <- listed.bridges :: c.transportProtocol.Only? ==> bridge.protocol == c.transportProtocol.value
  }

  lemma HasBridgeIff(listed: Relay, c: BridgeConstraints)
    ensures MatchingBridgeRelay(listed, c).Some? <==> HasBridge(listed, c)
    ensures MatchingBridgeRelay(listed, c).Some? ==>
              MatchingBridgeRelay(listed, c).value.(bridges := listed.bridges) == listed
  {
    var bridges := RetainBridges(c, listed.bridges);
    assert bridges != [] ==> bridges[0] in bridges;
  }

  lemma MatchingBridges(relays: seq<Relay>, c: BridgeConstraints)
    ensures MatchingBridgeRelays(relays, c) == [] <==> forall listed <- relays :: !HasBridge(listed, c)
    ensures forall listed <- relays | HasBridge(listed, c) ::
              exists relay <- MatchingBridgeRelays(relays, c) :: relay.location == listed.location
  {
    var matching := MatchingBridgeRelays(relays, c);
    forall listed | listed in relays && HasBridge(listed, c)
      ensures exists relay <- matching :: relay.location == listed.location
    {
      HasBridgeIff(listed, c);
      MatchingBridgeRelaysIff(relays, c, MatchingBridgeRelay(listed, c).value);
    }
    if matching != [] {
      MatchingBridgeRelaysIff(relays, c, matching[0]);
      var listed :| listed in relays && MatchingBridgeRelay(listed, c) == Some(matching[0]);
      HasBridgeIff(listed, c);
    }
  }

  /**
   Whatever is drawn, the bridge is one that matches, of a listed relay, and no relay with a matching
   bridge is nearer; and there is none exactly if no relay has one.
   */
  lemma BridgeIsNearest(relays: seq<Relay>, c: BridgeConstraints, distance: Option<Location> -> int, draw: nat)
    ensures ProxySettingsOf(relays, c, distance, draw).None? <==> forall listed <- relays :: !HasBridge(listed, c)
    ensures ProxySettingsOf(relays, c, distance, draw).Some? ==>
              var (settings, relay) := ProxySettingsOf(relays, c, distance, draw).value;
              && (exists listed <- relays ::
                    relay.(bridges := listed.bridges) == listed && IsBridgeOf(listed, c, settings))
              && (forall listed <- relays | HasBridge(listed, c) ::
                    distance(relay.location) <= distance(listed.location))
  {
    var matching := MatchingBridgeRelays(relays, c);
    MatchingBridges(relays, c);
    if matching != [] {
      var relay := Nearest(matching, distance);
      MatchingBridgeRelaysIff(relays, c, relay);
      var listed :| listed in relays && MatchingBridgeRelay(listed, c) == Some(relay);
      DrawnBridgeMatches(listed, c, draw);
    }
  }

  lemma DrawnBridgeMatches(listed: Relay, c: BridgeConstraints, draw: nat)
    requires MatchingBridgeRelay(listed, c).Some?
    ensures var relay := MatchingBridgeRelay(listed, c).value;
            && relay.bridges != [] && relay.(bridges := listed.bridges) == listed
            && IsBridgeOf(listed, c, SettingsOf(relay, draw))
  {
    var bridges := RetainBridges(c, listed.bridges);
    assert bridges[draw % |bridges|] in bridges;
  }

  /** The bridges that can be drawn of a relay are exactly those of its own that match. */
  lemma DrawnBridgeIff(listed: Relay, c: BridgeConstraints, settings: ProxySettings)
    requires MatchingBridgeRelay(listed, c).Some?
    ensures IsBridgeOf(listed, c, settings) <==>
            exists draw: nat :: SettingsOf(MatchingBridgeRelay(listed, c).value, draw) == settings
  {
    var relay := MatchingBridgeRelay(listed, c).value;
    if draw: nat :| SettingsOf(relay, draw) == settings {
      DrawnBridgeMatches(listed, c, draw);
    }
    if IsBridgeOf(listed, c, settings) {
      var bridge :| bridge in relay.bridges && settings.port == bridge.port && settings.cipher == bridge.cipher &&
                    settings.password == bridge.password;
      var draw: nat :| draw < |relay.bridges| && relay.bridges[draw] == bridge;
      DrawIsItself(draw, |relay.bridges|);
      assert SettingsOf(relay, draw) == settings;
    }
  }

  // ----- The list of relays -----

  datatype RelayListCity = RelayListCity(name: string, code: string, relays: seq<Relay>)

  datatype RelayListCountry = RelayListCountry(name: string, code: string, cities: seq<RelayListCity>)

  function Placed(country: RelayListCountry, city: RelayListCity, relay: Relay): Relay {
    relay.(location := Some(Location(country.name, country.code, city.name, city.code)))
  }

  function PlacedInCity(country: RelayListCountry, city: RelayListCity): (r: seq<Relay>)
    ensures |r| == |city.relays| && forall i | 0 <= i < |r| :: r[i] == Placed(country, city, city.relays[i])
  {
    seq(|city.relays|, i requires 0 <= i < |city.relays| => Placed(country, city, city.relays[i]))
  }

  function PlacedInCities(country: RelayListCountry, cities: seq<RelayListCity>): seq<Relay> {
    if cities == [] then [] else PlacedInCity(country, cities[0]) + PlacedInCities(country, cities[1..])
  }

  /** The relays of all cities of all countries, in order. */
  function AllPlaced(countries: seq<RelayListCountry>): seq<Relay> {
    if countries == [] then [] else PlacedInCities(countries[0], countries[0].cities) + AllPlaced(countries[1..])
  }

  ghost predicate IsListedIn(country: RelayListCountry, city: RelayListCity, r: Relay) {
    exists relay <- city.relays :: r == Placed(country, city, relay)
  }

  lemma {:induction false} InCitiesIff(country: RelayListCountry, cities: seq<RelayListCity>, r: Relay)
    ensures r in PlacedInCities(country, cities) <==> exists city <- cities :: IsListedIn(country, city, r)
  {
    if cities != [] {
      InCitiesIff(country, cities[1..], r);
      assert cities == [cities[0]] + cities[1..];
      InCityIff(country, cities[0], r);
    }
  }

  lemma InCityIff(country: RelayListCountry, city: RelayListCity, r: Relay)
    ensures r in PlacedInCity(country, city) <==> IsListedIn(country, city, r)
  {
    if relay :| relay in city.relays && r == Placed(country, city, relay) {
      var i :| 0 <= i < |city.relays| && city.relays[i] == relay;
      assert PlacedInCity(country, city)[i] == r;
    }
  }

  /** The relays are those listed, each with the location it is listed under. */
  lemma {:induction false} AllPlacedIff(countries: seq<RelayListCountry>, r: Relay)
    ensures r in AllPlaced(countries) <==>
            exists country <- countries :: exists city <- country.cities :: IsListedIn(country, city, r)
  {
    if countries != [] {
      AllPlacedIff(countries[1..], r);
      assert countries == [countries[0]] + countries[1..];
      InCitiesIff(countries[0], countries[0].cities, r);
    }
  }

  lemma Associates(a: seq<Relay>, b: seq<Relay>, c: seq<Relay>)
    ensures a + (b + c) == a + b + c
  {}

  /** All relays in the order of the list, each with the location it is listed under. */
  method FromRelayList(countries: seq<RelayListCountry>) returns (relays: seq<Relay>)
    ensures relays == AllPlaced(countries)
  {
    relays := [];
    for i := 0 to |countries|
      invariant relays + AllPlaced(countries[i..]) == AllPlaced(countries)
    {
      var country := countries[i];
      assert countries[i..][0] == country && countries[i..][1..] == countries[i + 1..];
      Associates(relays, PlacedInCities(country, country.cities), AllPlaced(countries[i + 1..]));
      var ofCountry := OfCountry(country);
      relays := relays + ofCountry;
    }
  }

  method OfCountry(country: RelayListCountry) returns (relays: seq<Relay>)
    ensures relays == PlacedInCities(country, country.cities)
  {
    relays := [];
    for i := 0 to |country.cities|
      invariant relays + PlacedInCities(country, country.cities[i..]) == PlacedInCities(country, country.cities)
    {
      var city := country.cities[i];
      assert country.cities[i..][0] == city && country.cities[i..][1..] == country.cities[i + 1..];
      Associates(relays, PlacedInCity(country, city), PlacedInCities(country, country.cities[i + 1..]));
      var ofCity := OfCity(country, city);
      relays := relays + ofCity;
    }
  }

  method OfCity(country: RelayListCountry, city: RelayListCity) returns (relays: seq<Relay>)
    ensures relays == PlacedInCity(country, city)
  {
    relays := [];
    for i := 0 to |city.relays|
      invariant |relays| == i && forall k | 0 <= k < i :: relays[k] == Placed(country, city, city.relays[k])
    {
      relays := relays + [Placed(country, city, city.relays[i])];
    }
  }

  /** Where a location constraint sends a relay that is listed under these names. */
  predicate IsWhere(
    location: Constraint<LocationConstraint>, country: RelayListCountry, city: RelayListCity, relay: Relay)
  {
    match location
    case Any => true
    case Only(Country(code)) => code == country.code && relay.includeInCountry
    case Only(City(code, cityCode)) => code == country.code && cityCode == city.code
    case Only(Hostname(code, cityCode, hostname)) =>
      code == country.code && cityCode == city.code && hostname == relay.hostname
  }

  /** Some relay of the list, in a place the constraint allows, is the answer but for left-out tunnels. */
  ghost predicate IsFoundThere(
    countries: seq<RelayListCountry>, location: Constraint<LocationConstraint>, answer: Relay)
  {
    exists country <- countries :: exists city <- country.cities :: exists relay <- city.relays ::
      && IsWhere(location, country, city, relay)
      && answer.location == Some(Location(country.name, country.code, city.name, city.code))
      && answer.(tunnels := relay.tunnels, location := relay.location) == relay
  }

  /** With any protocol or none named, and whatever is drawn: an answer is listed where the constraint says. */
  lemma AnswersAreWhereAsked(countries: seq<RelayListCountry>, c: RelayConstraints, d: Draws)
    ensures var r := Selected(AllPlaced(countries), c, d);
            r.Some? ==> IsFoundThere(countries, c.location, r.value.0)
  {
    var relays := AllPlaced(countries);
    var r := Selected(relays, c, d);
    if r.Some? {
      var answer := r.value.0;
      PickedIsIn(MatchingRelays(relays, c), d.relay);
      MatchingRelaysIff(relays, c, answer);
      var listed :| listed in relays && MatchingRelay(listed, c) == Some(answer);
      AllPlacedIff(countries, listed);
      var country :| country in countries && exists city <- country.cities :: IsListedIn(country, city, listed);
      var city :| city in country.cities && IsListedIn(country, city, listed);
      var relay :| relay in city.relays && listed == Placed(country, city, relay);
      FoundWhereListed(country, city, relay, c.location);
      assert answer.(tunnels := relay.tunnels) == Placed(country, city, relay);
    }
  }

  lemma FoundWhereListed(
    country: RelayListCountry, city: RelayListCity, relay: Relay, location: Constraint<LocationConstraint>)
    ensures RelayMatchesLocation(Placed(country, city, relay), location) <==> IsWhere(location, country, city, relay)
  {}

  // ----- The selector -----

  class RelaySelector {
    var relays: seq<Relay>

    /** Whatever the constraints, the weights of matching relays can be added and drawn from in 64 bits. */
    ghost predicate Valid()
      reads this
    {
      Total(Weights(relays)) < U64_MAX
    }

    constructor (countries: seq<RelayListCountry>)
      ensures relays == AllPlaced(countries)
    {
      relays := [];
      new;
      relays := FromRelayList(countries);
    }

    /** One try: the answer is one that draws lead to. */
    method GetTunnelEndpointInternal(c: RelayConstraints) returns (r: Option<(Relay, MullvadEndpoint)>)
      requires Valid()
      ensures IsAnswer(relays, c, r)
    {
      var matching := MatchingRelays(relays, c);
      MatchingWeighsLess(relays, c);
      var picked, draw := PickByWeight(Weights(matching));
      r := None;
      ghost var d := Draws(draw, 0, 0);
      if picked.Some? {
        var relay := matching[picked.value];
        PickedByDraw(matching, draw);
        var tunnel := GetRandomTunnel(relay, c);
        ghost var t :| tunnel == TunnelOf(relay, c, t);
        d := Draws(draw, t.tunnel, t.port);
        if tunnel.Some? {
          r := Some((relay, tunnel.value));
        }
      }
      assert r == Selected(relays, c, d);
    }

    method GetRandomTunnel(relay: Relay, c: RelayConstraints) returns (r: Option<MullvadEndpoint>)
      ensures exists d :: r == TunnelOf(relay, c, d)
    {
      r := None;
      ghost var d := Draws(0, 0, 0);
      if c.tunnelProtocol == Only(Wireguard) {
        if relay.tunnels.wireguard != [] {
          var i: nat := GenRange(|relay.tunnels.wireguard|);
          DrawIsItself(i, |relay.tunnels.wireguard|);
          var data := relay.tunnels.wireguard[i];
          var port := GetPortForWireguardRelay(data, c.wireguard);
          ghost var draw: nat :| port == PortOf(data, c.wireguard, draw);
          d := Draws(0, i, draw);
          if port.Some? {
            r := Some(EndpointOf(relay, data, port.value));
          }
        }
      } else if relay.tunnels.openVpn != [] {
        var i: nat := GenRange(|relay.tunnels.openVpn|);
        DrawIsItself(i, |relay.tunnels.openVpn|);
        d := Draws(0, i, 0);
        var data := relay.tunnels.openVpn[i];
        r := Some(OpenVpnEndpoint(Endpoint(V4(relay.address), data.port, data.protocol)));
      }
      assert r == TunnelOf(relay, c, d);
    }

    method GetPortForWireguardRelay(data: WireguardEndpointData, c: WireguardConstraints) returns (r: Option<u16>)
      ensures exists draw: nat :: r == PortOf(data, c, draw)
    {
      ghost var draw: nat := 0;
      match c.port {
        case Any =>
          r, draw := DrawPort(data.portRanges);
          if r.Some? {
            DrawIsItself(draw, PortTotal(data.portRanges));
          }
        case Only(port) =>
          r := if SomeRangeHas(data.portRanges, port) then Some(port) else None;
      }
      assert r == PortOf(data, c, draw);
    }

    /** The preferred constraints first, then the user's own. */
    method GetTunnelEndpoint(c: RelayConstraints, retryAttempt: nat) returns (r: Option<(Relay, MullvadEndpoint)>)
      requires Valid()
      ensures IsTunnelEndpoint(relays, c, retryAttempt, r)
      ensures c.tunnelProtocol.Only? &&
              (c.tunnelProtocol == Only(Wireguard) ==> forall listed <- relays :: HasOrderedRanges(listed)) &&
              r.Some? ==>
                IsRight(relays, c, r.value.0, r.value.1)
      ensures c.tunnelProtocol.Only? && (c.tunnelProtocol == Only(Wireguard) ==> HasPorts(relays)) ==>
                (r.None? <==> Total(Weights(MatchingRelays(relays, c))) == 0)
    {
      r := GetTunnelEndpointInternal(PreferredConstraints(c, retryAttempt));
      ghost var d1 :| r == Selected(relays, PreferredConstraints(c, retryAttempt), d1);
      ghost var d := d1;
      PreferencesChangeNothing(relays, c, retryAttempt, d1);
      if r.None? {
        r := GetTunnelEndpointInternal(c);
        d :| r == Selected(relays, c, d);
      }
      assert IsAnswer(relays, c, r);
      TwoTriesAnswerLikeOne(relays, c, retryAttempt, r);
      if c.tunnelProtocol.Only? {
        if c.tunnelProtocol == Only(Wireguard) ==> forall listed <- relays :: HasOrderedRanges(listed) {
          SelectedIsRight(relays, c, d);
        }
        if c.tunnelProtocol == Only(Wireguard) ==> HasPorts(relays) {
          NoAnswerIff(relays, c, d);
        }
      }
    }
  }

  lemma {:induction false} MatchingWeighsLess(relays: seq<Relay>, c: RelayConstraints)
    ensures Total(Weights(MatchingRelays(relays, c))) <= Total(Weights(relays))
  {
    if relays != [] {
      MatchingWeighsLess(relays[1..], c);
      assert Weights(relays)[1..] == Weights(relays[1..]);
      var matching := MatchingRelays(relays, c);
      if MatchingRelay(relays[0], c).Some? {
        assert matching[1..] == MatchingRelays(relays[1..], c);
        assert Weights(matching)[1..] == Weights(matching[1..]);
      } else {
        assert matching == MatchingRelays(relays[1..], c);
      }
    }
  }
}
