# Verified model of the Mullvad VPN app

Dafny 4.11 models of seven parts of the app, with proofs of what each is for. `dafny verify dfyconfig.toml` checks
everything. Code that changes state in the original (batches of netfilter messages, the DNS store, the daemon's event
loop, the account list, the relay draws, the report writer, the table of requests) is written as classes and loops, each
proved equal to a function of the old state; the theorems are then about those functions, over all inputs or all runs.

| part | files |
|---|---|
| Linux firewall: policies compiled to nftables rules | `Bits`, `Network`, `Nftables`, `FirewallPolicy`, `FirewallCompiler`, `FirewallBatch`, `FirewallCorrectness`, `FirewallKernel`, `FirewallBytes` |
| macOS DNS monitor | `DnsMonitor` (module `Dns`), `DnsRuns` |
| Relay selector | `RelayDraws`, `RelaySelector` |
| Daemon: event loop, account history, WireGuard keys | `AccountHistory`, `Daemon`, `DaemonRuns` |
| Problem report: redaction, writing, reading back | `Text`, `Redaction`, `ProblemReport` |
| Key renaming between snake_case and camelCase in the GUI | `KeyRenaming` |
| JSON-RPC client of the GUI | `JsonRpcClient` |

## What was found

Some promises of the documentation hold only under a condition, which is then proved to be the exact one, or do not
hold as worded. The code is modelled as it is.

- Firewall: incoming traffic from the peer must also belong to an established connection, and the DNS drop of the
  Connected policy comes after loopback, DHCP, NDP and peer traffic and before the tunnel and the LAN. `Allowed` is the
  prose with these precedences.
- DNS: handling every outside change before the next set, reset or change is not enough to keep it (`ChangeCanBeLost`).
  A notification that lists a missing state path before the changed setup path overtakes the change; this is the only
  way (`ChangeIsRecordedIff`). If injecting starts only once removals of state paths are delivered, nothing is lost
  (`OrderlyRunsArePermitted`).
- Relays: the preferences of the retry logic, UDP first, then TCP on port 443, then either in turn
  (mullvad-daemon/src/relays.rs:233-240), never change an answer (`PreferencesChangeNothing`): they differ from the
  user's constraints only if no tunnel protocol is chosen, and then OpenVPN constraints are not looked at. So answers
  meet the user's OpenVPN constraints only if all endpoints that can be drawn do (`EndpointsHonourOpenVpnIff`). The
  first matching relay can be drawn with weight zero (`DrawsAreWeights`). The 16-bit port arithmetic goes wrong exactly
  for the range of all ports and for ranges the wrong way round (`PortAmountIsSizeIff`, `DrawnPortsAreInRangesIff`);
  `AnsweredPortsAreOfferedIff` says what that does to answers.
- Problem report: custom strings are not always removed. A string is sure to be gone exactly if no occurrence of it can
  take in part of a `[REDACTED]` (`CustomStringIsGoneIff`): "RED" or "x[" can be left behind. The home directory is sure
  to be gone after its own pass exactly if it is not empty and holds no tilde (`HomeDirIsGoneIff`), and then it is sure
  to be gone in the end exactly if it cannot take in part of a `[REDACTED]`, either, or looks like an account number
  (`HomeIsGoneIff`). Metadata reads back from a written report exactly under the condition of `MetadataReadsBackIff`. Of
  a report that is sent, only the last 688128 bytes are read: metadata reads back only from one that fits, after line
  ends are normalized exactly under the condition of `SentMetadataReadsBackIff`. A longer one, as six full logs can make
  it, loses its metadata, unless its first line is found again right where it is cut (`SentMetadataIff`).
- Keys in the GUI come back from camelCase exactly under `IsRoundTripKey` (`KeyRoundTripsIff`): `a_1` and `a_bc` do,
  `_a`, `a__b`, `a_b_c` and keys that lower-casing changes do not. A whole tree comes back exactly if all its keys do
  (`TreeRoundTripsIff`).
- Daemon: setting an empty account token unsets the account but, unlike unsetting it, does not disconnect, reconnects a
  secured tunnel and puts an empty name into the history (`UnsettingDisconnectsIff`). A request of the reconnection
  timer can override a user's disconnect (`LateReconnectOverrides` is such a run), even one that has taken effect, since
  a timer whose minute is over is not stopped any more (`ExpiredTimerOverrides`). `DisconnectStaysIff` says exactly when
  a disconnect stays in force; once all events are handled, it does unless the tunnel is blocked by failed
  authentication and the timer armed for that still waits, or some timer is past its minute and has still to make its
  request (`HandledDisconnectStaysIff`). A key generation that is cancelled can still report if it was asked about that
  before (`ReportsIff`).

## Standards

DHCPv4 ports follow section 4.1 of RFC 2131, DHCPv6 addresses and ports sections 7.1 and 7.2 of RFC 8415, NDP message
types sections 4.1, 4.2 and 4.5 of RFC 4861, private IPv4 ranges section 3 of RFC 1918, requests and replies sections 4
and 5 of the JSON-RPC 2.0 specification.

## Model

| member | source | states |
|---|---|---|
| Bits.MaskAndCompare | talpid-core/src/firewall/linux.rs:543-559 | for every width and prefix, masking an address and comparing it with a network's address succeeds exactly if the address shares the network's leading bits |
| FirewallCorrectness.NetMatches | talpid-core/src/firewall/linux.rs:543-559 | the load, mask and comparison of a network test succeed exactly for packets whose IPv4 or IPv6 address is in the network |
| FirewallCorrectness.CheckMeaning | talpid-core/src/firewall/linux.rs:532-618 | every helper's expressions let a packet go on exactly if the packet has the property the helper is named for, and load no header field before its protocol was compared |
| FirewallCorrectness.RuleMeaning | talpid-core/src/firewall/linux.rs:620-625 | a compiled rule reaches its verdict exactly on packets that pass all its tests, with or without counters |
| FirewallCorrectness.ChainMeaning | talpid-core/src/firewall/linux.rs:219-225 | first-match execution of a compiled chain decides like the list of rules it was compiled from |
| FirewallCorrectness.DhcpClientMeaning | talpid-core/src/firewall/linux.rs:240-342 | the DHCP and NDP rules accept exactly the DHCP requests, responses and router messages of the prose, on top of what came before |
| FirewallCorrectness.PeerMeaning | talpid-core/src/firewall/linux.rs:375-393 | the peer rules accept exactly outgoing packets to the peer and incoming packets from it on established connections |
| FirewallCorrectness.PingMeaning | talpid-core/src/firewall/linux.rs:395-416 | the ping rules accept exactly ICMP of the right version to and from the listed hosts |
| FirewallCorrectness.DnsMeaning | talpid-core/src/firewall/linux.rs:418-458 | the DNS rules of a protocol accept requests to a gateway through the tunnel, drop all its others, and decide nothing else |
| FirewallCorrectness.ConnectedMeaning | talpid-core/src/firewall/linux.rs:356-365 | while connected: peer first, then DNS over both protocols, then anything on the tunnel interface |
| FirewallCorrectness.LanMeaning | talpid-core/src/firewall/linux.rs:472-517 | the LAN rules, if enabled, accept exactly the LAN traffic of the prose, with what came before taking precedence |
| FirewallCorrectness.PolicyMeaning | talpid-core/src/firewall/linux.rs:344-373 | the rules of any policy accept exactly what the specification allows, for every direction and packet |
| FirewallCorrectness.CompilationIsCorrect | talpid-core/src/firewall/mod.rs:73-107 | compilation preserves meaning: for every policy, lookup, direction and packet, the compiled chain accepts exactly what the prose allows |
| FirewallCorrectness.CompiledRulesReadOwnHeaders | talpid-core/src/firewall/linux.rs:543-618 | in every rule of every compiled policy, each load of a network or transport field happens only for packets of that protocol |
| FirewallCorrectness.RuleCountsIff | talpid-core/src/firewall/linux.rs:620-625 | every rule ends in its verdict, with a counter right before it exactly if counters are asked for |
| FirewallCorrectness.BlockedIsContainedInConnecting | talpid-core/src/firewall/mod.rs:73-107 | whatever passes under Blocked passes under Connecting with the same LAN flag |
| FirewallCorrectness.LostByConnecting | talpid-core/src/firewall/mod.rs:92-107 | exactly which packets pass under Blocked but not under Connected: DNS requests to the LAN that are neither base, peer nor gateway traffic |
| FirewallCorrectness.DnsStaysInTunnel | talpid-core/src/firewall/mod.rs:102-105 | under Connected, a DNS request off loopback and not to the peer passes exactly if it goes through the tunnel to a gateway |
| FirewallBatch.Rule.CheckNet | talpid-core/src/firewall/linux.rs:543-559 | appending expressions one by one yields the compiled network test after the tests before it |
| FirewallBatch.Rule.CheckEndpoint | talpid-core/src/firewall/linux.rs:561-564 | an endpoint test is the address test followed by the port test |
| FirewallBatch.Rule.CheckIface | talpid-core/src/firewall/linux.rs:532-541 | fails exactly if the lookup does and otherwise appends the interface test |
| FirewallBatch.PolicyBatch.constructor | talpid-core/src/firewall/linux.rs:194-215 | a new batch clears the table and creates two chains with policy drop, without rules |
| FirewallBatch.PolicyBatch.AddDhcpClientRules | talpid-core/src/firewall/linux.rs:240-342 | both chains gain exactly the DHCP and NDP rules, in order, after the rules they had |
| FirewallBatch.PolicyBatch.AddAllowEndpointRules | talpid-core/src/firewall/linux.rs:375-393 | each chain gains the peer rule of its direction |
| FirewallBatch.PolicyBatch.AddAllowIcmpPingableHosts | talpid-core/src/firewall/linux.rs:395-416 | each chain gains one ping rule a host, in order |
| FirewallBatch.PolicyBatch.AddDnsRule | talpid-core/src/firewall/linux.rs:418-434 | the outgoing chain gains the gateway rules and then the drop rule; a failing lookup is reported |
| FirewallBatch.PolicyBatch.AddAllowLanRules | talpid-core/src/firewall/linux.rs:472-493 | each chain gains its LAN rules, then its DHCP server rule |
| FirewallBatch.PolicyBatch.AddPolicySpecificRules | talpid-core/src/firewall/linux.rs:344-373 | the chains gain the rules of the policy in the order of the source, or the first failing lookup is reported |
| FirewallBatch.PolicyBatch.Finalize | talpid-core/src/firewall/linux.rs:219-225 | the finished batch holds, for each chain, exactly the compiled rules of the policy, or the error of the first lookup that fails |
| FirewallKernel.DanceClears | talpid-core/src/firewall/linux.rs:204-207 | add, delete, add leaves an empty table whatever there was, and never fails |
| FirewallKernel.OnlyDeletingClears | talpid-core/src/firewall/linux.rs:101-113 | why a reset adds the table first: deleting fails exactly if there is none, and adding what is there changes nothing |
| FirewallKernel.BatchInstalls | talpid-core/src/firewall/linux.rs:194-225 | delivering any policy batch succeeds on any earlier table and leaves exactly the batch's rules in the two chains |
| FirewallKernel.Firewall.ApplyPolicy | talpid-core/src/firewall/linux.rs:93-98 | installs the policy, or reports the failing lookup and leaves the kernel unchanged |
| FirewallKernel.Firewall.ResetPolicy | talpid-core/src/firewall/linux.rs:100-113 | leaves no table, whether or not there was one |
| FirewallKernel.Firewall.PerformAll | talpid-core/src/firewall/linux.rs:93-113 | after any operations the kernel holds what the last successful one installed |
| FirewallKernel.AfterAllIsLastInstalled | talpid-core/src/firewall/linux.rs:93-113 | the table depends only on the last successful operation, and is untouched if none succeeded |
| FirewallKernel.HistoryDecidesPackets | talpid-core/src/firewall/linux.rs:93-113 | after any history, from any earlier table, a packet passes exactly if the last successful operation says so: by its policy's specification, or always after a reset |
| FirewallBytes.HasAddressIff | talpid-core/src/firewall/linux.rs:543-581 | an address matches exactly if it is what bytes 12-15 (source) or 16-19 (destination) of an IPv4 header, or 8-23 or 24-39 of an IPv6 header, hold |
| FirewallBytes.HasPortIff | talpid-core/src/firewall/linux.rs:583-594 | a port matches exactly if it is what the first (source) or second (destination) pair of bytes of a UDP or TCP header holds |
| FirewallBytes.ChainAcceptsIff | talpid-core/src/firewall/mod.rs:73-107 | for every policy, exactly which packets the compiled chains accept, with all offsets, networks, addresses, ports and message types written out as bytes |
| FirewallBytes.BlockedTcpIff | talpid-core/src/firewall/mod.rs:32-55 | of a blocked computer that may use its LAN, the outgoing IPv4 TCP packets off loopback that pass are exactly those to the listed ranges, octet by octet |
| FirewallBytes.SucceedsIff | talpid-core/src/firewall/linux.rs:532-541 | a policy is applied exactly if the kernel knows "lo" and, if connected, the tunnel interface; its rules test the indices known by these names |
| FirewallBytes.HistoryInBytes | talpid-core/src/firewall/linux.rs:94-124 | after any history, what passes is decided by the bytes of the packet, the last successful operation and the indices of its interfaces |
| Dns.DnsMonitor.Set | talpid-core/src/dns/macos.rs:152-184 | first backs up every state entry, its setup entry and the other setup entries and writes the settings there; later writes only changed settings, over the backed-up paths |
| Dns.DnsMonitor.Reset | talpid-core/src/dns/macos.rs:186-202 | every backed-up entry is written back or removed, and the monitor forgets its state |
| Dns.DnsMonitor.HandleChangedKey | talpid-core/src/dns/macos.rs:279-315 | one changed key is backed up and overwritten unless it holds the injected settings; a state key takes its setup key along |
| Dns.DnsMonitor.DnsChangeCallbackInternal | talpid-core/src/dns/macos.rs:274-316 | the changed keys are handled in order |
| Dns.DnsMonitor.OnNotification | talpid-core/src/dns/macos.rs:258-272 | notifications do something only while the monitor injects |
| Dns.DnsMonitor.ReadAll | talpid-core/src/dns/macos.rs:319-343 | the backup covers each state path, its setup path even if missing, and each other setup path, with what is stored there |
| Dns.WatchedPaths | talpid-core/src/dns/macos.rs:345-351 | a state path has a setup path that is watched, and a setup path has none |
| Dns.WatchedPathsIff | talpid-core/src/dns/macos.rs:38-39 | the watched paths are the State and Setup DNS entries of services, and a setup path belongs to the state path of the same service |
| DnsRuns.HandleKeysKeep | talpid-core/src/dns/macos.rs:274-316 | handling any keys keeps store, backup and outsiders' values consistent, unless a waiting change is overtaken |
| DnsRuns.RunKeepsInv | talpid-core/src/dns/macos.rs:152-316 | every permitted run of sets, resets, outside changes and notifications keeps them consistent |
| DnsRuns.InjectionIsSafe | talpid-core/src/dns/macos.rs:152-202 | in every permitted run, once no change waits: the injected settings are at every backed-up path and every existing watched path, the backup is what outsiders last wrote, and a reset gives the whole store back |
| DnsRuns.InjectsWhatWasAsked | talpid-core/src/dns/macos.rs:58-73 | in any run, permitted or not, the monitor injects exactly if it was set since the last reset, and then the dictionary of just the servers of the last set, empty if there are none |
| DnsRuns.AskedForIsInForce | talpid-core/src/dns/macos.rs:151-188 | in every permitted run, once no change is waiting, all backed-up and all existing watched paths hold exactly the addresses of the servers last asked for; without any asked for, the store is the outsiders' |
| DnsRuns.SameServersChangeNothing | talpid-core/src/dns/macos.rs:170-186 | asking again for the servers that are injected changes nothing, even where others have written |
| DnsRuns.ChangesAreNotified | talpid-core/src/dns/macos.rs:222-247 | of every watched path whose entry is changed, by whomever, a notification is due, and none is forgotten before it is delivered |
| DnsRuns.ChangeIsRecordedIff | talpid-core/src/dns/macos.rs:279-315 | a notification records an outside change exactly if it does not overtake it, or nothing was to be recorded |
| DnsRuns.ChangeToInjectedIsRecordedIff | talpid-core/src/dns/macos.rs:285-293 | a change to the injected settings themselves is recorded only if it changes nothing |
| DnsRuns.ChangeCanBeLost | talpid-core/src/dns/macos.rs:279-315 | a run in which each change is handled before the next action and one is still lost on reset |
| DnsRuns.OrderlyRunsArePermitted | talpid-core/src/dns/macos.rs:152-202 | if injecting starts only when no removal of a state path is pending, handling each change in turn is enough |
| DnsRuns.NotificationProgresses | talpid-core/src/dns/macos.rs:258-316 | every notification lowers a well-founded measure, its own echoes included |
| DnsRuns.SettleAfterRun | talpid-core/src/dns/macos.rs:152-316 | wherever a permitted run leaves a monitor that injects, once everyone else is quiet the notifications run out with its settings in force |
| DnsRuns.RunUntilQuiet | talpid-core/src/dns/macos.rs:258-316 | once everyone else is quiet, notifications in any batches run out, and every existing watched path holds the injected settings |
| RelayDraws.PickByWeight | mullvad-daemon/src/relays.rs:486-508 | answers nothing exactly for total weight 0; otherwise the draw always leads to a relay |
| RelayDraws.PickIndexIff | mullvad-daemon/src/relays.rs:499-505 | a draw leads to a relay exactly if it lies in that relay's stretch of the summed weights |
| RelayDraws.DrawsAreWeights | mullvad-daemon/src/relays.rs:497-505 | the draws are partitioned: each relay has as many as its weight, the first one more |
| RelayDraws.CanBeDrawnIff | mullvad-daemon/src/relays.rs:484-508 | a relay can be drawn exactly if it has weight or is the first |
| RelayDraws.DrawPort | mullvad-daemon/src/relays.rs:589-607 | answers nothing exactly if there are no ports; otherwise the loop finds a range and the panic is never reached |
| RelayDraws.IndexToPort | mullvad-daemon/src/relays.rs:600-606 | for all ranges, every index stands for a port that its range yields and is given back by that port |
| RelayDraws.PortToIndex | mullvad-daemon/src/relays.rs:600-606 | every port that a range yields has an index for it: with the above, a bijection |
| RelayDraws.PortAmountIsSizeIff | mullvad-daemon/src/relays.rs:590-591 | the 16-bit count is the size of the range exactly if the range is in order and not all ports, as it is whenever nothing overflows |
| RelayDraws.PortTotalIff | mullvad-daemon/src/relays.rs:592-596 | there is a port to draw exactly if some range is neither empty nor all ports |
| RelayDraws.DrawnPortsAreInRangesIff | mullvad-daemon/src/relays.rs:600-606 | every drawn port lies in its range exactly if no range is the wrong way round |
| RelaySelector.MatchingRelaysIff | mullvad-daemon/src/relays.rs:347-353 | the candidates are exactly what the listed relays become when filtered |
| RelaySelector.MatchingRelayIff | mullvad-daemon/src/relays.rs:368-483 | a listed relay is a candidate exactly if it is in the right place and has a tunnel that meets the constraints; it keeps exactly those tunnels, and all else |
| RelaySelector.RelaySelector.GetTunnelEndpointInternal | mullvad-daemon/src/relays.rs:343-364 | the answer is one that some draws determine |
| RelaySelector.RelaySelector.GetRandomTunnel | mullvad-daemon/src/relays.rs:519-562 | the endpoint is one that some draws determine, WireGuard if asked for and OpenVPN otherwise |
| RelaySelector.RelaySelector.GetPortForWireguardRelay | mullvad-daemon/src/relays.rs:583-621 | any port is drawn; a fixed one is given back exactly if a range has it |
| RelaySelector.RelaySelector.GetTunnelEndpoint | mullvad-daemon/src/relays.rs:204-227 | the answer is one the two tries may give; for a named protocol it is a listed relay's endpoint that meets all original constraints, and there is none exactly if the matching relays have no weight |
| RelaySelector.DrawnPortIff | mullvad-daemon/src/relays.rs:583-621 | a port is answered for some draw exactly if one is asked for, is this one and is offered, or none is and a range yields it |
| RelaySelector.SelectedIsRight | mullvad-daemon/src/relays.rs:343-483 | whatever is drawn, an answer for a named protocol satisfies location, port and protocol constraints |
| RelaySelector.NoAnswerIff | mullvad-daemon/src/relays.rs:343-364 | whatever is drawn, no answer means exactly that the matching relays have total weight 0 |
| RelaySelector.AnswerIff | mullvad-daemon/src/relays.rs:343-562 | for every protocol or none, and all port ranges: an endpoint of a relay is the answer of some draws exactly if the relay is a matching one with weight or the first, and has the endpoint with a port its ranges yield |
| RelaySelector.RightAnswersIff | mullvad-daemon/src/relays.rs:343-562 | for a named protocol, and ranges that are in order and not all ports, exactly the endpoints that satisfy the constraints, of matching relays that can be drawn, are answers |
| RelaySelector.AnsweredPortsAreOfferedIff | mullvad-daemon/src/relays.rs:583-621 | for WireGuard, every answer has a port its relay offers exactly if a port is asked for, or what ranges the wrong way round yield is offered anyway by the relays that can be drawn |
| RelaySelector.MayFailIff | mullvad-daemon/src/relays.rs:343-364 | for every protocol or none named, a try may fail exactly if the matching relays have no weight or one that can be drawn may give no endpoint |
| RelaySelector.PreferencesChangeNothing | mullvad-daemon/src/relays.rs:229-284 | for all constraints, named protocol or not, the preferred constraints give the same answer as the user's at every attempt and for every draw |
| RelaySelector.TwoTriesAnswerLikeOne | mullvad-daemon/src/relays.rs:204-227 | at every attempt, the two tries may answer exactly what one with the user's constraints may |
| RelaySelector.AnswersAreWhereAsked | mullvad-daemon/src/relays.rs:410-433 | for every location constraint, protocol and draw, an answer is a relay listed under the country and city asked for, included in the country if only that is named, and of the name asked for |
| RelaySelector.AnyHonoursOpenVpnIff | mullvad-daemon/src/relays.rs:376-405 | with no protocol named, answers meet the OpenVPN constraints exactly if all OpenVPN endpoints of the relays that can be drawn do |
| RelaySelector.EndpointsHonourOpenVpnIff | mullvad-daemon/src/relays.rs:204-227 | the same for what the two tries may answer, at every attempt |
| RelaySelector.BridgeIsUsedIff | mullvad-daemon/src/relays.rs:286-312 | a bridge is used automatically exactly at attempts 4k and 4k + 1 from the fourth on, not for UDP, and if some relay has one that matches |
| RelaySelector.BridgeIsNearest | mullvad-daemon/src/relays.rs:314-340 | a bridge matches, belongs to a listed relay, and no relay with a matching bridge is nearer; there is none exactly if no relay has one |
| RelaySelector.DrawnBridgeIff | mullvad-daemon/src/relays.rs:511-517 | the bridges that can be drawn of a relay are exactly its own that match, with address, port, cipher and password |
| RelaySelector.NearestIsFirst | mullvad-daemon/src/relays.rs:331-339 | among equally near relays the one listed first is taken |
| RelaySelector.FromRelayList | mullvad-daemon/src/relays.rs:84-113 | the relays are those of all cities of all countries, in order, each with the location it is listed under |
| AccountHistory.AccountHistory.Get | mullvad-daemon/src/account_history.rs:91-109 | a hit answers the entry and moves it to the top; a miss changes nothing |
| AccountHistory.AccountHistory.BumpHistory | mullvad-daemon/src/account_history.rs:113-122 | a known account moves to the top, an unknown one is added there without data |
| AccountHistory.AccountHistory.Insert | mullvad-daemon/src/account_history.rs:125-134 | the entry replaces that of its account and goes to the top; the last one is dropped beyond three |
| AccountHistory.MostRecentlyTouched | mullvad-daemon/src/account_history.rs:91-134 | after any inserts, bumps and gets from empty, the list is the three distinct accounts most recently touched, each with the data last inserted since it was last absent |
| AccountHistory.RecentIsDistinct | mullvad-daemon/src/account_history.rs:24-31 | the reference for that list holds distinct accounts, and all of them if there are fewer than three |
| AccountHistory.RetainedEntries | mullvad-daemon/src/account_history.rs:145-148 | removing an account removes exactly its entry |
| AccountHistory.OperationsKeepShape | mullvad-daemon/src/account_history.rs:91-150 | every operation, removals included, keeps at most three entries and one an account |
| Daemon.Daemon.HandleEvent | mullvad-daemon/src/lib.rs:486-501 | handling any event makes of the whole state what its handler's function says; only a dead management interface is an error |
| Daemon.Daemon.Run | mullvad-daemon/src/lib.rs:450-464 | auto-connects with an account, then handles events in order up to the one that finishes |
| Daemon.Daemon.HandleTunnelStateTransition | mullvad-daemon/src/lib.rs:503-537 | stops a pending reconnection, arms one after failed authentication, finishes an exiting daemon once disconnected |
| Daemon.Daemon.HandleManagementInterfaceEvent | mullvad-daemon/src/lib.rs:716-757 | commands take effect only while running |
| Daemon.Daemon.HandleSetAccount | mullvad-daemon/src/lib.rs:920-946 | a changed account gets a key if it has none, moves up in the history and reconnects, or disconnects if unset |
| Daemon.Daemon.HandleWireguardKeyEvent | mullvad-daemon/src/lib.rs:759-821 | a key for the current account goes into its entry; events for other accounts are dropped |
| Daemon.Daemon.HandleGenerateWireguardKey | mullvad-daemon/src/lib.rs:1235-1283 | cancels a pending generation and stores the new key with the current account |
| Daemon.Daemon.SetTargetState | mullvad-daemon/src/lib.rs:1355-1364 | sends a command exactly if the target changes or the tunnel is blocked |
| Daemon.Daemon.TriggerShutdownEvent | mullvad-daemon/src/lib.rs:1347-1350 | finishes at once if disconnected, else starts exiting; always sends a disconnect |
| Daemon.KeyManager.Reset | mullvad-daemon/src/wireguard.rs:53-57 | the current generation is cancelled and forgotten |
| Daemon.KeyManager.GenerateKeyAsync | mullvad-daemon/src/wireguard.rs:79-149 | an earlier generation is cancelled before the new one becomes current |
| DaemonRuns.RunKeepsInv | mullvad-daemon/src/lib.rs:450-821 | in every run with timers and key jobs: exiting and finished fit the tunnel state, the last command fits the target or the shutdown, a reconnection is armed exactly after failed authentication, every key job but the current one is cancelled or done, every key in the history was generated for its account |
| DaemonRuns.AfterShutdownOnlyDisconnects | mullvad-daemon/src/lib.rs:716-720 | once shutting down, never running again, and nothing but disconnects is sent |
| DaemonRuns.ShutdownFinishes | mullvad-daemon/src/lib.rs:171-195 | a shutdown is complete by the time the tunnel reports it is disconnected, whatever else happens, unless the management interface dies |
| DaemonRuns.LoopEnds | mullvad-daemon/src/lib.rs:450-464 | events are handled in order up to the first after which the daemon is finished or that says the management interface exited, and only the latter is an error |
| DaemonRuns.FactoryResetForgets | mullvad-daemon/src/lib.rs:989-1026 | a factory reset forgets account, history and settings and shuts the daemon down |
| DaemonRuns.TargetIsSentIff | mullvad-daemon/src/lib.rs:1355-1364 | handling a request for a target tells the tunnel, and what, exactly if the target is a new one or the tunnel is blocked |
| DaemonRuns.ReconnectionConnects | mullvad-daemon/src/lib.rs:692-714 | whatever the target, once the armed timer's request is handled it is secured, and the blocked tunnel was told exactly once to connect |
| DaemonRuns.SettingIsSentIff | mullvad-daemon/src/lib.rs:1028-1212 | a changed setting is kept and sent; a changed tunnel setting makes a secured tunnel, and only that, connect again |
| DaemonRuns.AutoConnectsIff | mullvad-daemon/src/lib.rs:450-456 | at the start the tunnel is told to connect exactly if that is set and there is an account |
| DaemonRuns.SettingsAreThoseSent | mullvad-daemon/src/lib.rs:450-821 | in every run, as long as the daemon runs, LAN sharing and blocking are what the tunnel was last told, or what they were at the start |
| DaemonRuns.KeyEventConcernsCurrentAccount | mullvad-daemon/src/lib.rs:759-821 | a key event changes something exactly if it is about the current account, and then only that account's entry |
| DaemonRuns.GeneratedKeyIsStored | mullvad-daemon/src/lib.rs:1235-1283 | a key asked for is stored with the current account and told to the front end, or no entry changes; the generation under way, and only that, is cancelled |
| DaemonRuns.KeyIsGeneratedIff | mullvad-daemon/src/lib.rs:1211-1233 | a change of account starts exactly one generation, cancelling the one under way, exactly if the account has no key and it can be started |
| DaemonRuns.LookupsTouchTheHistory | mullvad-daemon/src/lib.rs:648-669 | looking up a key moves the current account up in the history, removing an account removes exactly its entry, and nothing else changes |
| DaemonRuns.AccountChangeIsComplete | mullvad-daemon/src/lib.rs:920-946 | after a change of account its entry is on top, it has a key or one is being generated for it, and a secured tunnel reconnects |
| DaemonRuns.KeysInUseAreTheAccountsOwn | mullvad-daemon/src/lib.rs:665-675 | in every run, the key a WireGuard tunnel is set up with was generated for the account in use |
| DaemonRuns.ReportsIff | mullvad-daemon/src/wireguard.rs:223-234 | whatever happens from then on, a key job can still report exactly if it is not done and was not cancelled, or was asked about that before |
| DaemonRuns.ReportsOnce | mullvad-daemon/src/wireguard.rs:115-131 | each key job reports at most once, whatever happens between |
| DaemonRuns.DisconnectStays | mullvad-daemon/src/lib.rs:692-714 | in every run without a new request to connect or new failed authentication, a target that nothing left over can change stays unsecured and no command to connect is sent |
| DaemonRuns.DisconnectStaysIff | mullvad-daemon/src/lib.rs:692-714 | some such run ends secured exactly if a request to connect is queued before the end of the loop, or the queue does not end the loop and a timer waits, is past its time without having made its request, or will be armed |
| DaemonRuns.HandledDisconnectStaysIff | mullvad-daemon/src/lib.rs:692-714 | in every run, once all events are handled, exactly while authentication has failed and the timer armed for that still waits, or some timer is past its time and has not made its request |
| DaemonRuns.ExpiredTimerOverrides | mullvad-daemon/src/lib.rs:692-714 | a run in which the tunnel is disconnected, all events are handled and no reconnection is armed, and the target still becomes secured |
| DaemonRuns.UnsettingDisconnectsIff | mullvad-daemon/src/lib.rs:920-946 | of the tokens that unset the account, exactly the missing one is sure to disconnect; the empty one keeps the target, reconnects a secured tunnel and goes into the history |
| Text.ReplaceNothing | mullvad-problem-report/src/lib.rs:383-390 | a text without the pattern is left alone |
| Text.EmptyIsFoundEverywhere | mullvad-problem-report/src/lib.rs:359-364 | the empty pattern is replaced before, between and after all characters |
| Text.FirstLine | mullvad-problem-report/src/lib.rs:415-416 | the lines of a text begin with what comes before the first line feed, a carriage return stripped |
| Redaction.FirstPassLeavesNoRun | mullvad-problem-report/src/lib.rs:352-357 | the first pass leaves no 16 consecutive digits |
| Redaction.FirstPassChangesIff | mullvad-problem-report/src/lib.rs:352-357 | it changes a text exactly if there are some |
| Redaction.FirstPassSparesTheRest | mullvad-problem-report/src/lib.rs:352-357 | only the digits are replaced: the text before the first number stays, the text after it is redacted on its own |
| Redaction.ReplaceKeepsRunsApart | mullvad-problem-report/src/lib.rs:359-364 | replacing strings, the empty one included, never joins digits into a longer run |
| Redaction.PiecesKeepRunsApart | mullvad-problem-report/src/lib.rs:366-381 | nor does replacing any spans but for a kept boundary character |
| Redaction.FirstIsReplaced | mullvad-problem-report/src/lib.rs:359-364 | replacing a string puts the new text in the place of its leftmost occurrence, keeps what comes before and goes on after it |
| Redaction.HomeDirBecomesTilde | mullvad-problem-report/src/lib.rs:359-364 | a single occurrence of the home directory becomes a tilde, with the rest kept |
| Redaction.HomeDirIsGoneIff | mullvad-problem-report/src/lib.rs:359-364 | the second pass is sure to remove exactly the home directories that are not empty and hold no tilde |
| Redaction.AddressIsRedacted | mullvad-problem-report/src/lib.rs:366-381 | every match is replaced but for its boundary, and the text around it is kept |
| Redaction.HomeIsGoneIff | mullvad-problem-report/src/lib.rs:345-350 | of those, gone from the output of all four passes, whatever the text, addresses and custom strings, are exactly the ones that cannot take in part of a `[REDACTED]` or look like an account number |
| Redaction.NoAccountNumberIsLeft | mullvad-problem-report/src/lib.rs:345-350 | for every text, home, matcher and custom strings, no 16 consecutive digits come out of the four passes |
| Redaction.CustomStringIsGone | mullvad-problem-report/src/lib.rs:383-390 | a custom string that cannot overlap with the text put in is gone in the end, whichever strings are replaced after it |
| Redaction.CustomStringIsGoneIff | mullvad-problem-report/src/lib.rs:295-306 | these are exactly the strings that are gone from every text with every list of custom strings |
| ProblemReport.ProblemReport.RedactCustomStrings | mullvad-problem-report/src/lib.rs:383-390 | the strings are replaced one after the other |
| ProblemReport.ProblemReport.Redact | mullvad-problem-report/src/lib.rs:345-350 | the four passes in order, with no account number, no removable custom string and no removable home directory left |
| ProblemReport.ProblemReport.AddLog | mullvad-problem-report/src/lib.rs:322-337 | each path is added once, path and content redacted, the error in place of an unreadable file |
| ProblemReport.ProblemReport.AddError | mullvad-problem-report/src/lib.rs:340-343 | the error is redacted, the message is not |
| ProblemReport.ProblemReport.WriteTo | mullvad-problem-report/src/lib.rs:392-408 | writes metadata and logs; if the messages have none, the written logs hold no 16 consecutive digits |
| ProblemReport.ParseMetadata | mullvad-problem-report/src/lib.rs:412-431 | the loop reads what the recursive reader reads |
| ProblemReport.WrittenLogsHaveNoRun | mullvad-problem-report/src/lib.rs:400-406 | the text between logs keeps their digits apart |
| ProblemReport.LogsStandInOrder | mullvad-problem-report/src/lib.rs:400-406 | every log stands in the report under its name between two delimiters, with its content, one after the other in order behind the metadata, and nothing comes after the last |
| ProblemReport.MetadataReadsBackIff | mullvad-problem-report/src/lib.rs:392-431 | for any logs, the metadata reads back exactly if keys hold neither ": " nor a line feed, values no line feed and, with plain line feeds, no trailing carriage return |
| ProblemReport.SentMetadataIff | mullvad-problem-report/src/lib.rs:505-519 | for any text that is sent, short or long: the metadata read is exactly what is read from the text from where its last bytes begin, if they begin there with the first line of a report and not within a character, and otherwise there is none |
| ProblemReport.SentMetadataReadsBackIff | mullvad-problem-report/src/lib.rs:248-274 | for a report that is sent: with line ends normalized, the metadata it was written with reads back exactly if the report fits into the 688128 bytes that are read, keys and values are as above and no value ends in a carriage return; this leaves out only longer reports that hold their first line again |
| ProblemReport.TailIsLastBytes | mullvad-problem-report/src/lib.rs:505-519 | of a text that is too long exactly the last bytes are kept: whole characters, and before them a replacement character for each byte left of the one that is cut |
| KeyRenaming.KeyRoundTripsIff | gui/src/main/daemon-rpc.ts:567-575 | whatever alphabet is lower-cased, a key comes back from camelCase exactly if lower-casing changes no character of it and each word break follows a lower-case letter or digit that does not begin a word |
| KeyRenaming.ChangedKeysHaveCapitals | gui/src/main/daemon-rpc.ts:567-569 | a key that is changed has a capital afterwards |
| KeyRenaming.TransformNested | gui/src/main/daemon-rpc.ts:585-604 | in whatever order the loop visits the keys, no names but the new ones come out, and every entry as far down as keys do not get in each other's way |
| KeyRenaming.CleanBecomesRenamed | gui/src/main/daemon-rpc.ts:585-604 | a tree whose keys nowhere get in each other's way becomes the key-mapped tree, with no entry lost |
| KeyRenaming.RenamedTreeIsUnique | gui/src/main/daemon-rpc.ts:585-604 | there is only one such tree |
| KeyRenaming.CamelCaseIsClean | gui/src/main/daemon-rpc.ts:577-579 | keys that come back do not get in each other's way when renamed to camelCase |
| KeyRenaming.UnderscoreIsClean | gui/src/main/daemon-rpc.ts:581-583 | nor do they when renamed back |
| KeyRenaming.RenamedBack | gui/src/main/daemon-rpc.ts:577-583 | two renamings that undo each other key by key give the tree back |
| KeyRenaming.ThereAndBack | gui/src/main/daemon-rpc.ts:577-604 | renaming a tree to camelCase and back with the two loops returns it exactly if all its keys come back |
| KeyRenaming.BackIsShorter | gui/src/main/daemon-rpc.ts:567-575 | a key that lower-casing leaves alone and that does not come back comes back shorter |
| KeyRenaming.TreeRoundTripsIff | gui/src/main/daemon-rpc.ts:577-604 | whatever the two loops make of a tree, it is the tree itself exactly if all its keys come back |
| KeyRenaming.CollisionLosesEntries | gui/src/main/daemon-rpc.ts:585-604 | an object two of whose keys get one name comes out of the loop with fewer entries, whatever its order |
| JsonRpcClient.JsonRpcClient.Send | gui/src/main/jsonrpc-client.ts:185-217 | a request gets a timer and a place in the table, both taken back if the transport fails |
| JsonRpcClient.JsonRpcClient.OnTimeout | gui/src/main/jsonrpc-client.ts:235-246 | a request that still waits is rejected with its message |
| JsonRpcClient.JsonRpcClient.OnReply | gui/src/main/jsonrpc-client.ts:276-296 | a request that waits is settled by the reply and its timer stopped; other replies change nothing |
| JsonRpcClient.RunsKeepTheTable | gui/src/main/jsonrpc-client.ts:185-296 | in every interleaving each request is settled at most once, with the first thing that ends it, the table is exactly issued minus settled, and each waiting request has a running timer of its own |
| JsonRpcClient.FirstReplyDecides | gui/src/main/jsonrpc-client.ts:276-296 | the first reply to a waiting request settles it for good: a result resolves it, an error rejects it with its code and message |
| JsonRpcClient.RequestsAreConserved | gui/src/main/jsonrpc-client.ts:185-296 | issued requests are as many as waiting and settled ones, and timers as many as waiting ones |
| JsonRpcClient.JsonRpcClient.DrainTimers | gui/src/main/jsonrpc-client.ts:235-246 | if nothing more comes in, the timers settle every waiting request with a timeout |

## Left out

- Netlink sockets, the encoding of messages, the check that the table exists after a policy is applied and byte order on
  the wire: a batch is a list of operations that takes effect completely or not at all. Interface lookups are a map that
  answers the same throughout one application.
- Reading and writing of files, settings and histories on disk, and their failures: saves succeed. Failed writes to the
  dynamic store and CoreFoundation objects: settings are values with equality.
- The patterns for IPv4, IPv6 and MAC addresses: any choice of matches, each keeping at most one boundary character, is
  allowed, so that addresses are redacted is not shown. Which characters are decimal digits is a parameter.
- `str::lines` is modelled as it was when the program was written: it strips a carriage return from a last line without
  a line feed, too.
- RelayDraws.PortAmountIsSizeIff: the count wraps around in 16 bits, as in a build without overflow checks; `Overflows`
  says when a checked build stops. Sums of port counts are not bounded to 64 bits.
- RelaySelector.RelaySelector.GetTunnelEndpoint: needs weights that add up to less than the largest 64-bit number, so
  that they can be drawn from; for WireGuard it needs ranges in order for rightness and ports to draw for completeness
  (`AnswerIff` and `MayFailIff` need neither).
- Probabilities: only which draws lead where. Distances between locations are whole numbers given from outside.
- Redaction.CustomStringIsGoneIff: takes a character the string does not hold, for the text that leaves it behind.
- Redaction.HomeIsGoneIff: takes such a character, too, one that is no digit.
- KeyRenaming.TransformNested: works on values, so that objects shared between two places and the order of keys are not
  modelled.
- KeyRenaming.KeyRoundTripsIff: of `toLowerCase` it assumes only `IsLowering`: lower-case text stays as it is, and texts
  in which no letter outside ASCII changes are lowered character by character, as `AsciiIsLowering` shows of
  lower-casing ASCII letters alone.
- DaemonRuns.RunKeepsInv: settings other than the account, LAN sharing and blocking are reduced to whether they changed;
  the tunnel state machine may report any state at any time.
- The server's side of a key generation that is cancelled, shutdown callbacks, and answers sent to the front end.
- JsonRpcClient.RunsKeepTheTable: identifiers are assumed not to repeat; the table of subscriptions and the connection
  to the transport are left out.
- Relay downloads, bridges configured by hand, Android branches, the tunnel state machine, routing and the other DNS and
  firewall back ends.
