/**
 The event loop of the daemon: what it keeps, and what each event makes of that. What the world answers
 while an event is handled is an input; settings are always saved.
 */
module Daemon {
  import opened AccountHistory
  import opened Wrappers

  // ----- What the daemon keeps -----

  datatype ExecutionState = Running | Exiting | Finished

  datatype TargetState = Unsecured | Secured

  datatype ActionAfterDisconnect = Nothing | Block | Reconnect

  datatype BlockReason =
    | AuthFailed | Ipv6Unavailable | SetFirewallPolicyError | SetDnsError
    | StartTunnelError | NoMatchingRelay | IsOffline | TapAdapterProblem

  datatype TunnelState =
    | Disconnected | Connecting | Connected | Disconnecting(action: ActionAfterDisconnect)
    | Blocked(reason: BlockReason)

  datatype TunnelCommand = Connect | Disconnect | AllowLan(allowed: bool) | BlockWhenDisconnected(blocked: bool)

  /**
   A thread that waits for a minute and then asks for a secured tunnel. It can be stopped while it waits,
   but not once its time is up, even if it has not asked yet.
   */
  datatype Timer = Waiting | Expired | Stopped | Fired

  /** A key generation handed to the executor. Before the work goes on, it is asked whether it was cancelled. */
  datatype Job = Job(account: string, cancelled: bool, passed: bool, done: bool)

  datatype KeyError = TooManyKeys | OtherKeyError

  datatype KeygenEvent = NewKey(privateKey: int) | TooManyKeysEvent | GenerationFailure

  datatype Keys = Keys(current: Option<nat>, jobs: seq<Job>)

  datatype State = State(
    execution: ExecutionState,
    tunnel: TunnelState,
    target: TargetState,
    reconnect: Option<nat>,
    timers: seq<Timer>,
    sent: seq<TunnelCommand>,
    keyEvents: seq<KeygenEvent>,
    account: Option<string>,
    allowLan: bool,
    blockWhenDisconnected: bool,
    history: seq<AccountEntry>,
    keys: Keys)

  // ----- Events -----

  datatype ManagementCommand =
    | SetTargetState(target: TargetState)
    | SetAccount(token: Option<string>)
    | RemoveAccountFromHistory(account: string)
    | SetAllowLan(allowed: bool)
    | SetBlockWhenDisconnected(blocked: bool)
    | UpdateTunnelSettings(changed: bool)  // relay, bridge, mssfix, IPv6 and MTU settings
    | SetAutoConnect
    | GenerateWireguardKey
    | GetWireguardKey  // or a check of that key
    | Query  // commands that only read, or start a download of the relay list
    | FactoryReset
    | Shutdown

  datatype Event =
    | TunnelStateTransition(tunnel: TunnelState)
    | GenerateTunnelParameters
    | ManagementInterfaceEvent(command: ManagementCommand)
    | ManagementInterfaceExited
    | TriggerShutdown
    | WgKeyEvent(account: string, result: Result<WireguardData, KeyError>)

  /**
   What the world answers: whether a key generation could be handed to the executor, how one that is
   waited for ends, whether the relay that is drawn has a WireGuard endpoint.
   */
  datatype Answers = Answers(jobStarted: bool, generated: Result<WireguardData, KeyError>, isWireguard: bool)

  // ----- Keys -----

  function ResetKeys(keys: Keys): Keys {
    match keys.current
    case None => keys
    case Some(i) => Keys(None, if i < |keys.jobs| then keys.jobs[i := keys.jobs[i].(cancelled := true)] else keys.jobs)
  }

  function StartJob(keys: Keys, account: string, started: bool): Keys {
    var reset := ResetKeys(keys);
    if started then Keys(Some(|reset.jobs|), reset.jobs + [Job(account, false, false, false)]) else reset
  }

  function EnsureKeys(s: State, started: bool): State {
    match s.account
    case None => s
    case Some(account) =>
      var entry := Entry(s.history, account);
      var got := s.(history := Got(s.history, account));
      if entry.None? || entry.value.wireguard.None? then got.(keys := StartJob(got.keys, account, started)) else got
  }

  /** Events for an account that is not the current one are dropped. */
  function OnKeyEvent(s: State, account: string, result: Result<WireguardData, KeyError>): State {
    if s.account != Some(account) then s
    else
      match result
      case Ok(data) =>
        var entry := AccountEntry(account, Some(data));
        s.(history := Inserted(Got(s.history, account), entry), keyEvents := s.keyEvents + [NewKey(data.privateKey)])
      case Err(TooManyKeys) => s.(keyEvents := s.keyEvents + [TooManyKeysEvent])
      case Err(OtherKeyError) => s.(keyEvents := s.keyEvents + [GenerationFailure])
  }

  function OnGenerateKey(s: State, result: Result<WireguardData, KeyError>): State {
    match s.account
    case None => s
    case Some(account) =>
      var got := s.(history := Got(s.history, account), keys := ResetKeys(s.keys));
      match result
      case Ok(data) =>
        var entry := AccountEntry(account, Some(data));
        got.(history := Inserted(got.history, entry), keyEvents := got.keyEvents + [NewKey(data.privateKey)])
      case Err(_) => got
  }

  // ----- Tunnel commands -----

  function Send(s: State, command: TunnelCommand): State {
    s.(sent := s.sent + [command])
  }

  function WithTarget(s: State, target: TargetState): State {
    if target != s.target || s.tunnel.Blocked? then
      Send(s.(target := target), if target == Secured then Connect else Disconnect)
    else s
  }

  function Reconnected(s: State): State {
    if s.target == Secured then Send(s, Connect) else s
  }

  function ShutDown(s: State): State {
    var execution :=
      if s.execution.Running? then (if s.tunnel.Disconnected? then Finished else Exiting) else s.execution;
    Send(s.(execution := execution), Disconnect)
  }

  function Unscheduled(s: State): State {
    match s.reconnect
    case None => s
    case Some(i) =>
      s.(reconnect := None,
         timers := if i < |s.timers| && s.timers[i].Waiting? then s.timers[i := Stopped] else s.timers)
  }

  function Scheduled(s: State): State {
    s.(reconnect := Some(|s.timers|), timers := s.timers + [Waiting])
  }

  function OnTransition(s: State, tunnel: TunnelState): State {
    var u := Unscheduled(s);
    var v := match tunnel
      case Disconnected => u.(execution := if u.execution.Exiting? then Finished else u.execution)
      case Blocked(AuthFailed) => Scheduled(u)
      case _ => u;
    v.(tunnel := tunnel)
  }

  // ----- Management commands -----

  /** An empty token counts as none in the settings, but not in what follows from the change. */
  function OnSetAccount(s: State, token: Option<string>, started: bool): State {
    var account := if token == Some("") then None else token;
    if account == s.account then s
    else
      var ensured := EnsureKeys(s.(account := account), started);
      match token
      case Some(name) => Reconnected(ensured.(history := Bumped(ensured.history, name)))
      case None => WithTarget(ensured, Unsecured)
  }

  function OnFactoryReset(s: State): State {
    ShutDown(s.(account := None, allowLan := false, blockWhenDisconnected := false, history := []))
  }

  function OnSetAllowLan(s: State, allowed: bool): State {
    if allowed == s.allowLan then s else Send(s.(allowLan := allowed), AllowLan(allowed))
  }

  function OnSetBlockWhenDisconnected(s: State, blocked: bool): State {
    if blocked == s.blockWhenDisconnected then s
    else Send(s.(blockWhenDisconnected := blocked), BlockWhenDisconnected(blocked))
  }

  function OnGetWireguardKey(s: State): State {
    match s.account
    case Some(account) => s.(history := Got(s.history, account))
    case None => s
  }

  function OnManagement(s: State, command: ManagementCommand, answers: Answers): State {
    if !s.execution.Running? then s
    else
      match command
      case SetTargetState(target) => WithTarget(s, target)
      case SetAccount(token) => OnSetAccount(s, token, answers.jobStarted)
      case RemoveAccountFromHistory(account) => s.(history := Retain(s.history, account))
      case SetAllowLan(allowed) => OnSetAllowLan(s, allowed)
      case SetBlockWhenDisconnected(blocked) => OnSetBlockWhenDisconnected(s, blocked)
      case UpdateTunnelSettings(changed) => if changed then Reconnected(s) else s
      case SetAutoConnect => s
      case GenerateWireguardKey => OnGenerateKey(s, answers.generated)
      case GetWireguardKey => OnGetWireguardKey(s)
      case Query => s
      case FactoryReset => OnFactoryReset(s)
      case Shutdown => ShutDown(s)
  }

  function Handled(s: State, event: Event, answers: Answers): State {
    match event
    case TunnelStateTransition(tunnel) => OnTransition(s, tunnel)
    case GenerateTunnelParameters =>
      (match s.account
       case Some(account) => if answers.isWireguard then s.(history := Got(s.history, account)) else s
       case None => s)
    case ManagementInterfaceEvent(command) => OnManagement(s, command, answers)
    case ManagementInterfaceExited => s
    case TriggerShutdown => ShutDown(s)
    case WgKeyEvent(account, result) => OnKeyEvent(s, account, result)
  }

  function Initial(
    account: Option<string>, allowLan: bool, blockWhenDisconnected: bool, history: seq<AccountEntry>,
    started: bool): State
  {
    EnsureKeys(
      State(Running, Disconnected, Unsecured, None, [], [], [], account, allowLan, blockWhenDisconnected, history,
            Keys(None, [])),
      started)
  }

  /** The state the loop starts in. */
  function Started(s: State, autoConnect: bool): State {
    if autoConnect && s.account.Some? then WithTarget(s, Secured) else s
  }

  /** Events in order, up to the one that ends the loop. The flag tells whether the management interface exited. */
  function AfterEvents(s: State, events: seq<(Event, Answers)>): (State, bool)
    decreases |events|
  {
    if events == [] then (s, false)
    else if events[0].0.ManagementInterfaceExited? then (s, true)
    else
      var next := Handled(s, events[0].0, events[0].1);
      if next.execution.Finished? then (next, false) else AfterEvents(next, events[1..])
  }

  // ----- The key manager -----

  class KeyManager {
    var currentJob: Option<nat>
    var jobs: seq<Job>

    function View(): Keys
      reads this
    {
      Keys(currentJob, jobs)
    }

    constructor ()
      ensures View() == Keys(None, [])
    {
      currentJob, jobs := None, [];
    }

    method Reset()
      modifies this
      ensures View() == ResetKeys(old(View()))
    {
      if currentJob.Some? {
        var job := currentJob.value;
        currentJob := None;
        Cancel(job);
      }
    }

    method Cancel(job: nat)
      modifies this`jobs
      ensures jobs == if job < |old(jobs)| then old(jobs)[job := old(jobs)[job].(cancelled := true)] else old(jobs)
    {
      if job < |jobs| {
        jobs := jobs[job := jobs[job].(cancelled := true)];
      }
    }

    method GenerateKeySync(account: string, answer: Result<WireguardData, KeyError>)
      returns (r: Result<WireguardData, KeyError>)
      modifies this
      ensures View() == ResetKeys(old(View())) && r == answer
    {
      Reset();
      r := answer;
    }

    method GenerateKeyAsync(account: string, started: bool)
      modifies this
      ensures View() == StartJob(old(View()), account, started)
    {
      Reset();
      if started {
        jobs := jobs + [Job(account, false, false, false)];
        currentJob := Some(|jobs| - 1);
      }
    }
  }

  // ----- The daemon -----

  class Daemon {
    var execution: ExecutionState
    var tunnelState: TunnelState
    var targetState: TargetState
    var reconnectionLoop: Option<nat>
    var timers: seq<Timer>
    var sent: seq<TunnelCommand>
    var keyEvents: seq<KeygenEvent>
    var account: Option<string>
    var allowLan: bool
    var blockWhenDisconnected: bool
    const history: AccountHistory
    const keyManager: KeyManager

    function View(): State
      reads this, history, keyManager
    {
      State(execution, tunnelState, targetState, reconnectionLoop, timers, sent, keyEvents, account, allowLan,
            blockWhenDisconnected, history.accounts, keyManager.View())
    }

    constructor (
      account: Option<string>, allowLan: bool, blockWhenDisconnected: bool, loaded: seq<AccountEntry>, answers: Answers)
      ensures View() == Initial(account, allowLan, blockWhenDisconnected, loaded, answers.jobStarted)
      ensures fresh(history) && fresh(keyManager)
    {
      execution, tunnelState, targetState := Running, Disconnected, Unsecured;
      reconnectionLoop, timers, sent, keyEvents := None, [], [], [];
      this.account, this.allowLan, this.blockWhenDisconnected := account, allowLan, blockWhenDisconnected;
      history := new AccountHistory(loaded);
      keyManager := new KeyManager();
      new;
      EnsureWireguardKeysForCurrentAccount(answers);
    }

    /** Handles events until the daemon has finished or the management interface exits, which is an error. */
    method Run(autoConnect: bool, events: seq<(Event, Answers)>) returns (interfaceExited: bool)
      modifies this, history, keyManager
      ensures (View(), interfaceExited) == AfterEvents(Started(old(View()), autoConnect), events)
    {
      if autoConnect && account.Some? {
        SetTargetState(Secured);
      }
      ghost var start := View();
      interfaceExited := false;
      for i := 0 to |events|
        invariant !interfaceExited
        invariant AfterEvents(start, events) == AfterEvents(View(), events[i..])
      {
        assert events[i..][0] == events[i] && events[i..][1..] == events[i + 1..];
        interfaceExited := HandleEvent(events[i].0, events[i].1);
        if interfaceExited || execution == Finished {
          return;
        }
      }
    }

    method HandleEvent(event: Event, answers: Answers) returns (interfaceExited: bool)
      modifies this, history, keyManager
      ensures View() == Handled(old(View()), event, answers)
      ensures interfaceExited <==> event.ManagementInterfaceExited?
    {
      interfaceExited := false;
      match event {
        case TunnelStateTransition(tunnel) => HandleTunnelStateTransition(tunnel);
        case GenerateTunnelParameters => HandleGenerateTunnelParameters(answers.isWireguard);
        case ManagementInterfaceEvent(command) => HandleManagementInterfaceEvent(command, answers);
        case ManagementInterfaceExited => interfaceExited := true;
        case TriggerShutdown => TriggerShutdownEvent();
        case WgKeyEvent(account, result) => HandleWireguardKeyEvent(account, result);
      }
    }

    method HandleTunnelStateTransition(tunnel: TunnelState)
      modifies this
      ensures View() == OnTransition(old(View()), tunnel)
    {
      UnscheduleReconnect();
      match tunnel {
        case Disconnected =>
          if execution == Exiting {
            execution := Finished;
          }
        case Blocked(reason) =>
          if reason == AuthFailed {
            ScheduleReconnect();
          }
        case _ =>
      }
      tunnelState := tunnel;
    }

    method ScheduleReconnect()
      modifies this`reconnectionLoop, this`timers
      ensures View() == Scheduled(old(View()))
    {
      reconnectionLoop := Some(|timers|);
      timers := timers + [Waiting];
    }

    method UnscheduleReconnect()
      modifies this`reconnectionLoop, this`timers
      ensures View() == Unscheduled(old(View()))
    {
      if reconnectionLoop.Some? {
        var i := reconnectionLoop.value;
        reconnectionLoop := None;
        if i < |timers| && timers[i] == Waiting {
          timers := timers[i := Stopped];
        }
      }
    }

    method HandleGenerateTunnelParameters(isWireguard: bool)
      modifies history
      ensures View() == Handled(old(View()), GenerateTunnelParameters, Answers(true, Err(OtherKeyError), isWireguard))
    {
      if account.Some? && isWireguard {
        var entry := history.Get(account.value);
      }
    }

    method HandleManagementInterfaceEvent(command: ManagementCommand, answers: Answers)
      modifies this, history, keyManager
      ensures View() == OnManagement(old(View()), command, answers)
    {
      if execution != Running {
        return;
      }
      match command {
        case SetTargetState(target) => SetTargetState(target);
        case SetAccount(token) => HandleSetAccount(token, answers);
        case RemoveAccountFromHistory(account) => history.RemoveAccount(account);
        case SetAllowLan(allowed) => HandleSetAllowLan(allowed);
        case SetBlockWhenDisconnected(blocked) => HandleSetBlockWhenDisconnected(blocked);
        case UpdateTunnelSettings(changed) =>
          if changed {
            ReconnectTunnel();
          }
        case GenerateWireguardKey => HandleGenerateWireguardKey(answers);
        case GetWireguardKey => HandleGetWireguardKey();
        case FactoryReset => HandleFactoryReset();
        case Shutdown => TriggerShutdownEvent();
        case _ =>
      }
    }

    method HandleSetAllowLan(allowed: bool)
      modifies this`allowLan, this`sent
      ensures View() == OnSetAllowLan(old(View()), allowed)
    {
      if allowed != allowLan {
        allowLan := allowed;
        SendTunnelCommand(AllowLan(allowed));
      }
    }

    method HandleSetBlockWhenDisconnected(blocked: bool)
      modifies this`blockWhenDisconnected, this`sent
      ensures View() == OnSetBlockWhenDisconnected(old(View()), blocked)
    {
      if blocked != blockWhenDisconnected {
        blockWhenDisconnected := blocked;
        SendTunnelCommand(BlockWhenDisconnected(blocked));
      }
    }

    method HandleGetWireguardKey()
      modifies history
      ensures View() == OnGetWireguardKey(old(View()))
    {
      if account.Some? {
        var entry := history.Get(account.value);
      }
    }

    method HandleSetAccount(token: Option<string>, answers: Answers)
      modifies this, history, keyManager
      ensures View() == OnSetAccount(old(View()), token, answers.jobStarted)
    {
      var newAccount := if token == Some("") then None else token;
      if newAccount == account {
        return;
      }
      account := newAccount;
      EnsureWireguardKeysForCurrentAccount(answers);
      match token {
        case Some(name) =>
          history.BumpHistory(name);
          ReconnectTunnel();
        case None => SetTargetState(Unsecured);
      }
    }

    method HandleFactoryReset()
      modifies this, history
      ensures View() == OnFactoryReset(old(View()))
    {
      account, allowLan, blockWhenDisconnected := None, false, false;
      history.Clear();
      TriggerShutdownEvent();
    }

    method EnsureWireguardKeysForCurrentAccount(answers: Answers)
      modifies history, keyManager
      ensures View() == EnsureKeys(old(View()), answers.jobStarted)
    {
      if account.Some? {
        var entry := history.Get(account.value);
        if entry.None? || entry.value.wireguard.None? {
          keyManager.GenerateKeyAsync(account.value, answers.jobStarted);
        }
      }
    }

    method HandleGenerateWireguardKey(answers: Answers)
      modifies this`keyEvents, history, keyManager
      ensures View() == OnGenerateKey(old(View()), answers.generated)
    {
      if account.None? {
        return;
      }
      var entry := history.Get(account.value);
      var accountEntry := if entry.Some? then entry.value else AccountEntry(account.value, None);
      var generated := keyManager.GenerateKeySync(account.value, answers.generated);
      if generated.Ok? {
        accountEntry := accountEntry.(wireguard := Some(generated.value));
        history.Insert(accountEntry);
        keyEvents := keyEvents + [NewKey(generated.value.privateKey)];
      }
    }

    method HandleWireguardKeyEvent(eventAccount: string, result: Result<WireguardData, KeyError>)
      modifies this`keyEvents, history
      ensures View() == OnKeyEvent(old(View()), eventAccount, result)
    {
      if account != Some(eventAccount) {
        return;
      }
      match result {
        case Ok(data) =>
          var entry := history.Get(eventAccount);
          var accountEntry := if entry.Some? then entry.value else AccountEntry(eventAccount, None);
          accountEntry := accountEntry.(wireguard := Some(data));
          history.Insert(accountEntry);
          keyEvents := keyEvents + [NewKey(data.privateKey)];
        case Err(TooManyKeys) => keyEvents := keyEvents + [TooManyKeysEvent];
        case Err(OtherKeyError) => keyEvents := keyEvents + [GenerationFailure];
      }
    }

    method TriggerShutdownEvent()
      modifies this`execution, this`sent
      ensures View() == ShutDown(old(View()))
    {
      if execution == Running {
        execution := if tunnelState == Disconnected then Finished else Exiting;
      }
      SendTunnelCommand(Disconnect);
    }

    method SetTargetState(newState: TargetState)
      modifies this`targetState, this`sent
      ensures View() == WithTarget(old(View()), newState)
    {
      if newState != targetState || tunnelState.Blocked? {
        targetState := newState;
        match targetState {
          case Secured => SendTunnelCommand(Connect);
          case Unsecured => SendTunnelCommand(Disconnect);
        }
      }
    }

    method ReconnectTunnel()
      modifies this`sent
      ensures View() == Reconnected(old(View()))
    {
      if targetState == Secured {
        SendTunnelCommand(Connect);
      }
    }

    method SendTunnelCommand(command: TunnelCommand)
      modifies this`sent
      ensures View() == Send(old(View()), command)
    {
      sent := sent + [command];
    }
  }
}
