/** What holds in every run of the daemon, its timers and its key generations. */
module DaemonRuns {
  import opened AccountHistory
  import opened Daemon
  import opened Wrappers

  // ----- Runs -----

  /** The daemon, the events it has not handled, and the keys generated so far, with the account each is for. */
  datatype System = System(daemon: State, queue: seq<Event>, issued: set<(string, WireguardData)>, stopped: bool)

  datatype Step =
    | Arrive(event: Event)
    | TimerExpires(timer: nat)
    | TimerFires(timer: nat)
    | AskJob(job: nat)
    | PollJob(job: nat, outcome: Option<Result<WireguardData, KeyError>>)
    | HandleNext(answers: Answers)

  function KeysOf(account: string, result: Result<WireguardData, KeyError>): set<(string, WireguardData)> {
    match result case Ok(data) => {(account, data)} case Err(_) => {}
  }

  /** The key generated while an event is handled. */
  function IssuedBy(s: State, event: Event, answers: Answers): set<(string, WireguardData)> {
    if event == ManagementInterfaceEvent(GenerateWireguardKey) && s.execution.Running? && s.account.Some?
    then KeysOf(s.account.value, answers.generated)
    else {}
  }

  function WithTimer(y: System, i: nat, timer: Timer): System
    requires i < |y.daemon.timers|
  {
    y.(daemon := y.daemon.(timers := y.daemon.timers[i := timer]))
  }

  function WithJob(y: System, i: nat, job: Job): System
    requires i < |y.daemon.keys.jobs|
  {
    y.(daemon := y.daemon.(keys := y.daemon.keys.(jobs := y.daemon.keys.jobs[i := job])))
  }

  /** A key generation that is found cancelled ends without a word. */
  function Asked(y: System, i: nat): System {
    if i >= |y.daemon.keys.jobs| || y.daemon.keys.jobs[i].done || y.daemon.keys.jobs[i].passed then y
    else
      var job := y.daemon.keys.jobs[i];
      WithJob(y, i, if job.cancelled then job.(done := true) else job.(passed := true))
  }

  /** One that was found not cancelled goes on, and reports once it is done, even if it was cancelled meanwhile. */
  function Polled(y: System, i: nat, outcome: Option<Result<WireguardData, KeyError>>): System {
    if i >= |y.daemon.keys.jobs| || y.daemon.keys.jobs[i].done || !y.daemon.keys.jobs[i].passed then y
    else
      var job := y.daemon.keys.jobs[i];
      if outcome.None? then WithJob(y, i, job.(passed := false))
      else
        WithJob(y, i, job.(done := true)).(
          queue := y.queue + [WgKeyEvent(job.account, outcome.value)],
          issued := y.issued + KeysOf(job.account, outcome.value))
  }

  function Next(y: System, step: Step): System {
    match step
    case Arrive(event) => if event.WgKeyEvent? then y else y.(queue := y.queue + [event])
    case TimerExpires(i) =>
      if i < |y.daemon.timers| && y.daemon.timers[i].Waiting? then WithTimer(y, i, Expired) else y
    case TimerFires(i) =>
      if i < |y.daemon.timers| && y.daemon.timers[i].Expired? then
        WithTimer(y, i, Fired).(queue := y.queue + [ManagementInterfaceEvent(SetTargetState(Secured))])
      else y
    case AskJob(i) => Asked(y, i)
    case PollJob(i, outcome) => Polled(y, i, outcome)
    case HandleNext(answers) =>
      if y.queue == [] || y.stopped || y.daemon.execution.Finished? then y
      else
        System(Handled(y.daemon, y.queue[0], answers), y.queue[1..],
               y.issued + IssuedBy(y.daemon, y.queue[0], answers), y.queue[0].ManagementInterfaceExited?)
  }

  function Run(y: System, steps: seq<Step>): System {
    if steps == [] then y else Next(Run(y, steps[..|steps| - 1]), steps[|steps| - 1])
  }

  // ----- What always holds -----

  /** Only while there is a tunnel to take down is the daemon exiting. */
  ghost predicate ExecutionFits(s: State) {
    && (s.execution.Exiting? ==> !s.tunnel.Disconnected?)
    && (s.execution.Finished? ==> s.tunnel.Disconnected?)
  }

  /** The last command to connect or disconnect. */
  function LastCommand(sent: seq<TunnelCommand>): Option<TunnelCommand> {
    if sent == [] then None
    else
      var last := sent[|sent| - 1];
      if last.Connect? || last.Disconnect? then Some(last) else LastCommand(sent[..|sent| - 1])
  }

  lemma LastCommandSnoc(sent: seq<TunnelCommand>, command: TunnelCommand)
    ensures LastCommand(sent + [command]) ==
            if command.Connect? || command.Disconnect? then Some(command) else LastCommand(sent)
  {
    assert (sent + [command])[..|sent|] == sent;
  }

  /** The tunnel was told what the target is, and once the daemon shuts down, to disconnect. */
  ghost predicate CommandFits(s: State) {
    var last := LastCommand(s.sent);
    if s.execution.Running? then
      if s.target == Secured then last == Some(Connect) else last == None || last == Some(Disconnect)
    else last == Some(Disconnect)
  }

  /** There is a handle to stop the reconnection exactly while authentication has failed; no other timer waits. */
  ghost predicate ReconnectFits(s: State) {
    && (s.reconnect.Some? <==> s.tunnel == Blocked(AuthFailed))
    && (s.reconnect.Some? ==> s.reconnect.value < |s.timers| && !s.timers[s.reconnect.value].Stopped?)
    && forall i | 0 <= i < |s.timers| && s.reconnect != Some(i) :: !s.timers[i].Waiting?
  }

  /** Every key generation but the current one is cancelled or done. */
  ghost predicate JobsFit(keys: Keys) {
    && (keys.current.Some? ==> keys.current.value < |keys.jobs| && !keys.jobs[keys.current.value].cancelled)
    && forall i | 0 <= i < |keys.jobs| && keys.current != Some(i) :: keys.jobs[i].cancelled || keys.jobs[i].done
  }

  /** Every key in the history was generated for the account it is kept with. */
  ghost predicate KeysFit(history: seq<AccountEntry>, issued: set<(string, WireguardData)>) {
    forall entry <- history :: entry.wireguard.Some? ==> (entry.account, entry.wireguard.value) in issued
  }

  ghost predicate QueueFits(queue: seq<Event>, issued: set<(string, WireguardData)>) {
    forall event <- queue :: event.WgKeyEvent? && event.result.Ok? ==> (event.account, event.result.value) in issued
  }

  ghost predicate Inv(y: System) {
    && ExecutionFits(y.daemon) && CommandFits(y.daemon) && ReconnectFits(y.daemon) && JobsFit(y.daemon.keys)
    && KeysFit(y.daemon.history, y.issued) && QueueFits(y.queue, y.issued)
  }

  // ----- History -----

  /** No operation makes up data. */
  lemma InsertedKeysFit(history: seq<AccountEntry>, entry: AccountEntry, issued: set<(string, WireguardData)>)
    requires KeysFit(history, issued) && (entry.wireguard.Some? ==> (entry.account, entry.wireguard.value) in issued)
    ensures KeysFit(Inserted(history, entry), issued)
  {
    RetainedEntries(history, entry.account);
  }

  lemma GotKeysFit(history: seq<AccountEntry>, account: string, issued: set<(string, WireguardData)>)
    requires KeysFit(history, issued)
    ensures KeysFit(Got(history, account), issued) && KeysFit(Retain(history, account), issued)
    ensures KeysFit(Bumped(history, account), issued)
  {
    RetainedEntries(history, account);
    var i := IndexOf(history, account);
    if i.Some? {
      assert history[i.value] in history;
      InsertedKeysFit(history, history[i.value], issued);
    } else {
      InsertedKeysFit(history, AccountEntry(account, None), issued);
    }
  }

  lemma ResetJobsFit(keys: Keys)
    requires JobsFit(keys)
    ensures JobsFit(ResetKeys(keys)) && ResetKeys(keys).current.None?
  {}

  lemma StartedJobsFit(keys: Keys, account: string, started: bool)
    requires JobsFit(keys)
    ensures JobsFit(StartJob(keys, account, started))
  {
    ResetJobsFit(keys);
  }

  // ----- Every step keeps it -----

  /** What the handlers of accounts and keys leave alone. */
  ghost predicate SameTunnel(s: State, t: State) {
    t.execution == s.execution && t.tunnel == s.tunnel && t.target == s.target && t.reconnect == s.reconnect &&
    t.timers == s.timers && t.sent == s.sent
  }

  ghost predicate TunnelFits(s: State) {
    ExecutionFits(s) && CommandFits(s) && ReconnectFits(s)
  }

  ghost predicate DataFits(s: State, issued: set<(string, WireguardData)>) {
    JobsFit(s.keys) && KeysFit(s.history, issued)
  }

  lemma EnsureKeysFits(s: State, started: bool, issued: set<(string, WireguardData)>)
    requires DataFits(s, issued)
    ensures SameTunnel(s, EnsureKeys(s, started)) && DataFits(EnsureKeys(s, started), issued)
  {
    if s.account.Some? {
      GotKeysFit(s.history, s.account.value, issued);
      StartedJobsFit(s.keys, s.account.value, started);
    }
  }

  lemma OnKeyEventFits(
    s: State, account: string, result: Result<WireguardData, KeyError>, issued: set<(string, WireguardData)>)
    requires DataFits(s, issued) && (result.Ok? ==> (account, result.value) in issued)
    ensures SameTunnel(s, OnKeyEvent(s, account, result)) && DataFits(OnKeyEvent(s, account, result), issued)
  {
    if result.Ok? {
      GotKeysFit(s.history, account, issued);
      InsertedKeysFit(Got(s.history, account), AccountEntry(account, Some(result.value)), issued);
    }
  }

  lemma OnGenerateKeyFits(s: State, result: Result<WireguardData, KeyError>, issued: set<(string, WireguardData)>)
    requires DataFits(s, issued)
    ensures SameTunnel(s, OnGenerateKey(s, result))
    ensures DataFits(OnGenerateKey(s, result), issued + if s.account.Some? then KeysOf(s.account.value, result) else {})
  {
    if s.account.Some? {
      var more := issued + KeysOf(s.account.value, result);
      GotKeysFit(s.history, s.account.value, issued);
      ResetJobsFit(s.keys);
      if result.Ok? {
        InsertedKeysFit(Got(s.history, s.account.value), AccountEntry(s.account.value, Some(result.value)), more);
      }
    }
  }

  lemma WithTargetFits(s: State, target: TargetState)
    requires TunnelFits(s) && s.execution.Running?
    ensures TunnelFits(WithTarget(s, target)) && WithTarget(s, target).execution.Running?
  {
    LastCommandSnoc(s.sent, if target == Secured then Connect else Disconnect);
  }

  lemma ReconnectedFits(s: State)
    requires TunnelFits(s) && s.execution.Running?
    ensures TunnelFits(Reconnected(s)) && Reconnected(s).execution.Running?
  {
    LastCommandSnoc(s.sent, Connect);
  }

  lemma ShutDownFits(s: State)
    requires TunnelFits(s)
    ensures TunnelFits(ShutDown(s)) && !ShutDown(s).execution.Running?
  {
    LastCommandSnoc(s.sent, Disconnect);
  }

  lemma SettingSent(s: State, t: State, command: TunnelCommand)
    requires TunnelFits(s) && SameTunnel(s, t) && !command.Connect? && !command.Disconnect?
    ensures TunnelFits(Send(t, command))
  {
    LastCommandSnoc(s.sent, command);
  }

  lemma OnTransitionFits(s: State, tunnel: TunnelState)
    requires TunnelFits(s) && !s.execution.Finished?
    ensures TunnelFits(OnTransition(s, tunnel))
  {
    var u := Unscheduled(s);
    assert forall i | 0 <= i < |u.timers| :: !u.timers[i].Waiting?;
  }

  lemma OnSetAccountFits(s: State, token: Option<string>, started: bool, issued: set<(string, WireguardData)>)
    requires TunnelFits(s) && DataFits(s, issued) && s.execution.Running?
    ensures TunnelFits(OnSetAccount(s, token, started)) && DataFits(OnSetAccount(s, token, started), issued)
  {
    var account := if token == Some("") then None else token;
    if account != s.account {
      var changed := s.(account := account);
      var ensured := EnsureKeys(changed, started);
      EnsureKeysFits(changed, started, issued);
      match token {
        case Some(name) =>
          GotKeysFit(ensured.history, name, issued);
          ReconnectedFits(ensured.(history := Bumped(ensured.history, name)));
        case None => WithTargetFits(ensured, Unsecured);
      }
    }
  }

  lemma OnSetAllowLanFits(s: State, allowed: bool, issued: set<(string, WireguardData)>)
    requires TunnelFits(s) && DataFits(s, issued)
    ensures TunnelFits(OnSetAllowLan(s, allowed)) && DataFits(OnSetAllowLan(s, allowed), issued)
  {
    SettingSent(s, s.(allowLan := allowed), AllowLan(allowed));
  }

  lemma OnSetBlockWhenDisconnectedFits(s: State, blocked: bool, issued: set<(string, WireguardData)>)
    requires TunnelFits(s) && DataFits(s, issued)
    ensures TunnelFits(OnSetBlockWhenDisconnected(s, blocked))
    ensures DataFits(OnSetBlockWhenDisconnected(s, blocked), issued)
  {
    SettingSent(s, s.(blockWhenDisconnected := blocked), BlockWhenDisconnected(blocked));
  }

  lemma OnGetWireguardKeyFits(s: State, issued: set<(string, WireguardData)>)
    requires TunnelFits(s) && DataFits(s, issued)
    ensures TunnelFits(OnGetWireguardKey(s)) && DataFits(OnGetWireguardKey(s), issued)
  {
    if s.account.Some? {
      GotKeysFit(s.history, s.account.value, issued);
    }
  }

  lemma OnFactoryResetFits(s: State, issued: set<(string, WireguardData)>)
    requires TunnelFits(s) && DataFits(s, issued)
    ensures TunnelFits(OnFactoryReset(s)) && DataFits(OnFactoryReset(s), issued)
  {
    ShutDownFits(s.(account := None, allowLan := false, blockWhenDisconnected := false, history := []));
  }

  lemma OtherManagementFits(
    s: State, command: ManagementCommand, answers: Answers, issued: set<(string, WireguardData)>)
    requires TunnelFits(s) && DataFits(s, issued) && s.execution.Running? && !command.GenerateWireguardKey?
    ensures TunnelFits(OnManagement(s, command, answers)) && DataFits(OnManagement(s, command, answers), issued)
  {
    match command {
      case SetTargetState(target) => WithTargetFits(s, target);
      case SetAccount(token) => OnSetAccountFits(s, token, answers.jobStarted, issued);
      case RemoveAccountFromHistory(account) => GotKeysFit(s.history, account, issued);
      case SetAllowLan(allowed) => OnSetAllowLanFits(s, allowed, issued);
      case SetBlockWhenDisconnected(blocked) => OnSetBlockWhenDisconnectedFits(s, blocked, issued);
      case UpdateTunnelSettings(changed) => ReconnectedFits(s);
      case GetWireguardKey => OnGetWireguardKeyFits(s, issued);
      case FactoryReset => OnFactoryResetFits(s, issued);
      case Shutdown => ShutDownFits(s);
      case _ =>
    }
  }

  lemma OnManagementFits(s: State, command: ManagementCommand, answers: Answers, issued: set<(string, WireguardData)>)
    requires TunnelFits(s) && DataFits(s, issued)
    ensures var more := issued + IssuedBy(s, ManagementInterfaceEvent(command), answers);
            TunnelFits(OnManagement(s, command, answers)) && DataFits(OnManagement(s, command, answers), more)
  {
    if s.execution.Running? {
      if command.GenerateWireguardKey? {
        OnGenerateKeyFits(s, answers.generated, issued);
      } else {
        OtherManagementFits(s, command, answers, issued);
      }
    }
  }

  lemma HandledFits(s: State, event: Event, answers: Answers, issued: set<(string, WireguardData)>)
    requires TunnelFits(s) && DataFits(s, issued) && !s.execution.Finished?
    requires event.WgKeyEvent? && event.result.Ok? ==> (event.account, event.result.value) in issued
    ensures TunnelFits(Handled(s, event, answers))
    ensures DataFits(Handled(s, event, answers), issued + IssuedBy(s, event, answers))
  {
    match event {
      case TunnelStateTransition(tunnel) => OnTransitionFits(s, tunnel);
      case GenerateTunnelParameters =>
        if s.account.Some? {
          GotKeysFit(s.history, s.account.value, issued);
        }
      case ManagementInterfaceEvent(command) => OnManagementFits(s, command, answers, issued);
      case ManagementInterfaceExited =>
      case TriggerShutdown => ShutDownFits(s);
      case WgKeyEvent(account, result) => OnKeyEventFits(s, account, result, issued);
    }
  }

  lemma JobChanged(keys: Keys, i: nat, job: Job)
    requires JobsFit(keys) && i < |keys.jobs|
    requires job.cancelled == keys.jobs[i].cancelled && (keys.jobs[i].done ==> job.done)
    ensures JobsFit(keys.(jobs := keys.jobs[i := job]))
  {}

  lemma MoreIssued(history: seq<AccountEntry>, queue: seq<Event>, event: Event,
                   issued: set<(string, WireguardData)>, more: set<(string, WireguardData)>)
    requires KeysFit(history, issued) && QueueFits(queue, issued)
    requires event.WgKeyEvent? && event.result.Ok? ==> (event.account, event.result.value) in issued + more
    ensures KeysFit(history, issued + more) && QueueFits(queue, issued + more)
    ensures QueueFits(queue + [event], issued + more)
  {}

  lemma AskedFits(y: System, i: nat)
    requires Inv(y)
    ensures Inv(Asked(y, i))
  {
    var keys := y.daemon.keys;
    if i < |keys.jobs| {
      JobChanged(keys, i, keys.jobs[i].(done := true));
      JobChanged(keys, i, keys.jobs[i].(passed := true));
    }
  }

  lemma PolledFits(y: System, i: nat, outcome: Option<Result<WireguardData, KeyError>>)
    requires Inv(y)
    ensures Inv(Polled(y, i, outcome))
  {
    var keys := y.daemon.keys;
    if i < |keys.jobs| {
      var job := keys.jobs[i];
      if outcome.None? {
        JobChanged(keys, i, job.(passed := false));
      } else {
        JobChanged(keys, i, job.(done := true));
        var account := job.account;
        MoreIssued(y.daemon.history, y.queue, WgKeyEvent(account, outcome.value), y.issued,
                   KeysOf(account, outcome.value));
      }
    }
  }

  lemma NextKeepsInv(y: System, step: Step)
    requires Inv(y)
    ensures Inv(Next(y, step))
  {
    match step {
      case Arrive(event) =>
      case TimerExpires(i) =>
      case TimerFires(i) =>
      case AskJob(i) => AskedFits(y, i);
      case PollJob(i, outcome) => PolledFits(y, i, outcome);
      case HandleNext(answers) =>
        if y.queue != [] && !y.stopped && !y.daemon.execution.Finished? {
          assert y.queue[0] in y.queue;
          HandledFits(y.daemon, y.queue[0], answers, y.issued);
        }
    }
  }

  /** How a run begins: with a history whose keys were generated for the accounts they are kept with. */
  ghost predicate IsStart(y: System) {
    exists account, allowLan, blocked, history, started, autoConnect ::
      IsStartWith(y, account, allowLan, blocked, history, started, autoConnect)
  }

  ghost predicate IsStartWith(
    y: System, account: Option<string>, allowLan: bool, blocked: bool, history: seq<AccountEntry>, started: bool,
    autoConnect: bool)
  {
    && y.daemon == Started(Initial(account, allowLan, blocked, history, started), autoConnect)
    && y.queue == [] && !y.stopped && KeysFit(history, y.issued)
  }

  lemma StartHasInv(y: System)
    requires IsStart(y)
    ensures Inv(y)
  {
    var account, allowLan, blocked, history, started, autoConnect :|
      IsStartWith(y, account, allowLan, blocked, history, started, autoConnect);
    var fresh' :=
      State(Running, Disconnected, Unsecured, None, [], [], [], account, allowLan, blocked, history, Keys(None, []));
    EnsureKeysFits(fresh', started, y.issued);
    WithTargetFits(EnsureKeys(fresh', started), Secured);
  }

  /**
   In every run: exiting and finished fit the tunnel state, the last command fits the target or the
   shutdown, the reconnection is armed exactly after failed authentication, every key generation but
   the current one is cancelled or done, and every key in the history belongs to its account.
   */
  lemma {:induction false} RunKeepsInv(y: System, steps: seq<Step>)
    requires IsStart(y)
    ensures Inv(Run(y, steps))
  {
    if steps == [] {
      StartHasInv(y);
    } else {
      RunKeepsInv(y, steps[..|steps| - 1]);
      NextKeepsInv(Run(y, steps[..|steps| - 1]), steps[|steps| - 1]);
    }
  }

  // ----- Key generations that report -----

  /** A key generation that was cancelled reports only if the question about that came before. */
  predicate MayReport(job: Job) {
    !job.done && (!job.cancelled || job.passed)
  }

  /** In the step something is reported by the key generation. */
  predicate Reports(y: System, step: Step, i: nat) {
    step.PollJob? && step.job == i && Next(y, step).queue != y.queue
  }

  /** Nothing but the executor asks a key generation or ends it, and no cancellation is taken back. */
  ghost predicate OnlyCancelled(jobs: seq<Job>, later: seq<Job>) {
    && |jobs| <= |later|
    && forall i | 0 <= i < |jobs| :: later[i] == jobs[i] || later[i] == jobs[i].(cancelled := true)
  }

  lemma EnsureKeysCancels(s: State, started: bool)
    ensures OnlyCancelled(s.keys.jobs, EnsureKeys(s, started).keys.jobs)
  {}

  lemma SetAccountCancels(s: State, token: Option<string>, started: bool)
    ensures OnlyCancelled(s.keys.jobs, OnSetAccount(s, token, started).keys.jobs)
  {
    EnsureKeysCancels(s.(account := if token == Some("") then None else token), started);
  }

  lemma OtherCommandsCancel(s: State, command: ManagementCommand, answers: Answers)
    requires !command.SetAccount?
    ensures OnlyCancelled(s.keys.jobs, OnManagement(s, command, answers).keys.jobs)
  {}

  lemma HandledCancels(s: State, event: Event, answers: Answers)
    ensures OnlyCancelled(s.keys.jobs, Handled(s, event, answers).keys.jobs)
  {
    match event {
      case ManagementInterfaceEvent(SetAccount(token)) => SetAccountCancels(s, token, answers.jobStarted);
      case ManagementInterfaceEvent(command) => OtherCommandsCancel(s, command, answers);
      case _ => assert Handled(s, event, answers).keys == s.keys;
    }
  }

  lemma NextStaysSilent(y: System, i: nat, step: Step)
    requires i < |y.daemon.keys.jobs| && !MayReport(y.daemon.keys.jobs[i])
    ensures var jobs := Next(y, step).daemon.keys.jobs; i < |jobs| && !MayReport(jobs[i])
  {
    if step.HandleNext? {
      if y.queue != [] && !y.stopped && !y.daemon.execution.Finished? {
        HandledCancels(y.daemon, y.queue[0], step.answers);
      }
    }
  }

  lemma {:induction false} SilentStaysSilent(y: System, i: nat, steps: seq<Step>)
    requires i < |y.daemon.keys.jobs| && !MayReport(y.daemon.keys.jobs[i])
    ensures var jobs := Run(y, steps).daemon.keys.jobs; i < |jobs| && !MayReport(jobs[i])
  {
    if steps != [] {
      var init, last := steps[..|steps| - 1], steps[|steps| - 1];
      SilentStaysSilent(y, i, init);
      NextStaysSilent(Run(y, init), i, last);
    }
  }

  /** Whatever happens: a key generation can report some time exactly if it may now. */
  lemma ReportsIff(y: System, i: nat)
    requires i < |y.daemon.keys.jobs|
    ensures MayReport(y.daemon.keys.jobs[i]) <==> exists steps, step :: Reports(Run(y, steps), step, i)
  {
    var reports := PollJob(i, Some(Err(OtherKeyError)));
    if MayReport(y.daemon.keys.jobs[i]) {
      RunOne(y, AskJob(i));
      var z := Run(y, [AskJob(i)]);
      assert |Next(z, reports).queue| == |z.queue| + 1;
      assert Reports(z, reports, i);
    } else {
      forall steps, step ensures !Reports(Run(y, steps), step, i) {
        SilentStaysSilent(y, i, steps);
      }
    }
  }

  // ----- What the tunnel is told -----

  /** The command that goes with a target. */
  function Towards(target: TargetState): TunnelCommand {
    match target case Secured => Connect case Unsecured => Disconnect
  }

  /**
   Exactly what handling a request for a target does, for every state and both targets: the tunnel is
   told if the target is a new one, or if it is blocked and so has to be told again.
   */
  lemma TargetIsSentIff(s: State, target: TargetState, answers: Answers)
    requires s.execution.Running?
    ensures var t := Handled(s, ManagementInterfaceEvent(SetTargetState(target)), answers);
            && t == s.(target := target, sent := t.sent)
            && (t.sent == s.sent + [Towards(target)] || t.sent == s.sent)
            && (t.sent == s.sent + [Towards(target)] <==> target != s.target || s.tunnel.Blocked?)
  {
    assert |s.sent + [Towards(target)]| == |s.sent| + 1;
  }

  /**
   The purpose of the reconnection timer: whatever the target is when its time is up, the tunnel that
   failed authentication blocks is told exactly once to connect, and the target is secured.
   */
  lemma ReconnectionConnects(y: System, answers: Answers)
    requires !y.stopped && y.queue == [] && y.daemon.execution.Running? && ReconnectionIsArmed(y.daemon)
    ensures var i := y.daemon.reconnect.value;
            var now := Run(y, [TimerExpires(i), TimerFires(i), HandleNext(answers)]);
            now.queue == [] && now.daemon.target == Secured && now.daemon.sent == y.daemon.sent + [Connect]
  {
    var i := y.daemon.reconnect.value;
    FiveSteps(y, TimerExpires(i), TimerFires(i), HandleNext(answers), HandleNext(answers), HandleNext(answers));
    var z := Next(Next(y, TimerExpires(i)), TimerFires(i));
    assert z.queue == [ManagementInterfaceEvent(SetTargetState(Secured))];
    TargetIsSentIff(z.daemon, Secured, answers);
  }

  /** The commands about the firewall that a running daemon sends for a changed setting. */
  function SettingCommands(s: State, command: ManagementCommand): seq<TunnelCommand> {
    match command
    case SetAllowLan(allowed) => if allowed == s.allowLan then [] else [AllowLan(allowed)]
    case SetBlockWhenDisconnected(blocked) =>
      if blocked == s.blockWhenDisconnected then [] else [BlockWhenDisconnected(blocked)]
    case UpdateTunnelSettings(changed) => if changed && s.target == Secured then [Connect] else []
    case _ => []
  }

  /**
   Exactly what handling a setting does: the new value is kept, the tunnel is told of a changed value,
   and told to connect again if it is secured and the setting is one of the tunnel's.
   */
  lemma SettingIsSentIff(s: State, command: ManagementCommand, answers: Answers)
    requires s.execution.Running?
    requires command.SetAllowLan? || command.SetBlockWhenDisconnected? || command.UpdateTunnelSettings?
    ensures var t := Handled(s, ManagementInterfaceEvent(command), answers);
            && t.sent == s.sent + SettingCommands(s, command)
            && t.allowLan == (match command case SetAllowLan(allowed) => allowed case _ => s.allowLan)
            && t.blockWhenDisconnected ==
               (match command case SetBlockWhenDisconnected(blocked) => blocked case _ => s.blockWhenDisconnected)
            && SameTunnel(s.(sent := t.sent), t)
  {}

  /** At the start, the tunnel is told to connect exactly if that is wanted and there is an account. */
  lemma AutoConnectsIff(s: State, autoConnect: bool)
    requires s.target == Unsecured && s.sent == []
    ensures var t := Started(s, autoConnect);
            && t == s.(target := t.target, sent := t.sent)
            && (t.target == Secured <==> autoConnect && s.account.Some?)
            && t.sent == if t.target == Secured then [Connect] else []
  {}

  /** The value of each setting that was sent last. */
  function LastAllowLan(sent: seq<TunnelCommand>): Option<bool> {
    if sent == [] then None
    else
      match sent[|sent| - 1]
      case AllowLan(allowed) => Some(allowed)
      case _ => LastAllowLan(sent[..|sent| - 1])
  }

  function LastBlockWhenDisconnected(sent: seq<TunnelCommand>): Option<bool> {
    if sent == [] then None
    else
      match sent[|sent| - 1]
      case BlockWhenDisconnected(blocked) => Some(blocked)
      case _ => LastBlockWhenDisconnected(sent[..|sent| - 1])
  }

  function OrElse(value: Option<bool>, otherwise: bool): bool {
    match value case Some(v) => v case None => otherwise
  }

  /** The settings are those sent last, or those of the start. */
  predicate SettingsFit(s: State, allowLan: bool, blocked: bool) {
    s.execution.Running? ==>
      && s.allowLan == OrElse(LastAllowLan(s.sent), allowLan)
      && s.blockWhenDisconnected == OrElse(LastBlockWhenDisconnected(s.sent), blocked)
  }

  /** Commands to connect or disconnect leave that as it is. */
  lemma LastSettingSnoc(sent: seq<TunnelCommand>, command: TunnelCommand)
    ensures LastAllowLan(sent + [command]) == if command.AllowLan? then Some(command.allowed) else LastAllowLan(sent)
    ensures LastBlockWhenDisconnected(sent + [command]) ==
            if command.BlockWhenDisconnected? then Some(command.blocked) else LastBlockWhenDisconnected(sent)
  {
    assert (sent + [command])[..|sent|] == sent;
  }

  /** Either no command was sent, or one; the settings are kept. */
  ghost predicate KeepsSettings(s: State, t: State) {
    && t.allowLan == s.allowLan && t.blockWhenDisconnected == s.blockWhenDisconnected
    && (t.sent == s.sent || t.sent == s.sent + [Connect] || t.sent == s.sent + [Disconnect])
  }

  lemma EnsureKeysKeepsSettings(s: State, started: bool)
    ensures SameTunnel(s, EnsureKeys(s, started)) && KeepsSettings(s, EnsureKeys(s, started))
  {}

  lemma SetAccountKeepsSettings(s: State, token: Option<string>, started: bool)
    ensures KeepsSettings(s, OnSetAccount(s, token, started))
  {
    EnsureKeysKeepsSettings(s.(account := if token == Some("") then None else token), started);
  }

  lemma OtherCommandsKeepSettings(s: State, command: ManagementCommand, answers: Answers)
    requires !command.SetAccount? && !command.SetAllowLan? && !command.SetBlockWhenDisconnected?
    requires !command.FactoryReset?
    ensures KeepsSettings(s, OnManagement(s, command, answers))
  {}

  lemma HandledKeepsSettings(s: State, event: Event, answers: Answers)
    requires !event.ManagementInterfaceEvent?
    ensures KeepsSettings(s, Handled(s, event, answers))
  {}

  lemma HandledSettingsFit(s: State, event: Event, answers: Answers, allowLan: bool, blocked: bool)
    requires SettingsFit(s, allowLan, blocked) && s.execution.Running?
    ensures SettingsFit(Handled(s, event, answers), allowLan, blocked)
  {
    var t := Handled(s, event, answers);
    match event {
      case ManagementInterfaceEvent(SetAllowLan(allowed)) => LastSettingSnoc(s.sent, AllowLan(allowed));
      case ManagementInterfaceEvent(SetBlockWhenDisconnected(b)) => LastSettingSnoc(s.sent, BlockWhenDisconnected(b));
      case ManagementInterfaceEvent(FactoryReset) => assert !t.execution.Running?;
      case _ =>
        OthersKeepSettings(s, event, answers);
        KeptSettingsFit(s, t, allowLan, blocked);
    }
  }

  lemma OthersKeepSettings(s: State, event: Event, answers: Answers)
    requires event != ManagementInterfaceEvent(FactoryReset)
    requires event.ManagementInterfaceEvent? ==>
               !event.command.SetAllowLan? && !event.command.SetBlockWhenDisconnected?
    ensures KeepsSettings(s, Handled(s, event, answers))
  {
    match event {
      case ManagementInterfaceEvent(SetAccount(token)) => SetAccountKeepsSettings(s, token, answers.jobStarted);
      case ManagementInterfaceEvent(command) => OtherCommandsKeepSettings(s, command, answers);
      case _ => HandledKeepsSettings(s, event, answers);
    }
  }

  lemma KeptSettingsFit(s: State, t: State, allowLan: bool, blocked: bool)
    requires SettingsFit(s, allowLan, blocked) && s.execution.Running? && KeepsSettings(s, t)
    ensures SettingsFit(t, allowLan, blocked)
  {
    LastSettingSnoc(s.sent, Connect);
    LastSettingSnoc(s.sent, Disconnect);
  }

  lemma NextSettingsFit(y: System, step: Step, allowLan: bool, blocked: bool)
    requires SettingsFit(y.daemon, allowLan, blocked)
    ensures SettingsFit(Next(y, step).daemon, allowLan, blocked)
  {
    if step.HandleNext? && y.queue != [] && !y.stopped && !y.daemon.execution.Finished? {
      if y.daemon.execution.Running? {
        HandledSettingsFit(y.daemon, y.queue[0], step.answers, allowLan, blocked);
      } else {
        HandledAfterShutdown(y.daemon, y.queue[0], step.answers);
      }
    }
  }

  /**
   In every run, as long as the daemon runs: LAN sharing and blocking are what the tunnel was last told,
   or if it never was, what they were at the start.
   */
  lemma {:induction false} SettingsAreThoseSent(
    y: System, steps: seq<Step>, account: Option<string>, allowLan: bool, blocked: bool, history: seq<AccountEntry>,
    started: bool, autoConnect: bool)
    requires IsStartWith(y, account, allowLan, blocked, history, started, autoConnect)
    ensures SettingsFit(Run(y, steps).daemon, allowLan, blocked)
  {
    if steps == [] {
      var fresh' :=
        State(Running, Disconnected, Unsecured, None, [], [], [], account, allowLan, blocked, history, Keys(None, []));
      EnsureKeysKeepsSettings(fresh', started);
      LastSettingSnoc([], Connect);
      AutoConnectsIff(EnsureKeys(fresh', started), autoConnect);
    } else {
      var init := steps[..|steps| - 1];
      SettingsAreThoseSent(y, init, account, allowLan, blocked, history, started, autoConnect);
      NextSettingsFit(Run(y, init), steps[|steps| - 1], allowLan, blocked);
    }
  }

  /**
   What a step of the executor makes of a generation: while it has to wait it will be asked again, so that
   a cancellation meanwhile silences it; once it has reported, with its own account, it is over.
   */
  lemma PollDecides(y: System, i: nat, outcome: Option<Result<WireguardData, KeyError>>)
    requires i < |y.daemon.keys.jobs| && y.daemon.keys.jobs[i].passed && !y.daemon.keys.jobs[i].done
    ensures var job, z := y.daemon.keys.jobs[i], Next(y, PollJob(i, outcome));
            match outcome
            case None => z.queue == y.queue && (MayReport(z.daemon.keys.jobs[i]) <==> !job.cancelled)
            case Some(result) =>
              z.queue == y.queue + [WgKeyEvent(job.account, result)] && !MayReport(z.daemon.keys.jobs[i])
  {}

  /** Each generation reports at most once, whatever happens between. */
  lemma ReportsOnce(y: System, i: nat, first: Step, steps: seq<Step>, second: Step)
    requires i < |y.daemon.keys.jobs| && Reports(y, first, i)
    ensures !Reports(Run(Next(y, first), steps), second, i)
  {
    PollDecides(y, i, first.outcome);
    ReportsIff(Next(y, first), i);
  }

  // ----- Shutting down -----

  /** `later` is `sent` with commands to disconnect added. */
  ghost predicate OnlyDisconnects(sent: seq<TunnelCommand>, later: seq<TunnelCommand>) {
    sent <= later && forall i | |sent| <= i < |later| :: later[i] == Disconnect
  }

  lemma StepAfterShutdown(y: System, step: Step)
    requires !y.daemon.execution.Running?
    ensures !Next(y, step).daemon.execution.Running? && OnlyDisconnects(y.daemon.sent, Next(y, step).daemon.sent)
    ensures Next(y, step).daemon.target == y.daemon.target && Next(y, step).daemon.account == y.daemon.account
  {
    if step.HandleNext? && y.queue != [] && !y.stopped && !y.daemon.execution.Finished? {
      HandledAfterShutdown(y.daemon, y.queue[0], step.answers);
    }
  }

  lemma HandledAfterShutdown(s: State, event: Event, answers: Answers)
    requires !s.execution.Running?
    ensures var t := Handled(s, event, answers);
            && !t.execution.Running? && t.target == s.target && t.account == s.account
            && t.sent == if event.TriggerShutdown? then s.sent + [Disconnect] else s.sent
  {}

  /** Once the daemon shuts down it never runs again, and all it sends to the tunnel is to disconnect. */
  lemma {:induction false} AfterShutdownOnlyDisconnects(y: System, steps: seq<Step>)
    requires !y.daemon.execution.Running?
    ensures !Run(y, steps).daemon.execution.Running?
    ensures OnlyDisconnects(y.daemon.sent, Run(y, steps).daemon.sent)
    ensures Run(y, steps).daemon.target == y.daemon.target && Run(y, steps).daemon.account == y.daemon.account
  {
    if steps != [] {
      AfterShutdownOnlyDisconnects(y, steps[..|steps| - 1]);
      StepAfterShutdown(Run(y, steps[..|steps| - 1]), steps[|steps| - 1]);
    }
  }

  predicate AsksForShutdown(event: Event) {
    || event.TriggerShutdown?
    || event == ManagementInterfaceEvent(Shutdown)
    || event == ManagementInterfaceEvent(FactoryReset)
  }

  lemma {:induction false} StoppingFinishes(s: State, events: seq<(Event, Answers)>, j: nat)
    requires s.execution.Exiting? && j < |events| && events[j].0 == TunnelStateTransition(Disconnected)
    requires forall i | 0 <= i < j :: !events[i].0.ManagementInterfaceExited?
    ensures AfterEvents(s, events).0.execution.Finished? && !AfterEvents(s, events).1
    decreases |events|
  {
    var next := Handled(s, events[0].0, events[0].1);
    if j > 0 && !next.execution.Finished? {
      assert next.execution.Exiting?;
      StoppingFinishes(next, events[1..], j - 1);
    }
  }

  /**
   A shutdown asked for at any time is completed by the time the tunnel reports that it is
   disconnected, whatever else happens, unless the management interface dies.
   */
  lemma {:induction false} ShutdownFinishes(s: State, events: seq<(Event, Answers)>, i: nat, j: nat)
    requires i < j < |events| && !s.execution.Finished?
    requires AsksForShutdown(events[i].0) && events[j].0 == TunnelStateTransition(Disconnected)
    requires forall k | 0 <= k < j :: !events[k].0.ManagementInterfaceExited?
    ensures AfterEvents(s, events).0.execution.Finished? && !AfterEvents(s, events).1
    decreases |events|
  {
    if s.execution.Exiting? {
      StoppingFinishes(s, events, j);
    } else {
      var next := Handled(s, events[0].0, events[0].1);
      if !next.execution.Finished? {
        if i > 0 {
          ShutdownFinishes(next, events[1..], i - 1, j - 1);
        } else {
          assert next.execution.Exiting?;
          StoppingFinishes(next, events[1..], j - 1);
        }
      }
    }
  }

  // ----- The loop -----

  /** All events one after the other, whether or not one of them ends the loop. */
  function HandledAll(s: State, events: seq<(Event, Answers)>): State {
    if events == [] then s
    else
      var last := events[|events| - 1];
      Handled(HandledAll(s, events[..|events| - 1]), last.0, last.1)
  }

  lemma {:induction false} HandledAllCons(s: State, first: (Event, Answers), rest: seq<(Event, Answers)>)
    ensures HandledAll(s, [first] + rest) == HandledAll(Handled(s, first.0, first.1), rest)
  {
    var all := [first] + rest;
    if rest == [] {
      assert all[..0] == [];
      assert HandledAll(s, []) == s;
    } else {
      assert all[..|all| - 1] == [first] + rest[..|rest| - 1];
      HandledAllCons(s, first, rest[..|rest| - 1]);
    }
  }

  /** The first `n` events neither finish the daemon nor say that the management interface exited. */
  ghost predicate LoopGoesOn(s: State, events: seq<(Event, Answers)>, n: nat)
    requires n <= |events|
  {
    && (forall j | 0 <= j < n :: !events[j].0.ManagementInterfaceExited?)
    && (forall k | 0 < k <= n :: !HandledAll(s, events[..k]).execution.Finished?)
  }

  /**
   The loop ends at event `n`: with an error if that says that the management interface exited, and else
   because the daemon is finished after it. If there is no such event, it waits for more.
   */
  ghost predicate LoopEndsAt(s: State, events: seq<(Event, Answers)>, n: nat, end: (State, bool)) {
    && n <= |events| && LoopGoesOn(s, events, n)
    && if n == |events| then end == (HandledAll(s, events), false)
       else if events[n].0.ManagementInterfaceExited? then end == (HandledAll(s, events[..n]), true)
       else HandledAll(s, events[..n + 1]).execution.Finished? && end == (HandledAll(s, events[..n + 1]), false)
  }

  /** Where the loop ends, and how: events are handled in order, up to the first that ends it. */
  lemma {:induction false} LoopEnds(s: State, events: seq<(Event, Answers)>) returns (n: nat)
    ensures LoopEndsAt(s, events, n, AfterEvents(s, events))
    decreases |events|
  {
    n := 0;
    if events != [] && !events[0].0.ManagementInterfaceExited? {
      var next := Handled(s, events[0].0, events[0].1);
      LaterEvents(s, events);
      assert HandledAll(s, events[..1]) == next by {
        assert events[1..][..0] == [];
        assert HandledAll(next, []) == next;
      }
      if !next.execution.Finished? {
        var m := LoopEnds(next, events[1..]);
        n := m + 1;
        LoopEndsLater(s, events, m, AfterEvents(s, events));
      }
    }
  }

  lemma LoopEndsLater(s: State, events: seq<(Event, Answers)>, m: nat, end: (State, bool))
    requires events != [] && !events[0].0.ManagementInterfaceExited?
    requires var next := Handled(s, events[0].0, events[0].1);
             && !next.execution.Finished? && HandledAll(s, events[..1]) == next
             && LoopEndsAt(next, events[1..], m, end)
    ensures LoopEndsAt(s, events, m + 1, end)
  {
    var next, rest := Handled(s, events[0].0, events[0].1), events[1..];
    LaterEvents(s, events);
    forall j | 0 <= j < m + 1 ensures !events[j].0.ManagementInterfaceExited? {
      assert j > 0 ==> events[j] == rest[j - 1];
    }
    forall k | 0 < k <= m + 1 ensures !HandledAll(s, events[..k]).execution.Finished? {
      assert k > 1 ==> HandledAll(s, events[..k]) == HandledAll(next, rest[..k - 1]);
    }
  }

  lemma LaterEvents(s: State, events: seq<(Event, Answers)>)
    requires events != []
    ensures forall k | 0 < k <= |events| ::
              HandledAll(s, events[..k]) == HandledAll(Handled(s, events[0].0, events[0].1), events[1..][..k - 1])
    ensures HandledAll(s, events) == HandledAll(Handled(s, events[0].0, events[0].1), events[1..])
  {
    forall k | 0 < k <= |events|
      ensures HandledAll(s, events[..k]) == HandledAll(Handled(s, events[0].0, events[0].1), events[1..][..k - 1])
    {
      assert events[..k] == [events[0]] + events[1..][..k - 1];
      HandledAllCons(s, events[0], events[1..][..k - 1]);
    }
    assert events[..|events|] == events && events[1..][..|events| - 1] == events[1..];
  }

  // ----- The history -----

  /** The account's entry, if it has one, is moved to the top, and no entry is made up. */
  ghost predicate IsTouched(before: seq<AccountEntry>, after: seq<AccountEntry>, account: string) {
    && (Entry(before, account).Some? ==> after != [] && after[0] == Entry(before, account).value)
    && (Entry(before, account).None? ==> after == before)
    && (forall entry <- after :: entry in before)
  }

  lemma GotIsTouched(history: seq<AccountEntry>, account: string)
    ensures IsTouched(history, Got(history, account), account)
  {
    GotIsOnTop(history, account);
    GotHasNoOthers(history, account);
  }

  /**
   Looking up a key, for the front end or for a WireGuard tunnel, moves the current account up; removing an
   account removes exactly its entry. Nothing else changes.
   */
  lemma LookupsTouchTheHistory(s: State, event: Event, answers: Answers)
    requires event == GenerateTunnelParameters ||
             (s.execution.Running? && (event == ManagementInterfaceEvent(GetWireguardKey) ||
                                       (event.ManagementInterfaceEvent? && event.command.RemoveAccountFromHistory?)))
    ensures var t := Handled(s, event, answers);
            && t == s.(history := t.history)
            && (match event
                case ManagementInterfaceEvent(RemoveAccountFromHistory(account)) =>
                  forall entry :: entry in t.history <==> entry in s.history && entry.account != account
                case _ =>
                  if s.account.Some? && (event.ManagementInterfaceEvent? || answers.isWireguard)
                  then IsTouched(s.history, t.history, s.account.value)
                  else t.history == s.history)
  {
    if s.account.Some? {
      GotIsTouched(s.history, s.account.value);
    }
    if event.ManagementInterfaceEvent? && event.command.RemoveAccountFromHistory? {
      RetainedEntries(s.history, event.command.account);
    }
  }

  // ----- Keys -----

  /**
   An event about a key changes something exactly if it is about the current account; then a new key goes
   to that account's entry, no other entry changes, and the front end is told of the key or the failure.
   */
  lemma KeyEventConcernsCurrentAccount(
    s: State, account: string, result: Result<WireguardData, KeyError>, answers: Answers)
    ensures Handled(s, WgKeyEvent(account, result), answers) == s <==> s.account != Some(account)
    ensures s.account == Some(account) ==>
              var t := Handled(s, WgKeyEvent(account, result), answers);
              && t == s.(history := t.history, keyEvents := t.keyEvents)
              && t.keyEvents == s.keyEvents + [match result
                                               case Ok(data) => NewKey(data.privateKey)
                                               case Err(TooManyKeys) => TooManyKeysEvent
                                               case Err(OtherKeyError) => GenerationFailure]
              && (result.Ok? ==> IsKeyOf(s.history, t.history, account, result.value))
              && (result.Err? ==> t.history == s.history)
  {
    var t := OnKeyEvent(s, account, result);
    if s.account == Some(account) {
      assert |t.keyEvents| == |s.keyEvents| + 1;
      if result.Ok? {
        NewEntryOnTop(s.history, AccountEntry(account, Some(result.value)));
      }
    }
  }

  /** The account's entry now is on top and has this key; the other entries were there before. */
  ghost predicate IsKeyOf(before: seq<AccountEntry>, after: seq<AccountEntry>, account: string, data: WireguardData) {
    && after != [] && after[0] == AccountEntry(account, Some(data))
    && Entry(after, account) == Some(AccountEntry(account, Some(data)))
    && forall entry <- after | entry.account != account :: entry in before
  }

  /**
   A key asked for while waiting: it is stored with the current account and told to the front end; if it
   cannot be had, no entry changes. Either way the generation under way, and only that, is cancelled.
   */
  lemma GeneratedKeyIsStored(s: State, account: string, answers: Answers)
    requires s.execution.Running? && s.account == Some(account)
    ensures var t := Handled(s, ManagementInterfaceEvent(GenerateWireguardKey), answers);
            && t == s.(history := t.history, keyEvents := t.keyEvents, keys := t.keys)
            && OnlyCurrentCancelled(s.keys, t.keys)
            && (match answers.generated
                case Ok(data) =>
                  && IsKeyOf(s.history, t.history, account, data)
                  && t.keyEvents == s.keyEvents + [NewKey(data.privateKey)]
                case Err(_) => t.keyEvents == s.keyEvents && forall entry <- t.history :: entry in s.history)
  {
    match answers.generated {
      case Ok(data) => NewEntryOnTop(s.history, AccountEntry(account, Some(data)));
      case Err(_) => GotHasNoOthers(s.history, account);
    }
  }

  lemma GotHasNoOthers(history: seq<AccountEntry>, account: string)
    ensures forall entry <- Got(history, account) :: entry in history
  {
    RetainedEntries(history, account);
  }

  /** The current generation is cancelled and forgotten, the others are left alone. */
  ghost predicate OnlyCurrentCancelled(before: Keys, after: Keys) {
    && after.current.None? && |after.jobs| == |before.jobs|
    && forall i | 0 <= i < |before.jobs| ::
         after.jobs[i] == if before.current == Some(i) then before.jobs[i].(cancelled := true) else before.jobs[i]
  }

  /**
   Which generations a change of account cancels and starts: if the account has a key, none; otherwise the
   current one is cancelled, and exactly one for the account is added if it can be started.
   */
  lemma KeyIsGeneratedIff(s: State, name: string, started: bool)
    requires name != "" && s.account != Some(name)
    ensures var entry, t := Entry(s.history, name), OnSetAccount(s, Some(name), started);
            if entry.Some? && entry.value.wireguard.Some? then t.keys == s.keys
            else if started then
              && t.keys.current == Some(|s.keys.jobs|) && |t.keys.jobs| == |s.keys.jobs| + 1
              && OnlyCurrentCancelled(s.keys, Keys(None, t.keys.jobs[..|s.keys.jobs|]))
              && t.keys.jobs[|s.keys.jobs|] == Job(name, false, false, false)
            else OnlyCurrentCancelled(s.keys, t.keys)
  {
    EnsuredKeys(s.(account := Some(name)), name, started);
  }

  /** The same for the account the daemon starts with; and unless there is one, nothing is generated. */
  lemma EnsuredKeys(s: State, name: string, started: bool)
    requires s.account == Some(name)
    ensures var entry, t := Entry(s.history, name), EnsureKeys(s, started);
            && (entry.Some? ==> t.history != [] && t.history[0] == entry.value)
            && if entry.Some? && entry.value.wireguard.Some? then t.keys == s.keys
               else if started then
                 && t.keys.current == Some(|s.keys.jobs|) && |t.keys.jobs| == |s.keys.jobs| + 1
                 && OnlyCurrentCancelled(s.keys, Keys(None, t.keys.jobs[..|s.keys.jobs|]))
                 && t.keys.jobs[|s.keys.jobs|] == Job(name, false, false, false)
               else OnlyCurrentCancelled(s.keys, t.keys)
  {
    GotIsOnTop(s.history, name);
    StartedJobs(s.keys, name, started);
  }

  lemma StartedJobs(keys: Keys, name: string, started: bool)
    ensures OnlyCurrentCancelled(keys, ResetKeys(keys))
    ensures var t := StartJob(keys, name, started);
            if started then t == Keys(Some(|keys.jobs|), ResetKeys(keys).jobs + [Job(name, false, false, false)])
            else t == ResetKeys(keys)
  {}

  /** A factory reset forgets the account, the history and the settings, and shuts the daemon down. */
  lemma FactoryResetForgets(s: State, answers: Answers)
    requires s.execution.Running?
    ensures var t := Handled(s, ManagementInterfaceEvent(FactoryReset), answers);
            && t.account == None && t.history == [] && !t.allowLan && !t.blockWhenDisconnected
            && !t.execution.Running? && t.sent == s.sent + [Disconnect]
            && t.target == s.target && t.tunnel == s.tunnel && t.keys == s.keys
  {}

  lemma NewEntryOnTop(history: seq<AccountEntry>, entry: AccountEntry)
    ensures var h := Inserted(Got(history, entry.account), entry);
            && h != [] && h[0] == entry && Entry(h, entry.account) == Some(entry)
            && forall other <- h | other.account != entry.account :: other in history
  {
    RetainedEntries(Got(history, entry.account), entry.account);
    RetainedEntries(history, entry.account);
    assert Inserted(Got(history, entry.account), entry)[0] == entry;
  }

  /** In every run, the key a WireGuard tunnel is set up with was generated for the account in use. */
  lemma KeysInUseAreTheAccountsOwn(y: System, steps: seq<Step>)
    requires IsStart(y)
    ensures var now := Run(y, steps);
            now.daemon.account.Some? ==>
              var entry := Entry(now.daemon.history, now.daemon.account.value);
              entry.Some? && entry.value.wireguard.Some? ==>
                (now.daemon.account.value, entry.value.wireguard.value) in now.issued
  {
    RunKeepsInv(y, steps);
    var now := Run(y, steps);
    if now.daemon.account.Some? {
      var i := IndexOf(now.daemon.history, now.daemon.account.value);
      if i.Some? {
        assert now.daemon.history[i.value] in now.daemon.history;
      }
    }
  }

  /**
   After a change of account, its entry is on top of the history, and it has a key or, if a generation
   could be started, one is under way for it; a secured tunnel is told to connect again.
   */
  lemma AccountChangeIsComplete(s: State, name: string, started: bool)
    requires name != "" && s.account != Some(name)
    ensures var t := OnSetAccount(s, Some(name), started);
            && t.account == Some(name)
            && t.history != [] && t.history[0].account == name
            && (t.history[0].wireguard.None? && started ==>
                  && t.keys.current.Some? && t.keys.current.value < |t.keys.jobs|
                  && t.keys.jobs[t.keys.current.value] == Job(name, false, false, false))
            && t.sent == if s.target == Secured then s.sent + [Connect] else s.sent
  {
    GotIsOnTop(s.history, name);
    var got := Got(s.history, name);
    GotIsOnTop(got, name);
    if Entry(s.history, name).Some? {
      assert Entry(got, name) == Some(got[0]);
    }
  }

  lemma GotIsOnTop(history: seq<AccountEntry>, account: string)
    ensures Entry(history, account).None? ==> Got(history, account) == history
    ensures Entry(history, account).Some? ==>
              Got(history, account) != [] && Entry(history, account) == Some(Got(history, account)[0])
    ensures Entry(history, account).Some? ==> Got(history, account)[0].account == account
    ensures Bumped(history, account) != [] && Bumped(history, account)[0].account == account
  {}

  // ----- Where commands get lost -----

  /** After these events the daemon may connect: it is asked to, or authentication failed and a timer is armed. */
  predicate MayConnect(event: Event) {
    event == ManagementInterfaceEvent(SetTargetState(Secured)) || event == TunnelStateTransition(Blocked(AuthFailed))
  }

  /** Neither of them comes in. Timers may still fire. */
  predicate AllQuiet(steps: seq<Step>) {
    forall step <- steps :: step.Arrive? ==> !MayConnect(step.event)
  }

  predicate EndsLoop(event: Event) {
    AsksForShutdown(event) || event.ManagementInterfaceExited?
  }

  /** A timer that waits can still be stopped, one that has expired cannot. Both have their request to make. */
  predicate SomeTimerRuns(s: State) {
    exists i | 0 <= i < |s.timers| :: s.timers[i].Waiting? || s.timers[i].Expired?
  }

  /** None of the first `n` events ends the loop. */
  predicate GoesOn(queue: seq<Event>, n: nat)
    requires n <= |queue|
  {
    forall j | 0 <= j < n :: !EndsLoop(queue[j])
  }

  predicate RequestComesUp(queue: seq<Event>) {
    exists i | 0 <= i < |queue| :: queue[i] == ManagementInterfaceEvent(SetTargetState(Secured)) && GoesOn(queue, i)
  }

  /**
   What is left over from before can bring the tunnel back: a request to connect that is queued before
   the end of the loop, or, if the queue does not end the loop, a timer that runs or will be armed.
   */
  predicate CanReconnect(y: System) {
    || RequestComesUp(y.queue)
    || (&& GoesOn(y.queue, |y.queue|)
        && (SomeTimerRuns(y.daemon) || TunnelStateTransition(Blocked(AuthFailed)) in y.queue))
  }

  /** No command to connect was sent since. */
  ghost predicate NoConnects(sent: seq<TunnelCommand>, later: seq<TunnelCommand>) {
    sent <= later && forall i | |sent| <= i < |later| :: later[i] != Connect
  }

  ghost predicate StaysUnsecured(y: System) {
    y.daemon.target == Unsecured && (!y.daemon.execution.Running? || y.stopped || !CanReconnect(y))
  }

  /** Accounts and keys have nothing to do with the reconnection, or with whether the daemon runs. */
  ghost predicate SameReconnection(s: State, t: State) {
    t.execution == s.execution && t.timers == s.timers
  }

  lemma SetAccountUnsecured(s: State, token: Option<string>, started: bool)
    ensures var t := OnSetAccount(s, token, started);
            && SameReconnection(s, t)
            && (s.target == Unsecured ==> t.target == Unsecured && NoConnects(s.sent, t.sent))
  {
    var account := if token == Some("") then None else token;
    EnsureKeysSameTunnel(s.(account := account), started);
  }

  lemma EnsureKeysSameTunnel(s: State, started: bool)
    ensures SameTunnel(s, EnsureKeys(s, started))
  {}

  lemma OtherCommandsUnsecured(s: State, command: ManagementCommand, answers: Answers)
    requires !command.SetAccount? && command != SetTargetState(Secured)
    ensures var t := OnManagement(s, command, answers);
            s.target == Unsecured ==> t.target == Unsecured && NoConnects(s.sent, t.sent)
  {}

  lemma OtherCommandsReconnection(s: State, command: ManagementCommand, answers: Answers)
    requires !command.SetAccount?
    ensures var t := OnManagement(s, command, answers);
            && t.timers == s.timers
            && (s.execution.Running? ==>
                  (t.execution.Running? <==> !AsksForShutdown(ManagementInterfaceEvent(command))))
  {}

  lemma HandledUnsecured(s: State, event: Event, answers: Answers)
    requires s.target == Unsecured && event != ManagementInterfaceEvent(SetTargetState(Secured))
    ensures var t := Handled(s, event, answers); t.target == Unsecured && NoConnects(s.sent, t.sent)
  {
    if event.ManagementInterfaceEvent? {
      if event.command.SetAccount? {
        SetAccountUnsecured(s, event.command.token, answers.jobStarted);
      } else {
        OtherCommandsUnsecured(s, event.command, answers);
      }
    }
  }

  lemma TransitionTimers(s: State, tunnel: TunnelState)
    ensures var t := OnTransition(s, tunnel);
            && (tunnel != Blocked(AuthFailed) && SomeTimerRuns(t) ==> SomeTimerRuns(s))
            && (tunnel == Blocked(AuthFailed) ==> SomeTimerRuns(t))
            && (t.execution.Running? <==> s.execution.Running?)
  {
    var t := OnTransition(s, tunnel);
    if tunnel == Blocked(AuthFailed) {
      assert t.timers[|t.timers| - 1].Waiting?;
    }
  }

  lemma HandledTimers(s: State, event: Event, answers: Answers)
    ensures var t := Handled(s, event, answers);
            && (event != TunnelStateTransition(Blocked(AuthFailed)) && SomeTimerRuns(t) ==> SomeTimerRuns(s))
            && (event == TunnelStateTransition(Blocked(AuthFailed)) ==> SomeTimerRuns(t))
            && (s.execution.Running? ==> (t.execution.Running? <==> !AsksForShutdown(event)))
  {
    if event.TunnelStateTransition? {
      TransitionTimers(s, event.tunnel);
    } else if event.ManagementInterfaceEvent? {
      if event.command.SetAccount? {
        SetAccountUnsecured(s, event.command.token, answers.jobStarted);
      } else {
        OtherCommandsReconnection(s, event.command, answers);
      }
    }
  }

  lemma ShutDownStaysUnsecured(s: State, event: Event, answers: Answers)
    requires !s.execution.Running? && s.target == Unsecured
    ensures var t := Handled(s, event, answers);
            !t.execution.Running? && t.target == Unsecured && NoConnects(s.sent, t.sent)
  {
    HandledAfterShutdown(s, event, answers);
  }

  lemma HandleNextStaysUnsecured(y: System, answers: Answers)
    requires StaysUnsecured(y) && y.daemon.execution.Running? && !y.stopped && y.queue != []
    ensures var z := Next(y, HandleNext(answers)); StaysUnsecured(z) && NoConnects(y.daemon.sent, z.daemon.sent)
  {
    var event, z := y.queue[0], Next(y, HandleNext(answers));
    HandledUnsecured(y.daemon, event, answers);
    HandledTimers(y.daemon, event, answers);
    if !EndsLoop(event) {
      RestCannotReconnect(event, y.queue[1..]);
      assert y.queue == [event] + y.queue[1..];
    }
  }

  /** What comes up in the rest of a queue that goes on comes up in the queue. */
  lemma RestCannotReconnect(event: Event, rest: seq<Event>)
    requires !EndsLoop(event)
    ensures RequestComesUp(rest) ==> RequestComesUp([event] + rest)
    ensures GoesOn(rest, |rest|) ==> GoesOn([event] + rest, 1 + |rest|)
  {
    var queue := [event] + rest;
    forall i | 0 <= i < |rest| && rest[i] == ManagementInterfaceEvent(SetTargetState(Secured)) && GoesOn(rest, i)
      ensures RequestComesUp(queue)
    {
      assert queue[i + 1] == rest[i] && GoesOn(queue, i + 1);
    }
  }

  /** Nor does an event at the end that is no request bring one up. */
  lemma MoreComesUp(queue: seq<Event>, event: Event)
    ensures RequestComesUp(queue + [event]) ==>
              RequestComesUp(queue) ||
              (event == ManagementInterfaceEvent(SetTargetState(Secured)) && GoesOn(queue, |queue|))
    ensures GoesOn(queue + [event], |queue| + 1) ==> GoesOn(queue, |queue|)
  {
    var all := queue + [event];
    forall i | 0 <= i < |all| && all[i] == ManagementInterfaceEvent(SetTargetState(Secured)) && GoesOn(all, i)
      ensures RequestComesUp(queue) ||
              (event == ManagementInterfaceEvent(SetTargetState(Secured)) && GoesOn(queue, |queue|))
    {
      assert forall j | 0 <= j < |queue| :: all[j] == queue[j];
      if i < |queue| {
        assert queue[i] == all[i] && GoesOn(queue, i);
      }
    }
    assert forall j | 0 <= j < |queue| :: all[j] == queue[j];
  }

  lemma NextStaysUnsecured(y: System, step: Step)
    requires StaysUnsecured(y) && AllQuiet([step])
    ensures StaysUnsecured(Next(y, step)) && NoConnects(y.daemon.sent, Next(y, step).daemon.sent)
  {
    assert step in [step];
    match step {
      case Arrive(event) =>
        MoreComesUp(y.queue, event);
      case TimerExpires(i) =>
        assert i < |y.daemon.timers| && y.daemon.timers[i].Waiting? ==> SomeTimerRuns(y.daemon);
      case TimerFires(i) =>
        MoreComesUp(y.queue, ManagementInterfaceEvent(SetTargetState(Secured)));
      case AskJob(i) =>
      case PollJob(i, outcome) =>
        if outcome.Some? && i < |y.daemon.keys.jobs| {
          MoreComesUp(y.queue, WgKeyEvent(y.daemon.keys.jobs[i].account, outcome.value));
        }
      case HandleNext(answers) =>
        if y.queue != [] && !y.stopped && !y.daemon.execution.Finished? {
          if y.daemon.execution.Running? {
            HandleNextStaysUnsecured(y, answers);
          } else {
            ShutDownStaysUnsecured(y.daemon, y.queue[0], answers);
          }
        }
    }
  }

  /** A disconnect stays in force, and no command to connect is sent, unless something is left to reconnect. */
  lemma {:induction false} DisconnectStays(y: System, steps: seq<Step>)
    requires StaysUnsecured(y) && AllQuiet(steps)
    ensures StaysUnsecured(Run(y, steps)) && NoConnects(y.daemon.sent, Run(y, steps).daemon.sent)
  {
    if steps != [] {
      var init, last := steps[..|steps| - 1], steps[|steps| - 1];
      DisconnectStays(y, init);
      assert last in steps;
      NextStaysUnsecured(Run(y, init), last);
    }
  }

  lemma {:induction false} RunConcat(y: System, a: seq<Step>, b: seq<Step>)
    ensures Run(y, a + b) == Run(Run(y, a), b)
  {
    if b == [] {
      assert a + b == a;
    } else {
      assert (a + b)[..|a + b| - 1] == a + b[..|b| - 1];
      RunConcat(y, a, b[..|b| - 1]);
    }
  }

  lemma RunOne(y: System, step: Step)
    ensures Run(y, [step]) == Next(y, step)
  {
    assert [step][..0] == [];
    assert Run(y, []) == y;
  }

  /** Events that do not end the loop are handled one after the other. */
  lemma {:induction false} HandleSome(y: System, n: nat, answers: Answers) returns (steps: seq<Step>)
    requires n <= |y.queue| && y.daemon.execution.Running? && !y.stopped && GoesOn(y.queue, n)
    ensures AllQuiet(steps)
    ensures var z := Run(y, steps); z.daemon.execution.Running? && !z.stopped && z.queue == y.queue[n..]
    ensures n > 0 && y.queue[n - 1] == ManagementInterfaceEvent(SetTargetState(Secured)) ==>
              Run(y, steps).daemon.target == Secured
    ensures n > 0 && y.queue[n - 1] == TunnelStateTransition(Blocked(AuthFailed)) ==>
              SomeTimerRuns(Run(y, steps).daemon)
    decreases n
  {
    steps := [];
    if n > 0 {
      var before := HandleSome(y, n - 1, answers);
      var z := Run(y, before);
      steps := before + [HandleNext(answers)];
      RunConcat(y, before, [HandleNext(answers)]);
      RunOne(z, HandleNext(answers));
      assert z.queue[0] == y.queue[n - 1] && z.queue[1..] == y.queue[n..];
      HandledTimers(z.daemon, z.queue[0], answers);
    }
  }

  /** The time of a timer is up, it fires, and its request is handled once the queue is. */
  lemma TimerReconnects(y: System, answers: Answers) returns (steps: seq<Step>)
    requires y.daemon.execution.Running? && !y.stopped && SomeTimerRuns(y.daemon)
    requires GoesOn(y.queue, |y.queue|)
    ensures AllQuiet(steps) && Run(y, steps).daemon.target == Secured
  {
    var i: nat :| i < |y.daemon.timers| && (y.daemon.timers[i].Waiting? || y.daemon.timers[i].Expired?);
    RunOne(y, TimerExpires(i));
    var expires := Next(y, TimerExpires(i));
    var z := Next(expires, TimerFires(i));
    assert z.queue == y.queue + [ManagementInterfaceEvent(SetTargetState(Secured))];
    RunOne(expires, TimerFires(i));
    RunConcat(y, [TimerExpires(i)], [TimerFires(i)]);
    var rest := HandleSome(z, |z.queue|, answers);
    steps := [TimerExpires(i)] + [TimerFires(i)] + rest;
    RunConcat(y, [TimerExpires(i)] + [TimerFires(i)], rest);
  }

  lemma RequestReconnects(y: System, answers: Answers) returns (steps: seq<Step>)
    requires y.daemon.execution.Running? && !y.stopped && RequestComesUp(y.queue)
    ensures AllQuiet(steps) && Run(y, steps).daemon.target == Secured
  {
    var i: nat :|
      i < |y.queue| && y.queue[i] == ManagementInterfaceEvent(SetTargetState(Secured)) && GoesOn(y.queue, i);
    steps := HandleSome(y, i + 1, answers);
  }

  lemma LeftoverReconnects(y: System, answers: Answers) returns (steps: seq<Step>)
    requires y.daemon.execution.Running? && !y.stopped && CanReconnect(y)
    ensures AllQuiet(steps) && Run(y, steps).daemon.target == Secured
  {
    if RequestComesUp(y.queue) {
      steps := RequestReconnects(y, answers);
    } else if SomeTimerRuns(y.daemon) {
      steps := TimerReconnects(y, answers);
    } else {
      steps := FailureReconnects(y, answers);
    }
  }

  /** Failed authentication that is queued arms a timer. */
  lemma FailureReconnects(y: System, answers: Answers) returns (steps: seq<Step>)
    requires y.daemon.execution.Running? && !y.stopped && TunnelStateTransition(Blocked(AuthFailed)) in y.queue
    requires GoesOn(y.queue, |y.queue|)
    ensures AllQuiet(steps) && Run(y, steps).daemon.target == Secured
  {
    var i: nat :| i < |y.queue| && y.queue[i] == TunnelStateTransition(Blocked(AuthFailed));
    var before := HandleSome(y, i + 1, answers);
    var rest := TimerReconnects(Run(y, before), answers);
    steps := before + rest;
    RunConcat(y, before, rest);
  }

  /** Some run in which neither a new request to connect nor new failed authentication comes in ends up secured. */
  ghost predicate SomeQuietRunSecures(y: System) {
    exists steps | AllQuiet(steps) :: Run(y, steps).daemon.target == Secured
  }

  /**
   Exactly when the target can become secured again although nobody asks for it and no authentication
   fails any more: if a request is queued before the end of the loop, or if the queue does not end the
   loop and a timer still has its request to make or is about to be armed.
   */
  lemma DisconnectStaysIff(y: System)
    requires y.daemon.target == Unsecured && y.daemon.execution.Running? && !y.stopped
    ensures SomeQuietRunSecures(y) <==> CanReconnect(y)
  {
    if CanReconnect(y) {
      var answers := Answers(true, Err(OtherKeyError), true);
      var steps := LeftoverReconnects(y, answers);
    } else {
      forall steps | AllQuiet(steps) ensures Run(y, steps).daemon.target == Unsecured {
        DisconnectStays(y, steps);
      }
    }
  }

  predicate ReconnectionIsArmed(s: State) {
    && s.tunnel == Blocked(AuthFailed)
    && s.reconnect.Some? && s.reconnect.value < |s.timers| && s.timers[s.reconnect.value].Waiting?
  }

  predicate SomeTimerExpired(s: State) {
    exists i | 0 <= i < |s.timers| :: s.timers[i].Expired?
  }

  /**
   In every run, once all events are handled: a disconnect can be overridden without a new request
   exactly while authentication has failed and the timer armed for that still waits, or while the time
   of any timer is up and its request not made.
   */
  lemma HandledDisconnectStaysIff(start: System, steps: seq<Step>)
    requires IsStart(start)
    requires var y := Run(start, steps);
             y.daemon.target == Unsecured && y.daemon.execution.Running? && !y.stopped && y.queue == []
    ensures SomeQuietRunSecures(Run(start, steps)) <==>
            ReconnectionIsArmed(Run(start, steps).daemon) || SomeTimerExpired(Run(start, steps).daemon)
  {
    RunKeepsInv(start, steps);
    DisconnectStaysIff(Run(start, steps));
  }

  /** The request of a reconnection timer is queued like a user's: here it overrides one that was made before it. */
  lemma LateReconnectOverrides(y: System, answers: Answers)
    requires !y.stopped && y.queue == [] && y.daemon.execution.Running? && y.daemon.target == Secured
    requires ReconnectionIsArmed(y.daemon)
    ensures var i := y.daemon.reconnect.value;
            var disconnect := Arrive(ManagementInterfaceEvent(SetTargetState(Unsecured)));
            var now :=
              Run(y, [disconnect, TimerExpires(i), TimerFires(i), HandleNext(answers), HandleNext(answers)]);
            now.daemon.target == Secured && now.daemon.sent == y.daemon.sent + [Disconnect, Connect]
  {
    var i := y.daemon.reconnect.value;
    var disconnect := Arrive(ManagementInterfaceEvent(SetTargetState(Unsecured)));
    FiveSteps(y, disconnect, TimerExpires(i), TimerFires(i), HandleNext(answers), HandleNext(answers));
    var z := Next(Next(Next(y, disconnect), TimerExpires(i)), TimerFires(i));
    assert z.queue == [disconnect.event, ManagementInterfaceEvent(SetTargetState(Secured))];
    RequestsInTurn(z, answers);
  }

  lemma RequestsInTurn(y: System, answers: Answers)
    requires !y.stopped && y.daemon.execution.Running? && y.daemon.target == Secured
    requires y.queue == [ManagementInterfaceEvent(SetTargetState(Unsecured)),
                         ManagementInterfaceEvent(SetTargetState(Secured))]
    ensures var now := Next(Next(y, HandleNext(answers)), HandleNext(answers));
            now.daemon.target == Secured && now.daemon.sent == y.daemon.sent + [Disconnect, Connect]
  {
    var z := Next(y, HandleNext(answers));
    assert z.daemon == Send(y.daemon.(target := Unsecured), Disconnect) && z.queue == y.queue[1..] && !z.stopped;
    assert Next(z, HandleNext(answers)).daemon == Send(z.daemon.(target := Secured), Connect);
  }

  /**
   A timer whose time is up is not stopped any more. Here the tunnel is disconnected and all events are
   handled, no reconnection is armed, and still the request comes.
   */
  lemma ExpiredTimerOverrides(y: System, answers: Answers)
    requires !y.stopped && y.queue == [] && y.daemon.execution.Running? && y.daemon.target == Unsecured
    requires ReconnectionIsArmed(y.daemon)
    ensures var i := y.daemon.reconnect.value;
            var expires, disconnected := TimerExpires(i), Arrive(TunnelStateTransition(Disconnected));
            var quiet := Run(y, [expires, disconnected, HandleNext(answers)]);
            && quiet.queue == [] && quiet.daemon.tunnel.Disconnected? && quiet.daemon.target == Unsecured
            && !ReconnectionIsArmed(quiet.daemon)
            && Run(y, [expires, disconnected, HandleNext(answers), TimerFires(i), HandleNext(answers)]).daemon.target
               == Secured
  {
    var i := y.daemon.reconnect.value;
    var expires, disconnected := TimerExpires(i), Arrive(TunnelStateTransition(Disconnected));
    FiveSteps(y, expires, disconnected, HandleNext(answers), TimerFires(i), HandleNext(answers));
    var z := Next(WithTimer(y, i, Expired), disconnected);
    assert Next(y, expires) == WithTimer(y, i, Expired);
    assert z.queue == [disconnected.event];
    ExpiredIsNotStopped(z, answers);
    RequestAlone(Next(z, HandleNext(answers)), i, answers);
  }

  lemma ExpiredIsNotStopped(y: System, answers: Answers)
    requires !y.stopped && y.queue == [TunnelStateTransition(Disconnected)] && y.daemon.execution.Running?
    requires y.daemon.reconnect.Some? && y.daemon.reconnect.value < |y.daemon.timers|
    requires y.daemon.timers[y.daemon.reconnect.value].Expired?
    ensures var z := Next(y, HandleNext(answers));
            && z.daemon == y.daemon.(reconnect := None, tunnel := Disconnected) && z.queue == [] && !z.stopped
            && !ReconnectionIsArmed(z.daemon)
  {}

  lemma RequestAlone(y: System, i: nat, answers: Answers)
    requires !y.stopped && y.queue == [] && y.daemon.execution.Running?
    requires i < |y.daemon.timers| && y.daemon.timers[i].Expired?
    ensures Next(Next(y, TimerFires(i)), HandleNext(answers)).daemon.target == Secured
  {
    assert Next(y, TimerFires(i)).queue == [ManagementInterfaceEvent(SetTargetState(Secured))];
  }

  lemma FiveSteps(y: System, a: Step, b: Step, c: Step, d: Step, e: Step)
    ensures Run(y, [a, b, c]) == Next(Next(Next(y, a), b), c)
    ensures Run(y, [a, b, c, d, e]) == Next(Next(Next(Next(Next(y, a), b), c), d), e)
  {
    RunOne(y, a);
    assert [a, b][..1] == [a] && [a, b, c][..2] == [a, b];
    assert Run(y, [a, b]) == Next(Next(y, a), b);
    assert [a, b, c, d][..3] == [a, b, c] && [a, b, c, d, e][..4] == [a, b, c, d];
    assert Run(y, [a, b, c, d]) == Next(Run(y, [a, b, c]), d);
  }

  /**
   Of the two tokens that unset the account, exactly the missing one is sure to disconnect. The empty
   one leaves the target alone, reconnects a secured tunnel, and goes into the history.
   */
  lemma UnsettingDisconnectsIff(s: State, token: Option<string>, started: bool)
    requires s.account.Some? && (token == None || token == Some(""))
    ensures var t := OnSetAccount(s, token, started);
            && t.account == None
            && (t.target == Unsecured <==> token.None? || s.target == Unsecured)
            && (token.Some? ==>
                  && t.target == s.target
                  && t.sent == (if s.target == Secured then s.sent + [Connect] else s.sent)
                  && t.history != [] && t.history[0].account == "")
  {
    GotIsOnTop(s.history, "");
  }
}
