/**
 The bookkeeping of the JSON-RPC client: which requests wait for an answer and which timers run for
 them. Request identifiers are assumed not to repeat.
 */
module JsonRpcClient {
  import opened Wrappers

  type Id = string

  datatype Message = Message(id: Id, action: string)

  /** A reply, with a result or an error. */
  datatype Reply = Success(result: int) | Failure(code: int, details: string)

  datatype Outcome =
    | Resolved(result: int)
    | RemoteError(code: int, details: string)
    | TimeOutError(message: Message)
    | SendError

  datatype UnansweredRequest = UnansweredRequest(timer: nat, message: Message)

  datatype Settlement = Settlement(id: Id, outcome: Outcome)

  /** `timers` are the ones that run, each with the request its callback was made for. */
  datatype State = State(
    unanswered: map<Id, UnansweredRequest>,
    timers: map<nat, Id>,
    nextTimer: nat,
    settled: seq<Settlement>)

  // ----- What the client makes of what happens -----

  function Sent(s: State, id: Id, action: string, fails: bool): State {
    var message := Message(id, action);
    var waiting := s.(unanswered := s.unanswered[id := UnansweredRequest(s.nextTimer, message)],
                      timers := s.timers[s.nextTimer := id], nextTimer := s.nextTimer + 1);
    if fails then
      waiting.(unanswered := waiting.unanswered - {id}, timers := waiting.timers - {s.nextTimer},
               settled := s.settled + [Settlement(id, SendError)])
    else waiting
  }

  function TimedOut(s: State, id: Id): State {
    if id in s.unanswered then
      s.(unanswered := s.unanswered - {id},
         settled := s.settled + [Settlement(id, TimeOutError(s.unanswered[id].message))])
    else s
  }

  function OutcomeOfReply(reply: Reply): Outcome {
    match reply
    case Success(result) => Resolved(result)
    case Failure(code, details) => RemoteError(code, details)
  }

  function Replied(s: State, id: Id, reply: Reply): State {
    if id in s.unanswered then
      s.(unanswered := s.unanswered - {id}, timers := s.timers - {s.unanswered[id].timer},
         settled := s.settled + [Settlement(id, OutcomeOfReply(reply))])
    else s
  }

  /** A timer that runs calls back once. */
  function Expired(s: State, timer: nat): State {
    if timer in s.timers then TimedOut(s.(timers := s.timers - {timer}), s.timers[timer]) else s
  }

  const EMPTY := State(map[], map[], 0, [])

  // ----- The client -----

  class JsonRpcClient {
    var unansweredRequests: map<Id, UnansweredRequest>
    // The event loop's timers, and the promises that were settled.
    var timers: map<nat, Id>
    var nextTimer: nat
    var settled: seq<Settlement>

    function View(): State
      reads this
    {
      State(unansweredRequests, timers, nextTimer, settled)
    }

    constructor ()
      ensures View() == EMPTY
    {
      unansweredRequests, timers, nextTimer, settled := map[], map[], 0, [];
    }

    method SetTimeout(id: Id) returns (timer: nat)
      modifies this`timers, this`nextTimer
      ensures timer == old(nextTimer) && nextTimer == timer + 1 && timers == old(timers)[timer := id]
    {
      timer := nextTimer;
      nextTimer := nextTimer + 1;
      timers := timers[timer := id];
    }

    method ClearTimeout(timer: nat)
      modifies this`timers
      ensures timers == old(timers) - {timer}
    {
      timers := timers - {timer};
    }

    method Settle(id: Id, outcome: Outcome)
      modifies this`settled
      ensures settled == old(settled) + [Settlement(id, outcome)]
    {
      settled := settled + [Settlement(id, outcome)];
    }

    /** Whether the transport throws is an input. */
    method Send(id: Id, action: string, fails: bool)
      modifies this
      ensures View() == Sent(old(View()), id, action, fails)
    {
      var timer := SetTimeout(id);
      unansweredRequests := unansweredRequests[id := UnansweredRequest(timer, Message(id, action))];
      if fails {
        unansweredRequests := unansweredRequests - {id};
        ClearTimeout(timer);
        Settle(id, SendError);
      }
    }

    method OnTimeout(id: Id)
      modifies this`unansweredRequests, this`settled
      ensures View() == TimedOut(old(View()), id)
    {
      var request := if id in unansweredRequests then Some(unansweredRequests[id]) else None;
      if request.Some? {
        unansweredRequests := unansweredRequests - {id};
        Settle(id, TimeOutError(request.value.message));
      }
    }

    method OnReply(id: Id, reply: Reply)
      modifies this
      ensures View() == Replied(old(View()), id, reply)
    {
      var request := if id in unansweredRequests then Some(unansweredRequests[id]) else None;
      if request.Some? {
        unansweredRequests := unansweredRequests - {id};
        ClearTimeout(request.value.timer);
        match reply {
          case Failure(code, details) => Settle(id, RemoteError(code, details));
          case Success(result) => Settle(id, Resolved(result));
        }
      }
    }

    /** The event loop lets a timer expire. */
    method Expire(timer: nat)
      modifies this
      ensures View() == Expired(old(View()), timer)
    {
      if timer in timers {
        var id := timers[timer];
        timers := timers - {timer};
        OnTimeout(id);
      }
    }

    /** If nothing more comes in, the timers leave no request unanswered: each one still waiting is timed out. */
    method DrainTimers()
      requires Inv(View())
      modifies this
      ensures Inv(View()) && unansweredRequests == map[] && timers == map[]
      ensures old(settled) <= settled && |settled| == |old(settled)| + |old(unansweredRequests)|
      ensures forall i | |old(settled)| <= i < |settled| ::
                && settled[i].id in old(unansweredRequests)
                && settled[i].outcome == TimeOutError(old(unansweredRequests)[settled[i].id].message)
    {
      ExpireAll();
      NoTimersNoRequests(View());
    }

    method ExpireAll()
      requires Inv(View())
      modifies this
      ensures Inv(View()) && IsDrained(old(View()), View()) && timers.Keys == {}
    {
      while timers.Keys != {}
        invariant Inv(View()) && IsDrained(old(View()), View())
        decreases |timers.Keys|
      {
        var timer :| timer in timers.Keys;
        DrainOne(old(View()), View(), timer);
        Expire(timer);
      }
    }
  }

  // ----- What always holds -----

  function SettledIds(settled: seq<Settlement>): set<Id> {
    set i | 0 <= i < |settled| :: settled[i].id
  }

  /** No request is settled twice; every one that waits has a running timer of its own, and every timer one. */
  ghost predicate Inv(s: State) {
    && (forall i, j | 0 <= i < j < |s.settled| :: s.settled[i].id != s.settled[j].id)
    && (forall i | 0 <= i < |s.settled| :: s.settled[i].id !in s.unanswered)
    && (forall id <- s.unanswered :: s.unanswered[id].timer in s.timers && s.timers[s.unanswered[id].timer] == id)
    && (forall timer <- s.timers :: s.timers[timer] in s.unanswered && s.unanswered[s.timers[timer]].timer == timer)
    && (forall timer <- s.timers :: timer < s.nextTimer)
  }

  lemma SentKeepsInv(s: State, id: Id, action: string, fails: bool)
    requires Inv(s) && id !in s.unanswered && id !in SettledIds(s.settled)
    ensures Inv(Sent(s, id, action, fails))
  {
    assert forall i | 0 <= i < |s.settled| :: s.settled[i].id in SettledIds(s.settled);
  }

  lemma RepliedKeepsInv(s: State, id: Id, reply: Reply)
    requires Inv(s)
    ensures Inv(Replied(s, id, reply))
  {}

  lemma ExpiredKeepsInv(s: State, timer: nat)
    requires Inv(s)
    ensures Inv(Expired(s, timer))
  {}

  lemma NoTimersNoRequests(s: State)
    requires Inv(s) && s.timers.Keys == {}
    ensures s.unanswered == map[] && s.timers == map[]
  {
    assert forall id <- s.unanswered :: s.unanswered[id].timer in s.timers.Keys;
    assert s.unanswered.Keys == {};
  }

  /** `now` comes from `start` by letting some of the waiting requests time out. */
  ghost predicate IsDrained(start: State, now: State) {
    && now.unanswered.Keys <= start.unanswered.Keys
    && (forall id <- now.unanswered :: now.unanswered[id] == start.unanswered[id])
    && start.settled <= now.settled
    && |now.settled| + |now.unanswered.Keys| == |start.settled| + |start.unanswered.Keys|
    && (forall i | |start.settled| <= i < |now.settled| ::
          && now.settled[i].id in start.unanswered
          && now.settled[i].outcome == TimeOutError(start.unanswered[now.settled[i].id].message))
  }

  lemma DrainOne(start: State, now: State, timer: nat)
    requires Inv(now) && IsDrained(start, now) && timer in now.timers
    ensures var next := Expired(now, timer);
            Inv(next) && IsDrained(start, next) && next.timers.Keys == now.timers.Keys - {timer}
  {
    ExpiredKeepsInv(now, timer);
    var id := now.timers[timer];
    assert id in now.unanswered;
    var next := Expired(now, timer);
    assert next.unanswered.Keys == now.unanswered.Keys - {id};
    assert next.settled == now.settled + [Settlement(id, TimeOutError(now.unanswered[id].message))];
  }

  // ----- Runs -----

  datatype Action =
    | Send(id: Id, action: string, fails: bool)
    | Receive(id: Id, reply: Reply)
    | Expire(timer: nat)

  function Next(s: State, a: Action): State {
    match a
    case Send(id, action, fails) => Sent(s, id, action, fails)
    case Receive(id, reply) => Replied(s, id, reply)
    case Expire(timer) => Expired(s, timer)
  }

  function Run(actions: seq<Action>): State {
    if actions == [] then EMPTY else Next(Run(actions[..|actions| - 1]), actions[|actions| - 1])
  }

  /** The requests made so far. */
  function Issued(actions: seq<Action>): set<Id> {
    if actions == [] then {}
    else
      var last := actions[|actions| - 1];
      Issued(actions[..|actions| - 1]) + if last.Send? then {last.id} else {}
  }

  /** No request is made with an identifier that was used before. */
  predicate HasFreshIds(actions: seq<Action>) {
    actions == [] ||
    var init, last := actions[..|actions| - 1], actions[|actions| - 1];
    HasFreshIds(init) && (last.Send? ==> last.id !in Issued(init))
  }

  function SendCount(actions: seq<Action>): nat {
    if actions == [] then 0 else SendCount(actions[..|actions| - 1]) + if actions[|actions| - 1].Send? then 1 else 0
  }

  /** The request that was made with an identifier, if the transport took it; timers are numbered like requests. */
  function RequestOf(actions: seq<Action>, id: Id): Option<UnansweredRequest> {
    if actions == [] then None
    else
      var init, last := actions[..|actions| - 1], actions[|actions| - 1];
      if last.Send? && last.id == id then
        if last.fails then None else Some(UnansweredRequest(SendCount(init), Message(id, last.action)))
      else RequestOf(init, id)
  }

  /**
   How a request ends, told from what happened alone: with the failure to send it, or else with the first
   thing that concerns it, a reply or the end of its time.
   */
  function OutcomeOf(actions: seq<Action>, id: Id): Option<Outcome> {
    if actions == [] then None
    else
      var init, last := actions[..|actions| - 1], actions[|actions| - 1];
      var request := RequestOf(init, id);
      if OutcomeOf(init, id).Some? then OutcomeOf(init, id)
      else if last.Send? && last.id == id && last.fails then Some(SendError)
      else if request.None? then None
      else if last.Receive? && last.id == id then
        (match last.reply
         case Success(result) => Some(Resolved(result))
         case Failure(code, details) => Some(RemoteError(code, details)))
      else if last == Expire(request.value.timer) then Some(TimeOutError(request.value.message))
      else None
  }

  /** What the promise of a request was last settled with. */
  function OutcomeIn(settled: seq<Settlement>, id: Id): Option<Outcome> {
    if settled == [] then None
    else
      var last := settled[|settled| - 1];
      if last.id == id then Some(last.outcome) else OutcomeIn(settled[..|settled| - 1], id)
  }

  lemma OutcomeSnoc(settled: seq<Settlement>, last: Settlement, id: Id)
    ensures OutcomeIn(settled + [last], id) == if last.id == id then Some(last.outcome) else OutcomeIn(settled, id)
  {
    assert (settled + [last])[..|settled|] == settled;
  }

  lemma {:induction false} OutcomeInIff(settled: seq<Settlement>, id: Id)
    ensures OutcomeIn(settled, id).Some? <==> id in SettledIds(settled)
  {
    if settled != [] {
      var init, last := settled[..|settled| - 1], settled[|settled| - 1];
      OutcomeInIff(init, id);
      assert settled == init + [last];
      SettledSnoc(init, last);
    }
  }

  /** What the client keeps about one request, against what happened. */
  ghost predicate Fits(s: State, actions: seq<Action>, id: Id) {
    && (id in s.unanswered <==> RequestOf(actions, id).Some? && OutcomeOf(actions, id).None?)
    && (id in s.unanswered ==> RequestOf(actions, id) == Some(s.unanswered[id]))
    && OutcomeIn(s.settled, id) == OutcomeOf(actions, id)
    && (id in Issued(actions) <==> id in s.unanswered || OutcomeOf(actions, id).Some?)
  }

  ghost predicate TableFits(s: State, actions: seq<Action>) {
    s.nextTimer == SendCount(actions) && forall id :: Fits(s, actions, id)
  }

  lemma SettledSnoc(settled: seq<Settlement>, last: Settlement)
    ensures SettledIds(settled + [last]) == SettledIds(settled) + {last.id}
  {
    var all := settled + [last];
    assert all[|settled|] == last && forall i | 0 <= i < |settled| :: all[i] == settled[i];
    forall id | id in SettledIds(settled) + {last.id} ensures id in SettledIds(all) {
      if id in SettledIds(settled) {
        var i :| 0 <= i < |settled| && settled[i].id == id;
        assert all[i].id == id;
      } else {
        assert all[|settled|].id == id;
      }
    }
  }

  /** A request has no outcome and is not known before it is made. */
  lemma {:induction false} NotIssued(actions: seq<Action>, id: Id)
    requires id !in Issued(actions)
    ensures RequestOf(actions, id).None? && OutcomeOf(actions, id).None?
  {
    if actions != [] {
      NotIssued(actions[..|actions| - 1], id);
    }
  }

  /** How the reference goes on with one more action. */
  lemma AfterOneMore(init: seq<Action>, last: Action, id: Id)
    ensures var all, request := init + [last], RequestOf(init, id);
            && RequestOf(all, id) ==
               (if last.Send? && last.id == id then
                  if last.fails then None else Some(UnansweredRequest(SendCount(init), Message(id, last.action)))
                else request)
            && OutcomeOf(all, id) ==
               (if OutcomeOf(init, id).Some? then OutcomeOf(init, id)
                else if last.Send? && last.id == id && last.fails then Some(SendError)
                else if request.None? then None
                else if last.Receive? && last.id == id then Some(OutcomeOfReply(last.reply))
                else if last == Expire(request.value.timer) then Some(TimeOutError(request.value.message))
                else None)
            && (id in Issued(all) <==> id in Issued(init) || (last.Send? && last.id == id))
  {
    assert (init + [last])[..|init|] == init;
  }

  lemma SendFits(s: State, init: seq<Action>, last: Action, id: Id)
    requires last.Send? && last.id !in Issued(init) && s.nextTimer == SendCount(init) && Fits(s, init, id)
    ensures Fits(Next(s, last), init + [last], id)
  {
    AfterOneMore(init, last, id);
    NotIssued(init, last.id);
    OutcomeSnoc(s.settled, Settlement(last.id, SendError), id);
  }

  lemma ReceiveFits(s: State, init: seq<Action>, last: Action, id: Id)
    requires last.Receive? && Fits(s, init, id) && Fits(s, init, last.id)
    ensures Fits(Next(s, last), init + [last], id)
  {
    AfterOneMore(init, last, id);
    OutcomeSnoc(s.settled, Settlement(last.id, OutcomeOfReply(last.reply)), id);
  }

  lemma ExpireFits(s: State, init: seq<Action>, last: Action, id: Id)
    requires last.Expire? && Inv(s) && Fits(s, init, id)
    ensures Fits(Next(s, last), init + [last], id)
  {
    AfterOneMore(init, last, id);
    if last.timer in s.timers {
      var expired := s.timers[last.timer];
      assert expired in s.unanswered;
      OutcomeSnoc(s.settled, Settlement(expired, TimeOutError(s.unanswered[expired].message)), id);
    }
  }

  lemma NextFits(s: State, init: seq<Action>, last: Action, id: Id)
    requires HasFreshIds(init + [last]) && Inv(s) && TableFits(s, init)
    ensures Fits(Next(s, last), init + [last], id)
  {
    assert (init + [last])[..|init|] == init;
    assert Fits(s, init, id);
    match last {
      case Send(_, _, _) => SendFits(s, init, last, id);
      case Receive(replied, _) =>
        assert Fits(s, init, replied);
        ReceiveFits(s, init, last, id);
      case Expire(_) => ExpireFits(s, init, last, id);
    }
  }

  lemma NextKeepsInv(s: State, init: seq<Action>, last: Action)
    requires HasFreshIds(init + [last]) && Inv(s) && TableFits(s, init)
    ensures Inv(Next(s, last)) && TableFits(Next(s, last), init + [last])
  {
    assert (init + [last])[..|init|] == init;
    forall id ensures Fits(Next(s, last), init + [last], id) {
      NextFits(s, init, last, id);
    }
    match last {
      case Send(id, action, fails) =>
        NotIssued(init, id);
        assert Fits(s, init, id);
        OutcomeInIff(s.settled, id);
        SentKeepsInv(s, id, action, fails);
      case Receive(id, reply) => RepliedKeepsInv(s, id, reply);
      case Expire(timer) => ExpiredKeepsInv(s, timer);
    }
  }

  /**
   However sends, failures to send, replies, repeated and unknown replies and timeouts follow on each
   other: each request is settled at most once, with the first thing that ends it; the table holds
   exactly the requests made and not settled; and each of them has a running timer of its own.
   */
  lemma {:induction false} RunsKeepTheTable(actions: seq<Action>)
    requires HasFreshIds(actions)
    ensures Inv(Run(actions)) && TableFits(Run(actions), actions)
  {
    if actions != [] {
      var init, last := actions[..|actions| - 1], actions[|actions| - 1];
      RunsKeepTheTable(init);
      assert actions == init + [last];
      NextKeepsInv(Run(init), init, last);
    }
  }

  /** Once told from what happened, an outcome is final. */
  lemma {:induction false} OutcomeIsFinal(actions: seq<Action>, i: nat, id: Id)
    requires i <= |actions| && OutcomeOf(actions[..i], id).Some?
    ensures OutcomeOf(actions, id) == OutcomeOf(actions[..i], id)
  {
    if i < |actions| {
      var init := actions[..|actions| - 1];
      assert init[..i] == actions[..i];
      OutcomeIsFinal(init, i, id);
    } else {
      assert actions[..i] == actions;
    }
  }

  /**
   The first reply to a request that waits decides what its promise is settled with, whatever happens
   afterwards: a result resolves it, an error rejects it with the error's code and message.
   */
  lemma FirstReplyDecides(actions: seq<Action>, i: nat)
    requires HasFreshIds(actions) && i < |actions| && actions[i].Receive?
    requires RequestOf(actions[..i], actions[i].id).Some? && OutcomeOf(actions[..i], actions[i].id).None?
    ensures actions[i].reply.Success? ==>
              Settlement(actions[i].id, Resolved(actions[i].reply.result)) in Run(actions).settled
    ensures actions[i].reply.Failure? ==>
              Settlement(actions[i].id, RemoteError(actions[i].reply.code, actions[i].reply.details))
              in Run(actions).settled
  {
    var id := actions[i].id;
    var upTo := actions[..i + 1];
    assert upTo[..|upTo| - 1] == actions[..i] && upTo[|upTo| - 1] == actions[i];
    OutcomeIsFinal(actions, i + 1, id);
    RunsKeepTheTable(actions);
    assert Fits(Run(actions), actions, id);
    OutcomeIsIn(Run(actions).settled, id);
  }

  lemma {:induction false} OutcomeIsIn(settled: seq<Settlement>, id: Id)
    requires OutcomeIn(settled, id).Some?
    ensures Settlement(id, OutcomeIn(settled, id).value) in settled
  {
    if settled[|settled| - 1].id != id {
      OutcomeIsIn(settled[..|settled| - 1], id);
    }
  }

  /** Requests are conserved: those made are those waiting and those settled. */
  lemma RequestsAreConserved(actions: seq<Action>)
    requires HasFreshIds(actions)
    ensures |Issued(actions)| == |Run(actions).unanswered| + |Run(actions).settled|
    ensures |Run(actions).timers| == |Run(actions).unanswered|
  {
    RunsKeepTheTable(actions);
    var s := Run(actions);
    SettledCount(s.settled);
    IssuedAreKnown(s, actions);
    TimersAreRequests(s, s.timers.Keys, s.unanswered.Keys);
  }

  lemma IssuedAreKnown(s: State, actions: seq<Action>)
    requires Inv(s) && TableFits(s, actions)
    ensures Issued(actions) == s.unanswered.Keys + SettledIds(s.settled) && s.unanswered.Keys !! SettledIds(s.settled)
    ensures |Issued(actions)| == |s.unanswered| + |SettledIds(s.settled)|
  {
    forall id ensures id in Issued(actions) <==> id in s.unanswered || id in SettledIds(s.settled) {
      assert Fits(s, actions, id);
      OutcomeInIff(s.settled, id);
    }
  }

  lemma {:induction false} SettledCount(settled: seq<Settlement>)
    requires forall i, j | 0 <= i < j < |settled| :: settled[i].id != settled[j].id
    ensures |SettledIds(settled)| == |settled|
  {
    if settled != [] {
      var init, last := settled[..|settled| - 1], settled[|settled| - 1];
      SettledCount(init);
      assert settled == init + [last];
      SettledSnoc(init, last);
      assert last.id !in SettledIds(init);
    } else {
      assert SettledIds(settled) == {};
    }
  }

  lemma {:induction false} TimersAreRequests(s: State, timers: set<nat>, ids: set<Id>)
    requires Inv(s) && timers <= s.timers.Keys && ids <= s.unanswered.Keys
    requires forall timer <- timers :: s.timers[timer] in ids
    requires forall id <- ids :: s.unanswered[id].timer in timers
    ensures |timers| == |ids|
  {
    if timers == {} {
      assert ids == {};
    } else {
      var timer :| timer in timers;
      TimersAreRequests(s, timers - {timer}, ids - {s.timers[timer]});
    }
  }
}
