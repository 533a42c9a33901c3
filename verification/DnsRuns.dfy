/**
 Runs of the DNS monitor among outside writers.

 Safety: as long as each outside change is handled before the next set, reset or outside change, and no
 notification overtakes it, the injected settings are in force, the backup is what the outsiders last
 wrote, and reset gives it back.
 Liveness: once everyone else is quiet, the notifications run out and the injected settings are in force.
 */
module DnsRuns {
  import opened Wrappers
  import opened Dns

  /**
   `outside` is what the outsiders last wrote at each path; `unhandled` is a path they changed whose
   change the monitor has not reacted to yet.
   */
  datatype Config = Config(w: World, outside: map<Path, DnsSettings>, unhandled: Option<Path>)

  datatype Action =
    | Set(servers: seq<string>)
    | Reset
    | OutsideChange(path: Path, settings: Option<DnsSettings>)
    | Notification(keys: seq<Path>)

  function Put(m: map<Path, DnsSettings>, p: Path, settings: Option<DnsSettings>): map<Path, DnsSettings> {
    if settings.Some? then m[p := settings.value] else m - {p}
  }

  /** The path stops being unhandled when the monitor has written its settings over it. */
  function StillUnhandled(w: World, unhandled: Option<Path>): Option<Path> {
    if unhandled.Some? && w.state.Some? && Load(w.store, unhandled.value) == Some(w.state.value.dns) then None
    else unhandled
  }

  function Next(c: Config, a: Action): Config {
    match a
    case Set(servers) => c.(w := SetDns(c.w, servers))
    case Reset => c.(w := ResetDns(c.w))
    case OutsideChange(p, settings) =>
      Config(c.w.(store := Put(c.w.store, p, settings), pending := c.w.pending + Watched({p})),
             Put(c.outside, p, settings),
             if c.w.state.Some? && IsWatched(p) then Some(p) else c.unhandled)
    case Notification(keys) =>
      var w := Notify(c.w, keys);
      c.(w := w, unhandled := StillUnhandled(w, c.unhandled))
  }

  /**
   Handling `q`, a state path that does not exist, writes over its setup path `p` unseen if `p` is
   already backed up.
   */
  predicate Overtakes(w: World, q: Path, p: Path) {
    w.state.Some? && p in w.state.value.backup && IsSetupOf(p, q) && q !in w.store
  }

  /** A notification overtakes the change of `p` when it lists such a state path before `p`. */
  predicate Overtaken(w: World, keys: seq<Path>, p: Path) {
    exists i | 0 <= i < |keys| :: Overtakes(w, keys[i], p) && p !in keys[..i]
  }

  lemma OvertakenSnoc(w: World, init: seq<Path>, last: Path, p: Path)
    ensures Overtaken(w, init + [last], p) <==> Overtaken(w, init, p) || (Overtakes(w, last, p) && p !in init)
  {
    var keys := init + [last];
    assert keys[|init|] == last && keys[..|init|] == init;
    assert forall i | 0 <= i < |init| :: keys[i] == init[i] && keys[..i] == init[..i];
  }

  predicate Permitted(c: Config, a: Action) {
    match a
    case Set(_) => c.unhandled.None?
    case Reset => c.unhandled.None?
    case OutsideChange(_, settings) =>
      c.unhandled.None? && (c.w.state.Some? ==> settings != Some(c.w.state.value.dns))
    case Notification(keys) =>
      ToSet(keys) <= c.w.pending && (c.unhandled.Some? ==> !Overtaken(c.w, keys, c.unhandled.value))
  }

  /** The relation between the store, the backup and the outsiders. */
  ghost predicate Consistent(w: World, outside: map<Path, DnsSettings>, unhandled: Option<Path>) {
    match w.state
    case None => w.store == outside && unhandled == None
    case Some(State(dns, backup)) =>
      && (forall p <- backup :: IsWatched(p))
      && (forall p <- backup | unhandled != Some(p) ::
            Load(w.store, p) == Some(dns) && backup[p] == Load(outside, p))
      && (forall p | p !in backup :: Load(w.store, p) == Load(outside, p))
      && (forall p <- w.store | IsWatched(p) && unhandled != Some(p) :: p in backup)
      && (unhandled.Some? ==>
            var p := unhandled.value;
            IsWatched(p) && Load(w.store, p) == Load(outside, p) && Load(w.store, p) != Some(dns))
  }

  ghost predicate Inv(c: Config) {
    && Consistent(c.w, c.outside, c.unhandled)
    && (forall p <- c.w.pending :: IsWatched(p))
    && (c.unhandled.Some? ==> c.unhandled.value in c.w.pending)
  }

  /** One changed key keeps the relation, unless it overtakes the unhandled change. */
  lemma HandleKeyKeeps(w: World, outside: map<Path, DnsSettings>, unhandled: Option<Path>, p: Path)
    requires w.state.Some? && Consistent(w, outside, unhandled) && IsWatched(p)
    requires unhandled.Some? ==> !Overtakes(w, p, unhandled.value)
    ensures var r := HandleKey(w, p); Consistent(r, outside, StillUnhandled(r, unhandled))
  {
    WatchedPaths(p);
    if StateToSetupPath(p).Some? {
      HandleStateKeyKeeps(w, outside, unhandled, p, StateToSetupPath(p).value);
    }
  }

  /** What outsiders wrote at a path is backed up, and the injected settings are written there. */
  function WithCover(w: World, outside: map<Path, DnsSettings>, p: Path, pending: set<Path>): World
    requires w.state.Some?
  {
    var State(dns, backup) := w.state.value;
    World(w.store[p := dns], pending, Some(State(dns, backup[p := Load(outside, p)])))
  }

  lemma CoverChangesOnePath(w: World, outside: map<Path, DnsSettings>, p: Path, pending: set<Path>)
    requires w.state.Some?
    ensures var r, backup := WithCover(w, outside, p, pending), w.state.value.backup;
            && (forall q :: Load(r.store, q) == if q == p then Some(w.state.value.dns) else Load(w.store, q))
            && (forall q :: q in r.state.value.backup <==> q == p || q in backup)
            && (forall q <- r.state.value.backup ::
                  r.state.value.backup[q] == if q == p then Load(outside, p) else backup[q])
  {}

  /** Doing that keeps the relation. */
  lemma CoverKeeps(w: World, outside: map<Path, DnsSettings>, unhandled: Option<Path>, p: Path, pending: set<Path>)
    requires w.state.Some? && Consistent(w, outside, unhandled) && IsWatched(p)
    ensures Consistent(WithCover(w, outside, p, pending), outside, if unhandled == Some(p) then None else unhandled)
  {
    CoverChangesOnePath(w, outside, p, pending);
  }

  lemma HandleStateKeyKeeps(w: World, outside: map<Path, DnsSettings>, unhandled: Option<Path>, p: Path, setup: Path)
    requires w.state.Some? && Consistent(w, outside, unhandled) && IsWatched(p) && IsWatched(setup) && p != setup
    requires StateToSetupPath(p) == Some(setup)
    requires unhandled == Some(setup) ==> p in w.store || setup !in w.state.value.backup
    ensures var r := HandleKey(w, p); Consistent(r, outside, StillUnhandled(r, unhandled))
  {
    var State(dns, backup) := w.state.value;
    if Load(w.store, p) != Some(dns) {
      assert Load(w.store, p) == Load(outside, p);
      if setup in backup {
        KnownSetupKeeps(w, outside, unhandled, p, setup);
      } else {
        NewSetupKeeps(w, outside, unhandled, p, setup);
      }
    }
  }

  /** The setup path is backed up already: writing the settings there changes nothing. */
  lemma KnownSetupKeeps(w: World, outside: map<Path, DnsSettings>, unhandled: Option<Path>, p: Path, setup: Path)
    requires w.state.Some? && Consistent(w, outside, unhandled) && IsWatched(p) && p != setup
    requires StateToSetupPath(p) == Some(setup) && setup in w.state.value.backup
    requires unhandled == Some(setup) ==> p in w.store
    requires Load(w.store, p) != Some(w.state.value.dns) && Load(w.store, p) == Load(outside, p)
    ensures var r := HandleKey(w, p); Consistent(r, outside, StillUnhandled(r, unhandled))
  {
    var r := HandleKey(w, p);
    CoverKeeps(w, outside, unhandled, p, r.pending);
    assert unhandled != Some(setup);
    assert r.store == w.store[p := w.state.value.dns];
  }

  /** The setup path is new: it is backed up and covered as well. */
  lemma NewSetupKeeps(w: World, outside: map<Path, DnsSettings>, unhandled: Option<Path>, p: Path, setup: Path)
    requires w.state.Some? && Consistent(w, outside, unhandled) && IsWatched(p) && IsWatched(setup) && p != setup
    requires StateToSetupPath(p) == Some(setup) && setup !in w.state.value.backup
    requires Load(w.store, p) != Some(w.state.value.dns) && Load(w.store, p) == Load(outside, p)
    ensures var r := HandleKey(w, p); Consistent(r, outside, StillUnhandled(r, unhandled))
  {
    var r := HandleKey(w, p);
    var w1 := WithCover(w, outside, p, r.pending);
    CoverKeeps(w, outside, unhandled, p, r.pending);
    CoverKeeps(w1, outside, if unhandled == Some(p) then None else unhandled, setup, r.pending);
    assert Load(w1.store, setup) == Load(outside, setup);
    assert r == WithCover(w1, outside, setup, r.pending);
  }

  /** What becomes of an unhandled change of `p` when another key `q` that does not overtake it is handled. */
  lemma HandleKeySpares(w: World, outside: map<Path, DnsSettings>, p: Path, q: Path)
    requires w.state.Some? && Consistent(w, outside, Some(p)) && IsWatched(q) && !Overtakes(w, q, p)
    ensures var r := HandleKey(w, q);
            && (q == p ==> StillUnhandled(r, Some(p)) == None)
            && (q != p && p in w.state.value.backup ==>
                  && StillUnhandled(r, Some(p)) == Some(p)
                  && p in r.state.value.backup && r.state.value.backup[p] == w.state.value.backup[p])
            && (StillUnhandled(r, Some(p)).Some? ==> (p in r.state.value.backup <==> p in w.state.value.backup))
  {
    WatchedPaths(q);
  }

  /** State paths other than those handled do not come into being. */
  lemma {:induction false} HandleKeysFrame(w: World, keys: seq<Path>, q: Path)
    requires w.state.Some? && (forall p <- keys :: IsWatched(p)) && IsStatePath(q)
    ensures q !in keys ==> (q in HandleKeys(w, keys).store <==> q in w.store)
    ensures q in w.store ==> q in HandleKeys(w, keys).store
  {
    if keys != [] {
      var last := keys[|keys| - 1];
      HandleKeysFrame(w, keys[..|keys| - 1], q);
      assert last in keys;
      WatchedPaths(last);
    }
  }

  /** A notification that overtakes nothing keeps the relation, and picks the change of `p` up if it lists `p`. */
  lemma {:induction false} HandleKeysKeep(
    w: World, outside: map<Path, DnsSettings>, unhandled: Option<Path>, keys: seq<Path>)
    requires w.state.Some? && Consistent(w, outside, unhandled)
    requires forall p <- keys :: IsWatched(p)
    requires unhandled.Some? ==> !Overtaken(w, keys, unhandled.value)
    ensures var r := HandleKeys(w, keys);
            && Consistent(r, outside, StillUnhandled(r, unhandled))
            && (unhandled.Some? ==>
                  var p := unhandled.value;
                  && (p in keys ==> StillUnhandled(r, unhandled) == None)
                  && (p !in keys && p in w.state.value.backup ==>
                        && StillUnhandled(r, unhandled) == unhandled
                        && p in r.state.value.backup && r.state.value.backup[p] == w.state.value.backup[p])
                  && (StillUnhandled(r, unhandled).Some? ==>
                        (p in r.state.value.backup <==> p in w.state.value.backup)))
  {
    if keys != [] {
      var init, last := keys[..|keys| - 1], keys[|keys| - 1];
      assert keys == init + [last];
      if unhandled.Some? {
        OvertakenSnoc(w, init, last, unhandled.value);
      }
      HandleKeysKeep(w, outside, unhandled, init);
      var middle := HandleKeys(w, init);
      var left := StillUnhandled(middle, unhandled);
      if left.Some? {
        if IsStatePath(last) {
          HandleKeysFrame(w, init, last);
        }
        HandleKeySpares(middle, outside, left.value, last);
      }
      HandleKeyKeeps(middle, outside, left, last);
    }
  }

  lemma HandleKeysPending(w: World, keys: seq<Path>)
    requires w.state.Some? && forall p <- w.pending :: IsWatched(p)
    ensures forall p <- HandleKeys(w, keys).pending :: IsWatched(p)
    ensures w.pending <= HandleKeys(w, keys).pending
  {}

  /** A fresh backup takes over from the outsiders. */
  lemma FirstSetKeeps(w: World, outside: map<Path, DnsSettings>, servers: seq<string>)
    requires w.state == None && w.store == outside
    ensures Consistent(SetDns(w, servers), outside, None)
  {
    forall p | p in BackupPaths(w.store)
      ensures IsWatched(p)
    {
      if p in SetupsOf(StatePaths(w.store)) {
        var q :| q in StatePaths(w.store) && p == SETUP_PREFIX + q[7..];
        WatchedPaths(q);
      }
    }
  }

  lemma StepKeepsInv(c: Config, a: Action)
    requires Inv(c) && Permitted(c, a)
    ensures Inv(Next(c, a))
  {
    match a {
      case Set(servers) =>
        if c.w.state.None? {
          FirstSetKeeps(c.w, c.outside, servers);
        }
      case Reset =>
        if c.w.state.Some? {
          ResetRestores(c);
        }
      case OutsideChange(p, settings) =>
      case Notification(keys) =>
        if c.w.state.Some? {
          var delivered := c.w.(pending := c.w.pending - ToSet(keys));
          NotificationKeeps(c, keys, delivered);
        }
    }
  }

  lemma NotificationKeeps(c: Config, keys: seq<Path>, delivered: World)
    requires Inv(c) && c.w.state.Some? && Permitted(c, Notification(keys))
    requires delivered == c.w.(pending := c.w.pending - ToSet(keys))
    ensures Inv(Next(c, Notification(keys)))
  {
    assert forall p <- keys :: p in ToSet(keys);
    if c.unhandled.Some? {
      assert Overtaken(delivered, keys, c.unhandled.value) <==> Overtaken(c.w, keys, c.unhandled.value) by {
        assert forall q :: Overtakes(delivered, q, c.unhandled.value) <==> Overtakes(c.w, q, c.unhandled.value);
      }
    }
    assert Consistent(delivered, c.outside, c.unhandled);
    HandleKeysKeep(delivered, c.outside, c.unhandled, keys);
    HandleKeysPending(delivered, keys);
  }

  /** Reset gives every path back to the outsiders. */
  lemma ResetRestores(c: Config)
    requires Inv(c) && Permitted(c, Reset)
    ensures ResetDns(c.w).store == c.outside && ResetDns(c.w).state == None
  {
    if c.w.state.Some? {
      var restored, backup := ResetDns(c.w).store, c.w.state.value.backup;
      assert forall p :: Load(restored, p) == Load(c.outside, p);
      assert forall p :: p in restored <==> p in c.outside;
    }
  }

  // ----- Runs -----

  function Run(c: Config, actions: seq<Action>): Config {
    if actions == [] then c else Next(Run(c, actions[..|actions| - 1]), actions[|actions| - 1])
  }

  predicate AllPermitted(c: Config, actions: seq<Action>) {
    actions == [] ||
    (&& AllPermitted(c, actions[..|actions| - 1])
     && Permitted(Run(c, actions[..|actions| - 1]), actions[|actions| - 1]))
  }

  /** The monitor has just been created; what is stored is what the outsiders wrote. */
  function Initial(store: map<Path, DnsSettings>): Config {
    Config(World(store, {}, None), store, None)
  }

  lemma {:induction false} RunKeepsInv(c: Config, actions: seq<Action>)
    requires Inv(c) && AllPermitted(c, actions)
    ensures Inv(Run(c, actions))
  {
    if actions != [] {
      RunKeepsInv(c, actions[..|actions| - 1]);
      StepKeepsInv(Run(c, actions[..|actions| - 1]), actions[|actions| - 1]);
    }
  }

  /**
   Safety over every run: whenever no outside change is waiting, the injected settings are at every
   backed-up path and at every watched path that exists, the backup is what the outsiders last wrote,
   and a reset makes the whole store what the outsiders last wrote.
   */
  lemma InjectionIsSafe(store: map<Path, DnsSettings>, actions: seq<Action>)
    requires AllPermitted(Initial(store), actions)
    ensures var c := Run(Initial(store), actions);
            c.unhandled.None? ==>
              && ResetDns(c.w).store == c.outside
              && (c.w.state.None? ==> c.w.store == c.outside)
              && (c.w.state.Some? ==>
                    var State(dns, backup) := c.w.state.value;
                    && (forall p <- backup :: Load(c.w.store, p) == Some(dns) && backup[p] == Load(c.outside, p))
                    && (forall p <- c.w.store | IsWatched(p) :: p in backup)
                    && (forall p | p !in backup :: Load(c.w.store, p) == Load(c.outside, p)))
  {
    RunKeepsInv(Initial(store), actions);
    var c := Run(Initial(store), actions);
    if c.unhandled.None? {
      ResetRestores(c);
    }
  }

  // ----- What is in force is what was asked for -----

  /** The servers of the last set since the last reset. */
  function Asked(actions: seq<Action>): Option<seq<string>> {
    if actions == [] then None
    else
      match actions[|actions| - 1]
      case Set(servers) => Some(servers)
      case Reset => None
      case _ => Asked(actions[..|actions| - 1])
  }

  /** A dictionary of the addresses of these servers and nothing else, empty if there are none. */
  predicate HoldsJust(settings: DnsSettings, servers: seq<string>) {
    if servers == [] then settings.Keys == {}
    else settings.Keys == {"ServerAddresses"} && settings["ServerAddresses"] == Strings(servers)
  }

  /** Whoever else writes, and in whatever order: the monitor injects exactly what it was last asked to. */
  lemma {:induction false} InjectsWhatWasAsked(c: Config, actions: seq<Action>)
    requires c.w.state.None?
    ensures var state := Run(c, actions).w.state;
            && (state.Some? <==> Asked(actions).Some?)
            && (state.Some? ==> HoldsJust(state.value.dns, Asked(actions).value))
  {
    if actions != [] {
      InjectsWhatWasAsked(c, actions[..|actions| - 1]);
    }
  }

  /** Asking once more for the servers that are injected changes nothing, even where others have written. */
  lemma SameServersChangeNothing(w: World, servers: seq<string>)
    requires w.state.Some? && HoldsJust(w.state.value.dns, servers)
    ensures SetDns(w, servers) == w
  {}

  /**
   Whoever writes, the monitor included: of every watched path whose entry is changed, a notification is
   due, and none that was due is forgotten before it is delivered.
   */
  lemma ChangesAreNotified(c: Config, a: Action)
    ensures var next := Next(c, a).w;
            && (forall p | IsWatched(p) && Load(next.store, p) != Load(c.w.store, p) :: p in next.pending)
            && (forall p <- c.w.pending :: p in next.pending || (a.Notification? && p in a.keys))
  {
    if a.Notification? && c.w.state.Some? {
      var delivered := c.w.(pending := c.w.pending - ToSet(a.keys));
      HandledChangesAreNotified(delivered, a.keys);
    }
  }

  lemma {:induction false} HandledChangesAreNotified(w: World, keys: seq<Path>)
    requires w.state.Some?
    ensures var r := HandleKeys(w, keys);
            && w.pending <= r.pending
            && forall p | IsWatched(p) && Load(r.store, p) != Load(w.store, p) :: p in r.pending
  {
    if keys != [] {
      HandledChangesAreNotified(w, keys[..|keys| - 1]);
    }
  }

  /**
   In every permitted run in which the monitor was last asked for these servers, once no outside change is
   waiting: all paths it has backed up, and all watched paths that exist, for it or for the outsiders,
   hold exactly the addresses of these servers. Before it is asked, and after a reset, the store is the
   outsiders'.
   */
  lemma AskedForIsInForce(store: map<Path, DnsSettings>, actions: seq<Action>)
    requires AllPermitted(Initial(store), actions) && Run(Initial(store), actions).unhandled.None?
    ensures var c := Run(Initial(store), actions);
            match Asked(actions)
            case Some(servers) =>
              && c.w.state.Some?
              && (forall p <- c.w.state.value.backup :: p in c.w.store && HoldsJust(c.w.store[p], servers))
              && (forall p <- c.w.store.Keys + c.outside.Keys | IsWatched(p) ::
                    p in c.w.store && HoldsJust(c.w.store[p], servers))
            case None => c.w.store == c.outside
  {
    InjectionIsSafe(store, actions);
    InjectsWhatWasAsked(Initial(store), actions);
    var c := Run(Initial(store), actions);
    if c.w.state.Some? {
      var State(dns, backup) := c.w.state.value;
      forall p | p in backup ensures p in c.w.store && c.w.store[p] == dns {
        assert Load(c.w.store, p) == Some(dns);
      }
      forall p | p in c.outside && IsWatched(p) ensures p in backup {
        assert p !in backup ==> Load(c.w.store, p) == Load(c.outside, p);
      }
    }
  }

  // ----- When a change is lost -----

  /** An overtaken change is never seen: the backup keeps its older value. */
  lemma {:induction false} OvertakenIsLost(w: World, outside: map<Path, DnsSettings>, p: Path, keys: seq<Path>)
    requires w.state.Some? && Consistent(w, outside, Some(p)) && (forall q <- keys :: IsWatched(q))
    requires Overtaken(w, keys, p)
    ensures p in w.state.value.backup
    ensures var r := HandleKeys(w, keys);
            && Load(r.store, p) == Some(w.state.value.dns)
            && p in r.state.value.backup && r.state.value.backup[p] == w.state.value.backup[p]
  {
    var init, last := keys[..|keys| - 1], keys[|keys| - 1];
    assert keys == init + [last];
    assert last in keys;
    OvertakenSnoc(w, init, last, p);
    if Overtaken(w, init, p) {
      OvertakenIsLost(w, outside, p, init);
      CoveredStaysCovered(HandleKeys(w, init), last, p);
    } else {
      OvertakenByLast(w, outside, p, init, last);
    }
  }

  /** A backed-up path at which the injected settings are is left alone. */
  lemma CoveredStaysCovered(w: World, last: Path, p: Path)
    requires w.state.Some? && p in w.state.value.backup && Load(w.store, p) == Some(w.state.value.dns)
    ensures var r := HandleKey(w, last);
            && Load(r.store, p) == Some(w.state.value.dns)
            && p in r.state.value.backup && r.state.value.backup[p] == w.state.value.backup[p]
  {}

  lemma OvertakenByLast(w: World, outside: map<Path, DnsSettings>, p: Path, init: seq<Path>, last: Path)
    requires w.state.Some? && Consistent(w, outside, Some(p)) && (forall q <- init :: IsWatched(q)) && IsWatched(last)
    requires !Overtaken(w, init, p) && Overtakes(w, last, p) && p !in init
    ensures p in w.state.value.backup
    ensures var r := HandleKey(HandleKeys(w, init), last);
            && Load(r.store, p) == Some(w.state.value.dns)
            && p in r.state.value.backup && r.state.value.backup[p] == w.state.value.backup[p]
  {
    HandleKeysKeep(w, outside, Some(p), init);
    OvertakenAlready(w, init, last, p);
    WatchedPaths(last);
    HandleKeysFrame(w, init, last);
  }

  lemma OvertakenAlready(w: World, keys: seq<Path>, q: Path, p: Path)
    requires Overtakes(w, q, p) && p !in keys
    ensures q in keys ==> Overtaken(w, keys, p)
  {
    if q in keys {
      var i :| 0 <= i < |keys| && keys[i] == q;
      assert Overtakes(w, keys[i], p) && p !in keys[..i];
    }
  }

  /**
   Exactly when a notification that lists a changed path records the change: when it does not overtake
   it, or when there was nothing to record.
   */
  lemma ChangeIsRecordedIff(w: World, outside: map<Path, DnsSettings>, p: Path, keys: seq<Path>)
    requires w.state.Some? && Consistent(w, outside, Some(p)) && (forall q <- keys :: IsWatched(q)) && p in keys
    ensures var State(dns, backup) := w.state.value;
            var after := HandleKeys(w, keys).state.value.backup;
            p in after && after[p] == Load(outside, p) <==>
            !Overtaken(w, keys, p) || (p in backup && backup[p] == Load(outside, p))
  {
    if Overtaken(w, keys, p) {
      OvertakenIsLost(w, outside, p, keys);
    } else {
      HandleKeysKeep(w, outside, Some(p), keys);
    }
  }

  /**
   Exactly when a change to the injected settings themselves is recorded: never, unless nothing changed.
   The monitor sees no difference, so the backup stays what the outsiders wrote before.
   */
  lemma ChangeToInjectedIsRecordedIff(w: World, outside: map<Path, DnsSettings>, p: Path, keys: seq<Path>)
    requires w.state.Some? && Consistent(w, outside, None) && (forall q <- keys :: IsWatched(q))
    requires p in w.state.value.backup
    ensures var dns := w.state.value.dns;
            var after := HandleKeys(w.(store := w.store[p := dns]), keys).state.value.backup;
            p in after && (after[p] == Load(outside[p := dns], p) <==> Load(outside, p) == Some(dns))
  {
    assert Load(w.store, p) == Some(w.state.value.dns);
    assert w.store[p := w.state.value.dns] == w.store;
    HandleKeysKeep(w, outside, None, keys);
    GoodStaysGood(w, keys, p);
    StillBackedUp(HandleKeys(w, keys), outside, p);
  }

  lemma StillBackedUp(w: World, outside: map<Path, DnsSettings>, p: Path)
    requires w.state.Some? && Consistent(w, outside, None) && IsWatched(p) && p in w.store
    ensures p in w.state.value.backup && w.state.value.backup[p] == Load(outside, p)
  {}

  /** The discipline without the condition on overtaking. */
  predicate NaivelyPermitted(c: Config, a: Action) {
    match a
    case Notification(keys) => ToSet(keys) <= c.w.pending
    case _ => Permitted(c, a)
  }

  /**
   That discipline is not enough. A service loses its state entry while the monitor injects; the reset
   removes the entry again, and before that removal is delivered the monitor is set once more. When an
   outsider now changes the setup entry, one notification lists both paths, and the change is lost:
   the reset after it gives the outsider an older value back.
   */
  lemma ChangeCanBeLost(store: map<Path, DnsSettings>, state: Path, setup: Path, z: DnsSettings, servers: seq<string>)
    requires IsSetupOf(setup, state) && state in store && setup in store
    requires z != store[setup] && FromServerAddresses(servers) != z
    ensures var c0 := Initial(store);
            var c1 := Next(c0, Set(servers));
            var c2 := Next(c1, OutsideChange(state, None));
            var c3 := Next(c2, Notification([state]));
            var c4 := Next(c3, Reset);
            var c5 := Next(c4, Set(servers));
            var c6 := Next(c5, OutsideChange(setup, Some(z)));
            var c7 := Next(c6, Notification([state, setup]));
            && NaivelyPermitted(c0, Set(servers)) && NaivelyPermitted(c1, OutsideChange(state, None))
            && NaivelyPermitted(c2, Notification([state])) && NaivelyPermitted(c3, Reset)
            && NaivelyPermitted(c4, Set(servers)) && NaivelyPermitted(c5, OutsideChange(setup, Some(z)))
            && NaivelyPermitted(c6, Notification([state, setup]))
            && c7.unhandled == None
            && Load(c7.outside, setup) == Some(z) && Load(ResetDns(c7.w).store, setup) == Some(store[setup])
  {
    var c3 := Next(Next(Next(Initial(store), Set(servers)), OutsideChange(state, None)), Notification([state]));
    RemovalIsHandled(store, state, setup, servers);
    ResetLeavesRemovalPending(c3, state, setup, store[setup]);
    NextChangeIsOvertaken(Next(c3, Reset), state, setup, store[setup], z, servers);
  }

  /** The monitor injects, and has backed up `y` at `setup` and the absence of `state`. */
  predicate KnowsRemoval(c: Config, state: Path, setup: Path, y: DnsSettings) {
    && c.unhandled == None && c.w.state.Some?
    && state in c.w.state.value.backup && c.w.state.value.backup[state] == None
    && setup in c.w.state.value.backup && c.w.state.value.backup[setup] == Some(y)
  }

  lemma RemovalIsHandled(store: map<Path, DnsSettings>, state: Path, setup: Path, servers: seq<string>)
    requires IsSetupOf(setup, state) && state in store && setup in store
    ensures var c1 := Next(Initial(store), Set(servers));
            var c2 := Next(c1, OutsideChange(state, None));
            && NaivelyPermitted(c1, OutsideChange(state, None)) && NaivelyPermitted(c2, Notification([state]))
            && KnowsRemoval(Next(c2, Notification([state])), state, setup, store[setup])
  {
    WatchedPaths(state);
    var c1 := Next(Initial(store), Set(servers));
    var backup := c1.w.state.value.backup;
    assert setup in BackupPaths(store);
    assert backup[setup] == Some(store[setup]);
    var c2 := Next(c1, OutsideChange(state, None));
    assert Load(c2.w.store, state) == None;
    HandleOne(c2.w.(pending := c2.w.pending - ToSet([state])), state);
  }

  lemma ResetLeavesRemovalPending(c: Config, state: Path, setup: Path, y: DnsSettings)
    requires IsSetupOf(setup, state) && KnowsRemoval(c, state, setup, y)
    ensures var after := Next(c, Reset);
            && after.unhandled == None && after.w.state == None
            && Load(after.w.store, state) == None && Load(after.w.store, setup) == Some(y)
            && state in after.w.pending
  {}

  lemma NextChangeIsOvertaken(c: Config, state: Path, setup: Path, y: DnsSettings, z: DnsSettings, servers: seq<string>)
    requires IsSetupOf(setup, state) && FromServerAddresses(servers) != z
    requires c.unhandled == None && c.w.state == None
    requires Load(c.w.store, state) == None && Load(c.w.store, setup) == Some(y) && state in c.w.pending
    ensures var c5 := Next(c, Set(servers));
            var c6 := Next(c5, OutsideChange(setup, Some(z)));
            var c7 := Next(c6, Notification([state, setup]));
            && NaivelyPermitted(c5, OutsideChange(setup, Some(z)))
            && NaivelyPermitted(c6, Notification([state, setup]))
            && c7.unhandled == None
            && Load(c7.outside, setup) == Some(z) && Load(ResetDns(c7.w).store, setup) == Some(y)
  {
    WatchedPaths(state);
    var c5 := Next(c, Set(servers));
    assert setup in BackupPaths(c.w.store);
    assert c5.w.state.value.backup[setup] == Some(y);
    assert state !in c5.w.store by { NotBackedUp(c.w.store, state); }
    var c6 := Next(c5, OutsideChange(setup, Some(z)));
    var delivered := c6.w.(pending := c6.w.pending - ToSet([state, setup]));
    assert [state, setup][..1] == [state];
    HandleOne(delivered, state);
    var middle := HandleKey(delivered, state);
    assert Load(middle.store, setup) == Some(middle.state.value.dns);
    assert HandleKeys(delivered, [state, setup]) == middle;
  }

  lemma NotBackedUp(store: map<Path, DnsSettings>, state: Path)
    requires IsStatePath(state) && state !in store
    ensures state !in BackupPaths(store)
  {
    assert state[1] == 't';
    assert forall p :: (SETUP_PREFIX + p)[1] == 'e';
  }

  lemma HandleOne(w: World, p: Path)
    requires w.state.Some?
    ensures HandleKeys(w, [p]) == HandleKey(w, p)
  {
    assert [p][..0] == [];
  }

  // ----- A simple discipline that loses nothing -----

  /** No state path that is waiting to be delivered is missing from the store, but for the unhandled one. */
  ghost predicate Tidy(c: Config) {
    c.w.state.Some? ==>
      forall q <- c.w.pending | IsStatePath(q) :: q in c.w.store || c.unhandled == Some(q)
  }

  /** Injecting starts only when no removal of a state path is waiting to be delivered. */
  ghost predicate Orderly(c: Config, a: Action) {
    && NaivelyPermitted(c, a)
    && (a.Set? && c.w.state.None? ==> forall q <- c.w.pending | IsStatePath(q) :: q in c.w.store)
  }

  lemma OrderlyIsPermitted(c: Config, a: Action)
    requires Inv(c) && Tidy(c) && Orderly(c, a)
    ensures Permitted(c, a)
  {
    if a.Notification? && c.unhandled.Some? && Overtaken(c.w, a.keys, c.unhandled.value) {
      var p := c.unhandled.value;
      var i :| 0 <= i < |a.keys| && Overtakes(c.w, a.keys[i], p) && p !in a.keys[..i];
      assert a.keys[i] in ToSet(a.keys);
      WatchedPaths(a.keys[i]);
      assert false;
    }
  }

  lemma {:induction false} WrittenKeysExist(w: World, keys: seq<Path>)
    requires w.state.Some? && forall p <- keys :: IsWatched(p)
    ensures w.store.Keys <= HandleKeys(w, keys).store.Keys
    ensures forall p <- keys :: p in HandleKeys(w, keys).store
    ensures forall p <- HandleKeys(w, keys).pending :: p in w.pending || p in HandleKeys(w, keys).store
  {
    if keys != [] {
      var init, last := keys[..|keys| - 1], keys[|keys| - 1];
      assert keys == init + [last];
      WrittenKeysExist(w, init);
    }
  }

  lemma OrderlyKeepsTidy(c: Config, a: Action)
    requires Inv(c) && Tidy(c) && Orderly(c, a)
    ensures Tidy(Next(c, a))
  {
    if a.Notification? && c.w.state.Some? {
      var delivered := c.w.(pending := c.w.pending - ToSet(a.keys));
      assert forall p <- a.keys :: p in ToSet(a.keys);
      WrittenKeysExist(delivered, a.keys);
    }
  }

  ghost predicate AllOrderly(c: Config, actions: seq<Action>) {
    actions == [] ||
    (&& AllOrderly(c, actions[..|actions| - 1])
     && Orderly(Run(c, actions[..|actions| - 1]), actions[|actions| - 1]))
  }

  /** Runs in which injecting starts only once pending removals are delivered never lose a change. */
  lemma {:induction false} OrderlyRunsArePermitted(store: map<Path, DnsSettings>, actions: seq<Action>)
    requires AllOrderly(Initial(store), actions)
    ensures AllPermitted(Initial(store), actions) && Tidy(Run(Initial(store), actions))
  {
    if actions != [] {
      var init := actions[..|actions| - 1];
      OrderlyRunsArePermitted(store, init);
      RunKeepsInv(Initial(store), init);
      var c, a := Run(Initial(store), init), actions[|actions| - 1];
      OrderlyIsPermitted(c, a);
      OrderlyKeepsTidy(c, a);
    }
  }

  // ----- Liveness -----

  /** Pending paths at which the injected settings are not in force. */
  function Bad(w: World): set<Path>
    requires w.state.Some?
  {
    set p | p in w.pending && Load(w.store, p) != Some(w.state.value.dns)
  }

  lemma {:induction false} GoodStaysGood(w: World, keys: seq<Path>, p: Path)
    requires w.state.Some? && Load(w.store, p) == Some(w.state.value.dns)
    ensures Load(HandleKeys(w, keys).store, p) == Some(w.state.value.dns)
  {
    if keys != [] {
      GoodStaysGood(w, keys[..|keys| - 1], p);
    }
  }

  lemma {:induction false} HandledKeysAreGood(w: World, keys: seq<Path>)
    requires w.state.Some?
    ensures var r := HandleKeys(w, keys);
            && (forall p <- keys :: Load(r.store, p) == Some(w.state.value.dns))
            && (forall p <- r.pending :: p in w.pending || Load(r.store, p) == Some(w.state.value.dns))
            && (forall p :: Load(r.store, p) == Load(w.store, p) || Load(r.store, p) == Some(w.state.value.dns))
            && ((forall p <- keys :: Load(w.store, p) == Some(w.state.value.dns)) ==> r == w)
  {
    if keys != [] {
      var init, last := keys[..|keys| - 1], keys[|keys| - 1];
      assert keys == init + [last];
      HandledKeysAreGood(w, init);
      HandledKeyIsGood(HandleKeys(w, init), last);
    }
  }

  lemma HandledKeyIsGood(w: World, last: Path)
    requires w.state.Some?
    ensures var r, dns := HandleKey(w, last), w.state.value.dns;
            && Load(r.store, last) == Some(dns)
            && (forall p <- r.pending :: p in w.pending || Load(r.store, p) == Some(dns))
            && (forall p :: Load(r.store, p) == Load(w.store, p) || Load(r.store, p) == Some(dns))
            && (Load(w.store, last) == Some(dns) ==> r == w)
  {}

  /** Every notification makes progress: fewer bad pending paths, or as many and fewer pending paths. */
  lemma NotificationProgresses(w: World, keys: seq<Path>)
    requires w.state.Some? && keys != [] && ToSet(keys) <= w.pending
    ensures var r := Notify(w, keys);
            && r.state.Some? && r.state.value.dns == w.state.value.dns
            && (Bad(r) < Bad(w) || (Bad(r) == Bad(w) && r.pending < w.pending))
  {
    var delivered := w.(pending := w.pending - ToSet(keys));
    HandledKeysAreGood(delivered, keys);
    var r := Notify(w, keys);
    assert Bad(r) <= Bad(w);
    assert keys[0] in ToSet(keys);
    if p :| p in keys && Load(w.store, p) != Some(w.state.value.dns) {
      assert p in ToSet(keys);
      assert p in Bad(w) && p !in Bad(r);
    } else {
      assert r == delivered;
    }
  }

  /** Every watched entry at which the injected settings are not in force is waiting to be delivered. */
  ghost predicate Covered(w: World)
    requires w.state.Some?
  {
    forall p <- w.store | IsWatched(p) && w.store[p] != w.state.value.dns :: p in w.pending
  }

  lemma InvIsCovered(c: Config)
    requires Inv(c) && c.w.state.Some?
    ensures Covered(c.w)
  {
    forall p | p in c.w.store && IsWatched(p) && c.w.store[p] != c.w.state.value.dns
      ensures p in c.w.pending
    {
      assert Load(c.w.store, p) == Some(c.w.store[p]);
    }
  }

  lemma NotifyKeepsCovered(w: World, keys: seq<Path>)
    requires w.state.Some? && Covered(w) && ToSet(keys) <= w.pending
    ensures Notify(w, keys).state.Some? && Covered(Notify(w, keys))
  {
    var delivered := w.(pending := w.pending - ToSet(keys));
    HandledKeysAreGood(delivered, keys);
    HandleKeysPendingGrows(delivered, keys);
    var r := Notify(w, keys);
    forall p | p in r.store && IsWatched(p) && r.store[p] != r.state.value.dns
      ensures p in r.pending
    {
      assert Load(r.store, p) == Some(r.store[p]) && Load(w.store, p) == Some(w.store[p]);
      assert p !in keys;
    }
  }

  lemma {:induction false} HandleKeysPendingGrows(w: World, keys: seq<Path>)
    requires w.state.Some?
    ensures w.pending <= HandleKeys(w, keys).pending
  {
    if keys != [] {
      HandleKeysPendingGrows(w, keys[..|keys| - 1]);
    }
  }

  /**
   Once everyone else is quiet: whichever batches the system delivers, the notifications run out, and
   then the injected settings are at every watched path that exists.
   */
  method RunUntilQuiet(monitor: DnsMonitor)
    requires monitor.state.Some? && Covered(monitor.View())
    modifies monitor, monitor.store
    ensures monitor.state.Some? && monitor.state.value.dns == old(monitor.state).value.dns
    ensures monitor.store.pending == {}
    ensures forall p <- monitor.store.entries | IsWatched(p) ::
      monitor.store.entries[p] == monitor.state.value.dns
  {
    while monitor.store.pending != {}
      invariant monitor.state.Some? && monitor.state.value.dns == old(monitor.state).value.dns
      invariant Covered(monitor.View())
      decreases Bad(monitor.View()), monitor.store.pending
    {
      ghost var before := monitor.View();
      var keys := AnyBatch(monitor.store.pending);
      NotificationProgresses(before, keys);
      NotifyKeepsCovered(before, keys);
      monitor.OnNotification(keys);
    }
  }

  /** After any permitted run in which the monitor injects, the system may go on like that. */
  lemma RunIsCovered(store: map<Path, DnsSettings>, actions: seq<Action>)
    requires AllPermitted(Initial(store), actions)
    ensures var w := Run(Initial(store), actions).w; w.state.Some? ==> Covered(w)
  {
    RunKeepsInv(Initial(store), actions);
    if Run(Initial(store), actions).w.state.Some? {
      InvIsCovered(Run(Initial(store), actions));
    }
  }

  /**
   Liveness over every run: wherever a permitted run leaves a monitor that injects, once everyone else is
   quiet the notifications run out and its settings are at every watched path that exists.
   */
  method SettleAfterRun(monitor: DnsMonitor, ghost store: map<Path, DnsSettings>, ghost actions: seq<Action>)
    requires AllPermitted(Initial(store), actions)
    requires monitor.View() == Run(Initial(store), actions).w && monitor.state.Some?
    modifies monitor, monitor.store
    ensures monitor.state.Some? && monitor.state.value.dns == old(monitor.state).value.dns
    ensures monitor.store.pending == {}
    ensures forall p <- monitor.store.entries | IsWatched(p) ::
      monitor.store.entries[p] == monitor.state.value.dns
  {
    RunIsCovered(store, actions);
    RunUntilQuiet(monitor);
  }

  /** The system's choice of which pending keys to deliver, and in which order. */
  method AnyBatch(pending: set<Path>) returns (keys: seq<Path>)
    requires pending != {}
    ensures keys != [] && ToSet(keys) <= pending
  {
    var p :| p in pending;
    assert ToSet([p]) <= pending;
    keys :| keys != [] && ToSet(keys) <= pending;
  }
}
