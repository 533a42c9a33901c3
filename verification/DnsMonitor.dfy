/**
 The macOS DNS monitor: it replaces the DNS settings of every network service by its own, keeps them
 replaced while others change them, and puts the others' settings back on reset.

 The functions on `World` say what each operation does to the dynamic store, the pending change
 notifications and the monitor's state; the classes do it entry by entry.
 */
module Dns {
  import opened Wrappers

  type Path = string

  datatype PropertyValue = Strings(values: seq<string>) | Other(id: int)

  /** The dictionary stored for one service. */
  type DnsSettings = map<string, PropertyValue>

  const SERVER_ADDRESSES_KEY := "ServerAddresses"

  function FromServerAddresses(servers: seq<string>): DnsSettings {
    if servers == [] then map[] else map[SERVER_ADDRESSES_KEY := Strings(servers)]
  }

  function ServerAddresses(settings: DnsSettings): seq<string> {
    if SERVER_ADDRESSES_KEY in settings && settings[SERVER_ADDRESSES_KEY].Strings?
    then settings[SERVER_ADDRESSES_KEY].values
    else []
  }

  // ----- Paths -----

  const STATE_PREFIX := "State:/"
  const SETUP_PREFIX := "Setup:/"
  const SERVICE_PREFIX := "Network/Service/"
  const DNS_SUFFIX := "/DNS"

  /** The rest of a path, after `State:/` or `Setup:/`, names the DNS entry of some service. */
  predicate IsServiceDns(rest: string) {
    && SERVICE_PREFIX <= rest
    && |rest| >= |SERVICE_PREFIX| + |DNS_SUFFIX|
    && rest[|rest| - |DNS_SUFFIX|..] == DNS_SUFFIX
  }

  predicate IsStatePath(p: Path) {
    STATE_PREFIX <= p && IsServiceDns(p[7..])
  }

  predicate IsSetupPath(p: Path) {
    SETUP_PREFIX <= p && IsServiceDns(p[7..])
  }

  /** The monitor is notified of changes to these paths. */
  predicate IsWatched(p: Path) {
    IsStatePath(p) || IsSetupPath(p)
  }

  function StateToSetupPath(p: Path): Option<Path> {
    if STATE_PREFIX <= p then Some(SETUP_PREFIX + p[7..]) else None
  }

  /** `setup` is the setup path that belongs to the state path `state`. */
  predicate IsSetupOf(setup: Path, state: Path) {
    IsStatePath(state) && StateToSetupPath(state) == Some(setup)
  }

  /** A watched path either has a watched setup path of its own, or is one. */
  lemma WatchedPaths(p: Path)
    requires IsWatched(p)
    ensures StateToSetupPath(p).Some? <==> IsStatePath(p)
    ensures StateToSetupPath(p).Some? ==>
      var setup := StateToSetupPath(p).value; setup != p && IsWatched(setup) && !IsStatePath(setup)
  {
    if STATE_PREFIX <= p {
      assert p[1] == 't';
      var setup := SETUP_PREFIX + p[7..];
      assert setup[7..] == p[7..] && setup[1] == 'e';
    } else {
      assert p[1] == 'e';
    }
  }

  function ServicePath(prefix: string, id: string): Path {
    prefix + "Network/Service/" + id + "/DNS"
  }

  /** The watched paths are the state and setup entries of services, and one belongs to the other by its service. */
  lemma WatchedPathsIff(p: Path)
    ensures IsStatePath(p) <==> exists id: string :: p == ServicePath("State:/", id)
    ensures IsSetupPath(p) <==> exists id: string :: p == ServicePath("Setup:/", id)
    ensures forall id: string :: IsSetupOf(p, ServicePath("State:/", id)) <==> p == ServicePath("Setup:/", id)
  {
    PrefixedIff(p, "State:/");
    PrefixedIff(p, "Setup:/");
    forall id: string ensures IsSetupOf(p, ServicePath("State:/", id)) <==> p == ServicePath("Setup:/", id) {
      RestOfServicePath("State:/", id);
      RestOfServicePath("Setup:/", id);
      PrefixedIff(ServicePath("State:/", id), "State:/");
    }
  }

  lemma RestOfServicePath(prefix: string, id: string)
    requires |prefix| == 7
    ensures prefix <= ServicePath(prefix, id)
    ensures ServicePath(prefix, id)[7..] == "Network/Service/" + id + "/DNS"
    ensures ServicePath(prefix, id) == prefix + ("Network/Service/" + id + "/DNS")
  {}

  lemma ServiceDnsForm(id: string)
    ensures IsServiceDns("Network/Service/" + id + "/DNS")
  {
    var start := "Network/Service/" + id;
    var rest := start + "/DNS";
    assert |rest| == |start| + 4 && rest[|start|..] == "/DNS";
    assert rest[..16] == "Network/Service/";
  }

  lemma PrefixedIff(p: Path, prefix: string)
    requires |prefix| == 7
    ensures prefix <= p && IsServiceDns(p[7..]) <==> exists id: string :: p == ServicePath(prefix, id)
  {
    if prefix <= p && IsServiceDns(p[7..]) {
      var rest := p[7..];
      var id := rest[16..|rest| - 4];
      assert rest == "Network/Service/" + id + "/DNS";
      RestOfServicePath(prefix, id);
      assert p == prefix + rest;
    }
    if id: string :| p == ServicePath(prefix, id) {
      RestOfServicePath(prefix, id);
      ServiceDnsForm(id);
      assert prefix <= p && p[7..] == "Network/Service/" + id + "/DNS";
    }
  }

  // ----- The world -----

  datatype State = State(dns: DnsSettings, backup: map<Path, Option<DnsSettings>>)

  /** `state` is `None` while the monitor injects nothing. */
  datatype World = World(store: map<Path, DnsSettings>, pending: set<Path>, state: Option<State>)

  function Load(store: map<Path, DnsSettings>, p: Path): Option<DnsSettings> {
    if p in store then Some(store[p]) else None
  }

  function Watched(paths: set<Path>): set<Path> {
    set p | p in paths && IsWatched(p)
  }

  function SaveAll(store: map<Path, DnsSettings>, paths: set<Path>, settings: DnsSettings): map<Path, DnsSettings> {
    map p | p in store.Keys + paths :: if p in paths then settings else store[p]
  }

  function StatePaths(store: map<Path, DnsSettings>): set<Path> {
    set p | p in store.Keys && IsStatePath(p)
  }

  function SetupPaths(store: map<Path, DnsSettings>): set<Path> {
    set p | p in store.Keys && IsSetupPath(p)
  }

  /** The setup paths that belong to some state paths. */
  function SetupsOf(paths: set<Path>): set<Path> {
    set p | p in paths && STATE_PREFIX <= p :: SETUP_PREFIX + p[7..]
  }

  /** All watched paths that exist, and the setup path of each state path even if it does not. */
  function BackupPaths(store: map<Path, DnsSettings>): set<Path> {
    StatePaths(store) + SetupsOf(StatePaths(store)) + SetupPaths(store)
  }

  function LoadAll(store: map<Path, DnsSettings>, paths: set<Path>): map<Path, Option<DnsSettings>> {
    map p | p in paths :: Load(store, p)
  }

  function ReadAllDns(store: map<Path, DnsSettings>): map<Path, Option<DnsSettings>> {
    LoadAll(store, BackupPaths(store))
  }

  function SetDns(w: World, servers: seq<string>): World {
    var settings := FromServerAddresses(servers);
    match w.state
    case None =>
      var backup := ReadAllDns(w.store);
      World(SaveAll(w.store, backup.Keys, settings), w.pending + Watched(backup.Keys), Some(State(settings, backup)))
    case Some(state) =>
      if servers == ServerAddresses(state.dns) then w
      else World(SaveAll(w.store, state.backup.Keys, settings), w.pending + Watched(state.backup.Keys),
                 Some(State(settings, state.backup)))
  }

  function Restore(store: map<Path, DnsSettings>, backup: map<Path, Option<DnsSettings>>): map<Path, DnsSettings> {
    map p | p in store.Keys + backup.Keys && (p in backup ==> backup[p].Some?) ::
      if p in backup then backup[p].value else store[p]
  }

  function ResetDns(w: World): World {
    match w.state
    case None => w
    case Some(state) => World(Restore(w.store, state.backup), w.pending + Watched(state.backup.Keys), None)
  }

  /** The reaction to one changed key while the monitor is injecting. */
  function HandleKey(w: World, p: Path): (r: World)
    requires w.state.Some?
    ensures r.state.Some? && r.state.value.dns == w.state.value.dns
  {
    var State(dns, backup) := w.state.value;
    if Load(w.store, p) == Some(dns) then w
    else
      var backup1 := backup[p := Load(w.store, p)];
      var store1 := w.store[p := dns];
      match StateToSetupPath(p)
      case None => World(store1, w.pending + Watched({p}), Some(State(dns, backup1)))
      case Some(setup) =>
        var backup2 := if setup in backup1 then backup1 else backup1[setup := Load(store1, setup)];
        World(store1[setup := dns], w.pending + Watched({p, setup}), Some(State(dns, backup2)))
  }

  function HandleKeys(w: World, keys: seq<Path>): (r: World)
    requires w.state.Some?
    ensures r.state.Some? && r.state.value.dns == w.state.value.dns
  {
    if keys == [] then w else HandleKey(HandleKeys(w, keys[..|keys| - 1]), keys[|keys| - 1])
  }

  function ToSet(keys: seq<Path>): set<Path> {
    set p | p in keys
  }

  /** The system delivers a notification of some pending keys; writes made in response become pending. */
  function Notify(w: World, keys: seq<Path>): World {
    var delivered := w.(pending := w.pending - ToSet(keys));
    if w.state.None? then delivered else HandleKeys(delivered, keys)
  }

  lemma LoadStep(store: map<Path, DnsSettings>, done: set<Path>, p: Path)
    requires IsStatePath(p)
    ensures var setup := SETUP_PREFIX + p[7..];
            LoadAll(store, done + SetupsOf(done))[p := Load(store, p)][setup := Load(store, setup)]
            == LoadAll(store, done + {p} + SetupsOf(done + {p}))
  {
    assert SetupsOf(done + {p}) == SetupsOf(done) + {SETUP_PREFIX + p[7..]};
  }

  lemma RestoreStep(store: map<Path, DnsSettings>, backup: map<Path, Option<DnsSettings>>, left: set<Path>, p: Path)
    requires p in left && left <= backup.Keys
    ensures var before, after := Restore(store, backup - left), Restore(store, backup - (left - {p}));
            after == if backup[p].Some? then before[p := backup[p].value] else before - {p}
    ensures Watched(backup.Keys - (left - {p})) == Watched(backup.Keys - left) + Watched({p})
  {}

  // ----- The same, in place -----

  /** The system's dynamic store, with the watched keys whose change has not been delivered yet. */
  class DynamicStore {
    var entries: map<Path, DnsSettings>
    var pending: set<Path>

    constructor (entries: map<Path, DnsSettings>)
      ensures this.entries == entries && pending == {}
    {
      this.entries := entries;
      pending := {};
    }

    method Save(p: Path, settings: DnsSettings)
      modifies this
      ensures entries == old(entries)[p := settings] && pending == old(pending) + Watched({p})
    {
      entries := entries[p := settings];
      pending := pending + (if IsWatched(p) then {p} else {});
    }

    method Remove(p: Path)
      modifies this
      ensures entries == old(entries) - {p} && pending == old(pending) + Watched({p})
    {
      entries := entries - {p};
      pending := pending + (if IsWatched(p) then {p} else {});
    }
  }

  class DnsMonitor {
    const store: DynamicStore
    var state: Option<State>

    ghost function View(): World
      reads this, store
    {
      World(store.entries, store.pending, state)
    }

    constructor (store: DynamicStore)
      ensures this.store == store && state == None
    {
      this.store := store;
      state := None;
    }

    method ReadAll() returns (backup: map<Path, Option<DnsSettings>>)
      ensures backup == ReadAllDns(store.entries)
    {
      backup := map[];
      var left := StatePaths(store.entries);
      ghost var done: set<Path> := {};
      while left != {}
        invariant done + left == StatePaths(store.entries)
        invariant backup == LoadAll(store.entries, done + SetupsOf(done))
        decreases left
      {
        var statePath :| statePath in left;
        var setupPath := StateToSetupPath(statePath).value;
        backup := backup[statePath := Load(store.entries, statePath)];
        backup := backup[setupPath := Load(store.entries, setupPath)];
        LoadStep(store.entries, done, statePath);
        left := left - {statePath};
        done := done + {statePath};
      }
      backup := ReadRemainingSetups(backup);
    }

    /** Adds the setup paths that are not covered yet. */
    method ReadRemainingSetups(covered: map<Path, Option<DnsSettings>>) returns (backup: map<Path, Option<DnsSettings>>)
      requires covered == LoadAll(store.entries, covered.Keys)
      ensures backup == LoadAll(store.entries, covered.Keys + SetupPaths(store.entries))
    {
      backup := covered;
      var left := SetupPaths(store.entries);
      while left != {}
        invariant left <= SetupPaths(store.entries)
        invariant backup == LoadAll(store.entries, covered.Keys + (SetupPaths(store.entries) - left))
        decreases left
      {
        var setupPath :| setupPath in left;
        if setupPath !in backup {
          backup := backup[setupPath := Load(store.entries, setupPath)];
        }
        left := left - {setupPath};
      }
    }

    /** Writes the same settings to each of the paths. */
    method SaveEach(paths: set<Path>, settings: DnsSettings)
      modifies store
      ensures store.entries == SaveAll(old(store.entries), paths, settings)
      ensures store.pending == old(store.pending) + Watched(paths)
    {
      var left := paths;
      while left != {}
        invariant left <= paths
        invariant store.entries == SaveAll(old(store.entries), paths - left, settings)
        invariant store.pending == old(store.pending) + Watched(paths - left)
        decreases left
      {
        var p :| p in left;
        store.Save(p, settings);
        left := left - {p};
      }
      assert paths - left == paths;
    }

    method Set(servers: seq<string>)
      modifies this, store
      ensures View() == SetDns(old(View()), servers)
    {
      var settings := FromServerAddresses(servers);
      match state
      case None =>
        var backup := ReadAll();
        SaveEach(backup.Keys, settings);
        state := Some(State(settings, backup));
      case Some(current) =>
        if servers != ServerAddresses(current.dns) {
          SaveEach(current.backup.Keys, settings);
          state := Some(State(settings, current.backup));
        }
    }

    method Reset()
      modifies this, store
      ensures View() == ResetDns(old(View()))
    {
      if state.Some? {
        var backup := state.value.backup;
        state := None;
        RestoreEach(backup);
      }
    }

    /** Puts every path back to its backup, or removes it if it did not exist. */
    method RestoreEach(backup: map<Path, Option<DnsSettings>>)
      modifies store
      ensures store.entries == Restore(old(store.entries), backup)
      ensures store.pending == old(store.pending) + Watched(backup.Keys)
    {
      var left := backup.Keys;
      while left != {}
        invariant left <= backup.Keys
        invariant store.entries == Restore(old(store.entries), backup - left)
        invariant store.pending == old(store.pending) + Watched(backup.Keys - left)
        decreases left
      {
        var p :| p in left;
        RestoreStep(old(store.entries), backup, left, p);
        if backup[p].Some? {
          store.Save(p, backup[p].value);
        } else {
          store.Remove(p);
        }
        left := left - {p};
      }
      assert backup - left == backup && backup.Keys - left == backup.Keys;
    }

    /** The body of the loop over the changed keys. */
    method HandleChangedKey(p: Path)
      requires state.Some?
      modifies this, store
      ensures View() == HandleKey(old(View()), p)
    {
      var dns := state.value.dns;
      var shouldSetDns := false;
      match Load(store.entries, p) {
        case None =>
          state := Some(state.value.(backup := state.value.backup[p := None]));
          shouldSetDns := true;
        case Some(settings) =>
          if settings != dns {
            state := Some(state.value.(backup := state.value.backup[p := Some(settings)]));
            shouldSetDns := true;
          }
      }
      if shouldSetDns {
        store.Save(p, dns);
        var setup := StateToSetupPath(p);
        if setup.Some? {
          if setup.value !in state.value.backup {
            state := Some(state.value.(backup := state.value.backup[setup.value := Load(store.entries, setup.value)]));
          }
          store.Save(setup.value, dns);
          assert Watched({p}) + Watched({setup.value}) == Watched({p, setup.value});
        }
      }
    }

    /** The loop over the changed keys of one notification. */
    method DnsChangeCallbackInternal(keys: seq<Path>)
      requires state.Some?
      modifies this, store
      ensures View() == HandleKeys(old(View()), keys)
    {
      for i := 0 to |keys|
        invariant state.Some? && View() == HandleKeys(old(View()), keys[..i])
      {
        HandleChangedKey(keys[i]);
        assert keys[..i + 1][..i] == keys[..i];
      }
      assert keys[..|keys|] == keys;
    }

    method OnNotification(keys: seq<Path>)
      modifies this, store
      ensures View() == Notify(old(View()), keys)
    {
      store.pending := store.pending - ToSet(keys);
      if state.Some? {
        DnsChangeCallbackInternal(keys);
      }
    }
  }
}
