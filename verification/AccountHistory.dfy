/** The list of the most recently used accounts. Storing it on disk is left out. */
module AccountHistory {
  import opened Wrappers

  const LIMIT := 3

  datatype WireguardData = WireguardData(privateKey: int, addresses: int)

  datatype AccountEntry = AccountEntry(account: string, wireguard: Option<WireguardData>)

  // ----- What the operations make of the list -----

  function Retain(accounts: seq<AccountEntry>, account: string): seq<AccountEntry> {
    if accounts == [] then []
    else (if accounts[0].account != account then [accounts[0]] else []) + Retain(accounts[1..], account)
  }

  function IndexOf(accounts: seq<AccountEntry>, account: string): (r: Option<nat>)
    ensures r.Some? ==> r.value < |accounts| && accounts[r.value].account == account
    ensures r.Some? ==> forall i | 0 <= i < r.value :: accounts[i].account != account
    ensures r.None? ==> forall entry <- accounts :: entry.account != account
  {
    if accounts == [] then None
    else if accounts[0].account == account then Some(0)
    else
      assert accounts == [accounts[0]] + accounts[1..];
      match IndexOf(accounts[1..], account) case Some(i) => Some(i + 1) case None => None
  }

  function Inserted(accounts: seq<AccountEntry>, entry: AccountEntry): seq<AccountEntry> {
    var longer := [entry] + Retain(accounts, entry.account);
    if |longer| > LIMIT then longer[..|longer| - 1] else longer
  }

  function Entry(accounts: seq<AccountEntry>, account: string): Option<AccountEntry> {
    match IndexOf(accounts, account) case Some(i) => Some(accounts[i]) case None => None
  }

  function Got(accounts: seq<AccountEntry>, account: string): seq<AccountEntry> {
    match IndexOf(accounts, account)
    case None => accounts
    case Some(i) => if i == 0 then accounts else Inserted(accounts, accounts[i])
  }

  function Bumped(accounts: seq<AccountEntry>, account: string): seq<AccountEntry> {
    if IndexOf(accounts, account).Some? then Got(accounts, account) else Inserted(accounts, AccountEntry(account, None))
  }

  // ----- The list in memory -----

  class AccountHistory {
    var accounts: seq<AccountEntry>

    constructor (loaded: seq<AccountEntry>)
      ensures accounts == loaded
    {
      accounts := loaded;
    }

    /** A hit moves the entry to the top. */
    method Get(account: string) returns (r: Option<AccountEntry>)
      modifies this
      ensures r == Entry(old(accounts), account) && accounts == Got(old(accounts), account)
    {
      var i := IndexOf(accounts, account);
      if i.None? {
        return None;
      }
      var entry := accounts[i.value];
      if i.value != 0 {
        Insert(entry);
      }
      r := Some(entry);
    }

    method BumpHistory(account: string)
      modifies this
      ensures accounts == Bumped(old(accounts), account)
    {
      var r := Get(account);
      if r.None? {
        Insert(AccountEntry(account, None));
      }
    }

    method Insert(entry: AccountEntry)
      modifies this
      ensures accounts == Inserted(old(accounts), entry)
    {
      accounts := Retain(accounts, entry.account);
      accounts := [entry] + accounts;
      if |accounts| > LIMIT {
        accounts := accounts[..|accounts| - 1];
      }
    }

    method RemoveAccount(account: string)
      modifies this
      ensures accounts == Retain(old(accounts), account)
    {
      accounts := Retain(accounts, account);
    }

    method Clear()
      modifies this
      ensures accounts == []
    {
      accounts := [];
    }
  }

  // ----- Names -----

  function Names(accounts: seq<AccountEntry>): (r: seq<string>)
    ensures |r| == |accounts| && forall i | 0 <= i < |r| :: r[i] == accounts[i].account
  {
    seq(|accounts|, i requires 0 <= i < |accounts| => accounts[i].account)
  }

  function Without(names: seq<string>, name: string): (r: seq<string>)
    ensures |r| <= |names|
  {
    if names == [] then []
    else
      var others, last := Without(names[..|names| - 1], name), names[|names| - 1];
      if last == name then others else others + [last]
  }

  lemma {:induction false} WithoutMembers(names: seq<string>, name: string)
    ensures forall n :: n in Without(names, name) <==> n in names && n != name
  {
    if names != [] {
      WithoutMembers(names[..|names| - 1], name);
      assert names == names[..|names| - 1] + [names[|names| - 1]];
    }
  }

  lemma {:induction false} WithoutAbsent(names: seq<string>, name: string)
    requires name !in names
    ensures Without(names, name) == names
  {
    if names != [] {
      WithoutAbsent(names[..|names| - 1], name);
      assert names == names[..|names| - 1] + [names[|names| - 1]];
    }
  }

  lemma WithoutSnoc(names: seq<string>, last: string, name: string)
    ensures Without(names + [last], name) ==
            if last == name then Without(names, name) else Without(names, name) + [last]
  {
    assert (names + [last])[..|names|] == names;
  }

  lemma {:induction false} WithoutConcat(a: seq<string>, b: seq<string>, name: string)
    ensures Without(a + b, name) == Without(a, name) + Without(b, name)
  {
    if b == [] {
      assert a + b == a;
    } else {
      var init := b[..|b| - 1];
      assert (a + b)[..|a + b| - 1] == a + init;
      WithoutConcat(a, init, name);
    }
  }

  lemma WithoutCons(first: string, names: seq<string>, name: string)
    ensures Without([first] + names, name) ==
            if first == name then Without(names, name) else [first] + Without(names, name)
  {
    WithoutConcat([first], names, name);
    assert [first] == [] + [first];
    WithoutSnoc([], first, name);
    assert [] + Without(names, name) == Without(names, name);
  }

  lemma {:induction false} WithoutCommutes(names: seq<string>, x: string, y: string)
    ensures Without(Without(names, x), y) == Without(Without(names, y), x)
  {
    if names != [] {
      var init, last := names[..|names| - 1], names[|names| - 1];
      WithoutCommutes(init, x, y);
      WithoutSnoc(Without(init, x), last, y);
      WithoutSnoc(Without(init, y), last, x);
    }
  }

  lemma {:induction false} RetainedNames(accounts: seq<AccountEntry>, account: string)
    ensures Names(Retain(accounts, account)) == Without(Names(accounts), account)
  {
    if accounts != [] {
      var head, tail := accounts[0], accounts[1..];
      RetainedNames(tail, account);
      assert Names(accounts) == [head.account] + Names(tail);
      WithoutCons(head.account, Names(tail), account);
      NamesOfCons(head, Retain(tail, account));
    }
  }

  lemma NamesOfCons(head: AccountEntry, tail: seq<AccountEntry>)
    ensures Names([head] + tail) == [head.account] + Names(tail)
    ensures [] + tail == tail
  {
    forall i | 0 <= i < 1 + |tail| ensures Names([head] + tail)[i] == ([head.account] + Names(tail))[i] {
      assert ([head] + tail)[i] == if i == 0 then head else tail[i - 1];
    }
  }

  // ----- The most recent accounts -----

  /** The first `n` distinct names of a sequence, counted from its end. */
  function Recent(touches: seq<string>, n: nat): (r: seq<string>)
    ensures |r| <= n
    decreases |touches|
  {
    if n == 0 || touches == [] then []
    else
      var last := touches[|touches| - 1];
      [last] + Recent(Without(touches[..|touches| - 1], last), n - 1)
  }

  ghost predicate AllDifferent(names: seq<string>) {
    forall i, j | 0 <= i < j < |names| :: names[i] != names[j]
  }

  /** They are distinct, and as many as there are, up to `n`. */
  lemma {:induction false} RecentIsDistinct(touches: seq<string>, n: nat)
    ensures AllDifferent(Recent(touches, n))
    ensures forall name <- Recent(touches, n) :: name in touches
    ensures |Recent(touches, n)| < n ==> forall name <- touches :: name in Recent(touches, n)
    decreases |touches|
  {
    if n > 0 && touches != [] {
      var init, last := touches[..|touches| - 1], touches[|touches| - 1];
      var rest := Recent(Without(init, last), n - 1);
      RecentIsDistinct(Without(init, last), n - 1);
      WithoutMembers(init, last);
      assert touches == init + [last];
      assert last !in rest && forall i | 0 <= i < |rest| :: rest[i] in rest;
    }
  }

  function Take(names: seq<string>, n: nat): seq<string> {
    if |names| <= n then names else names[..n]
  }

  /** Leaving a name out of the touches leaves it out of the most recent ones and lets one more in. */
  ghost predicate LetsOneMoreIn(touches: seq<string>, x: string, n: nat) {
    Recent(Without(touches, x), n) == Take(Without(Recent(touches, n + 1), x), n)
  }

  lemma {:induction false} RecentWithout(touches: seq<string>, x: string, n: nat)
    ensures LetsOneMoreIn(touches, x, n)
    decreases |touches|, 1
  {
    if n == 0 || touches == [] {
      NothingRecent(touches, x, n);
    } else {
      var init, last := touches[..|touches| - 1], touches[|touches| - 1];
      assert touches == init + [last];
      RecentWithoutSnoc(init, last, x, n);
    }
  }

  lemma {:induction false} RecentWithoutSnoc(init: seq<string>, last: string, x: string, n: nat)
    requires n > 0
    ensures LetsOneMoreIn(init + [last], x, n)
    decreases |init| + 1, 0
  {
    if last == x {
      RecentWithoutLast(init, x, n);
    } else {
      RecentWithout(Without(init, last), x, n - 1);
      RecentWithoutOther(init, last, x, n);
    }
  }

  lemma NothingRecent(touches: seq<string>, x: string, n: nat)
    requires n == 0 || touches == []
    ensures LetsOneMoreIn(touches, x, n)
  {}

  lemma RecentWithoutLast(init: seq<string>, x: string, n: nat)
    ensures LetsOneMoreIn(init + [x], x, n)
  {
    var rest := Recent(Without(init, x), n);
    WithoutSnoc(init, x, x);
    RecentOfSnoc(init, x, n + 1);
    RecentIsDistinct(Without(init, x), n);
    WithoutMembers(init, x);
    WithoutCons(x, rest, x);
    WithoutAbsent(rest, x);
  }

  lemma RecentWithoutOther(init: seq<string>, last: string, x: string, n: nat)
    requires last != x && n > 0 && LetsOneMoreIn(Without(init, last), x, n - 1)
    ensures LetsOneMoreIn(init + [last], x, n)
  {
    var rest := Recent(Without(init, last), n);
    WithoutSnoc(init, last, x);
    RecentOfSnoc(Without(init, x), last, n);
    WithoutCommutes(init, last, x);
    RecentOfSnoc(init, last, n + 1);
    WithoutCons(last, rest, x);
    TakeCons(last, Without(rest, x), n);
  }

  lemma RecentOfSnoc(touches: seq<string>, last: string, n: nat)
    requires n > 0
    ensures Recent(touches + [last], n) == [last] + Recent(Without(touches, last), n - 1)
  {
    assert (touches + [last])[..|touches|] == touches;
  }

  lemma TakeCons(first: string, names: seq<string>, n: nat)
    requires n > 0
    ensures Take([first] + names, n) == [first] + Take(names, n - 1)
  {}

  /** One more touch puts the name first. */
  lemma RecentSnoc(touches: seq<string>, x: string)
    ensures Recent(touches + [x], LIMIT) == Take([x] + Without(Recent(touches, LIMIT), x), LIMIT)
  {
    RecentOfSnoc(touches, x, LIMIT);
    RecentWithout(touches, x, LIMIT - 1);
    TakeCons(x, Without(Recent(touches, LIMIT), x), LIMIT);
  }

  lemma InsertedNames(accounts: seq<AccountEntry>, entry: AccountEntry)
    requires |accounts| <= LIMIT
    ensures Names(Inserted(accounts, entry)) == Take([entry.account] + Without(Names(accounts), entry.account), LIMIT)
  {
    RetainedNames(accounts, entry.account);
    var longer := [entry] + Retain(accounts, entry.account);
    assert Names(longer) == [entry.account] + Names(Retain(accounts, entry.account));
  }

  // ----- Runs without removal -----

  datatype Operation = Insert(entry: AccountEntry) | Bump(account: string) | Get(account: string)

  function Applied(accounts: seq<AccountEntry>, op: Operation): seq<AccountEntry> {
    match op
    case Insert(entry) => Inserted(accounts, entry)
    case Bump(account) => Bumped(accounts, account)
    case Get(account) => Got(accounts, account)
  }

  function AfterAll(ops: seq<Operation>): seq<AccountEntry> {
    if ops == [] then [] else Applied(AfterAll(ops[..|ops| - 1]), ops[|ops| - 1])
  }

  function AccountOf(op: Operation): string {
    match op case Insert(entry) => entry.account case Bump(account) => account case Get(account) => account
  }

  /** The accounts that were inserted, bumped, or got while they were among the most recent ones. */
  function Touches(ops: seq<Operation>): seq<string> {
    if ops == [] then []
    else
      var before, op := Touches(ops[..|ops| - 1]), ops[|ops| - 1];
      if op.Get? && op.account !in Recent(before, LIMIT) then before else before + [AccountOf(op)]
  }

  /** The data an account was last inserted with since it was last absent; none if it came by a bump. */
  function LastData(ops: seq<Operation>, account: string): Option<WireguardData> {
    if ops == [] then None
    else
      var before, op := ops[..|ops| - 1], ops[|ops| - 1];
      if op.Insert? && op.entry.account == account then op.entry.wireguard
      else if account !in Recent(Touches(before), LIMIT) then None
      else LastData(before, account)
  }

  /** What the list holds: at most one entry an account. */
  ghost predicate AreDistinct(accounts: seq<AccountEntry>) {
    forall i, j | 0 <= i < j < |accounts| :: accounts[i].account != accounts[j].account
  }

  lemma {:induction false} RetainedEntries(accounts: seq<AccountEntry>, account: string)
    ensures forall entry :: entry in Retain(accounts, account) <==> entry in accounts && entry.account != account
  {
    if accounts != [] {
      RetainedEntries(accounts[1..], account);
      assert accounts == [accounts[0]] + accounts[1..];
    }
  }

  lemma {:induction false} RetainedIsDistinct(accounts: seq<AccountEntry>, account: string)
    requires AreDistinct(accounts)
    ensures AreDistinct(Retain(accounts, account)) && |Retain(accounts, account)| <= |accounts|
  {
    if accounts != [] {
      var head, tail := accounts[0], accounts[1..];
      assert forall i, j | 0 <= i < j < |tail| :: tail[i] == accounts[i + 1] && tail[j] == accounts[j + 1];
      RetainedIsDistinct(tail, account);
      RetainedEntries(tail, account);
      assert forall entry <- tail :: entry.account != head.account;
    }
  }

  lemma InsertedKeepsShape(accounts: seq<AccountEntry>, entry: AccountEntry)
    requires AreDistinct(accounts) && |accounts| <= LIMIT
    ensures AreDistinct(Inserted(accounts, entry)) && |Inserted(accounts, entry)| <= LIMIT
  {
    var others := Retain(accounts, entry.account);
    RetainedIsDistinct(accounts, entry.account);
    RetainedEntries(accounts, entry.account);
    assert forall e <- others :: e.account != entry.account;
    assert AreDistinct([entry] + others);
  }

  /** An entry is found by its account. */
  lemma FoundByName(accounts: seq<AccountEntry>, account: string)
    ensures IndexOf(accounts, account).Some? <==> account in Names(accounts)
  {
    var names := Names(accounts);
    if account in names {
      var i :| 0 <= i < |names| && names[i] == account;
      assert accounts[i] in accounts;
    }
    if IndexOf(accounts, account).Some? {
      assert names[IndexOf(accounts, account).value] == account;
    }
  }

  /** Getting the entry on top is like inserting it again. */
  lemma TopIsLikeInserted(accounts: seq<AccountEntry>)
    requires accounts != [] && AreDistinct(accounts) && |accounts| <= LIMIT
    ensures Inserted(accounts, accounts[0]) == accounts
  {
    var top, rest := accounts[0], accounts[1..];
    assert forall entry <- rest :: entry.account != top.account;
    RetainAbsent(rest, top.account);
    assert accounts == [top] + rest;
  }

  lemma {:induction false} RetainAbsent(accounts: seq<AccountEntry>, account: string)
    requires forall entry <- accounts :: entry.account != account
    ensures Retain(accounts, account) == accounts
  {
    if accounts != [] {
      RetainAbsent(accounts[1..], account);
      assert accounts == [accounts[0]] + accounts[1..];
    }
  }

  /** Every operation is an insertion at the top, of the entry there was if there is no newer one, or nothing. */
  function TopEntry(accounts: seq<AccountEntry>, op: Operation): AccountEntry {
    match op
    case Insert(entry) => entry
    case _ =>
      match Entry(accounts, AccountOf(op))
      case Some(entry) => entry
      case None => AccountEntry(AccountOf(op), None)
  }

  lemma AppliedIsInserted(accounts: seq<AccountEntry>, op: Operation)
    requires AreDistinct(accounts) && |accounts| <= LIMIT
    ensures Applied(accounts, op) ==
            if op.Get? && op.account !in Names(accounts) then accounts else Inserted(accounts, TopEntry(accounts, op))
    ensures TopEntry(accounts, op).account == AccountOf(op)
  {
    FoundByName(accounts, AccountOf(op));
    if !op.Insert? && IndexOf(accounts, AccountOf(op)) == Some(0) {
      TopIsLikeInserted(accounts);
    }
  }

  /** Every operation, removals included, keeps the list short and its accounts apart. */
  lemma OperationsKeepShape(accounts: seq<AccountEntry>, op: Operation, removed: string)
    requires AreDistinct(accounts) && |accounts| <= LIMIT
    ensures AreDistinct(Applied(accounts, op)) && |Applied(accounts, op)| <= 3
    ensures AreDistinct(Retain(accounts, removed)) && |Retain(accounts, removed)| <= 3
  {
    AppliedIsInserted(accounts, op);
    InsertedKeepsShape(accounts, TopEntry(accounts, op));
    RetainedIsDistinct(accounts, removed);
  }

  /**
   After any sequence of insertions, bumps and gets, the list is made of the three distinct accounts
   most recently touched, the latest first, each with the data it was last inserted with since it was
   last absent.
   */
  lemma {:induction false} MostRecentlyTouched(ops: seq<Operation>)
    ensures Names(AfterAll(ops)) == Recent(Touches(ops), 3)
    ensures forall entry <- AfterAll(ops) :: entry.wireguard == LastData(ops, entry.account)
    ensures AreDistinct(AfterAll(ops)) && |AfterAll(ops)| <= 3
  {
    if ops != [] {
      var init, op := ops[..|ops| - 1], ops[|ops| - 1];
      var before := AfterAll(init);
      MostRecentlyTouched(init);
      AppliedIsInserted(before, op);
      InsertedKeepsShape(before, TopEntry(before, op));
      if !(op.Get? && op.account !in Names(before)) {
        InsertedNames(before, TopEntry(before, op));
        RecentSnoc(Touches(init), AccountOf(op));
      }
      EntriesHaveLastData(ops);
    }
  }

  lemma EntriesHaveLastData(ops: seq<Operation>)
    requires ops != []
    requires var init := ops[..|ops| - 1];
             && Names(AfterAll(init)) == Recent(Touches(init), LIMIT)
             && AreDistinct(AfterAll(init)) && |AfterAll(init)| <= LIMIT
             && forall entry <- AfterAll(init) :: entry.wireguard == LastData(init, entry.account)
    ensures forall entry <- AfterAll(ops) :: entry.wireguard == LastData(ops, entry.account)
  {
    var init, op := ops[..|ops| - 1], ops[|ops| - 1];
    var before := AfterAll(init);
    AppliedIsInserted(before, op);
    RetainedEntries(before, AccountOf(op));
    forall entry | entry in AfterAll(ops) ensures entry.wireguard == LastData(ops, entry.account) {
      if entry in before {
        var i :| 0 <= i < |before| && before[i] == entry;
        assert Names(before)[i] == entry.account;
      } else {
        assert entry == TopEntry(before, op);
        FoundByName(before, AccountOf(op));
      }
    }
  }
}
