/** Applying and resetting policies: what any history of operations leaves in the kernel. */
module FirewallKernel {
  import opened Network
  import opened Wrappers
  import opened Nftables
  import opened FirewallPolicy
  import opened FirewallCompiler
  import opened FirewallBatch
  import opened FirewallCorrectness

  lemma DeliverSnoc(ms: seq<Message>, m: Message, table: Option<Table>)
    ensures DeliverAll(ms + [m], table) == (match DeliverAll(ms, table)
                                            case Ok(before) => Deliver(m, before)
                                            case Err(e) => Err(e))
  {
    assert (ms + [m])[..|ms|] == ms;
  }

  function TableOf(outRules: seq<seq<Expr>>, inRules: seq<seq<Expr>>): Table {
    map[Out := Chain(Drop, outRules), In := Chain(Drop, inRules)]
  }

  /** The "little dance": whatever table there was, afterwards it exists and is empty. */
  lemma DanceClears(table: Option<Table>)
    ensures DeliverAll([AddTable], table).Ok? && DeliverAll([AddTable], table).value.Some?
    ensures DeliverAll([AddTable, DelTable], table) == Ok(None)
    ensures DeliverAll([AddTable, DelTable, AddTable], table) == Ok(Some(map[]))
  {
    DeliverSnoc([], AddTable, table);
    assert [AddTable] == [] + [AddTable];
    DeliverSnoc([AddTable], DelTable, table);
    assert [AddTable] + [DelTable] == [AddTable, DelTable];
    DeliverSnoc([AddTable, DelTable], AddTable, table);
    assert [AddTable, DelTable] + [AddTable] == [AddTable, DelTable, AddTable];
  }

  lemma PreambleInstalls(table: Option<Table>)
    ensures DeliverAll(PREAMBLE, table) == Ok(Some(TableOf([], [])))
  {
    DanceClears(table);
    var dance: seq<Message> := [AddTable, DelTable, AddTable];
    DeliverSnoc(dance, AddChain(Out, Drop), table);
    DeliverSnoc(dance + [AddChain(Out, Drop)], AddChain(In, Drop), table);
    assert PREAMBLE == dance + [AddChain(Out, Drop)] + [AddChain(In, Drop)];
  }

  lemma RuleIsAppended(outRules: seq<seq<Expr>>, inRules: seq<seq<Expr>>, m: Message)
    requires m.AddRule?
    ensures Deliver(m, Some(TableOf(outRules, inRules))) ==
            Ok(Some(TableOf(outRules + (if m.chain == Out then [m.exprs] else []),
                            inRules + (if m.chain == In then [m.exprs] else []))))
  {
    assert outRules + [] == outRules && inRules + [] == inRules;
    var table := TableOf(outRules, inRules);
    if m.chain == Out {
      assert table[Out := Chain(Drop, outRules + [m.exprs])] == TableOf(outRules + [m.exprs], inRules);
    } else {
      assert table[In := Chain(Drop, inRules + [m.exprs])] == TableOf(outRules, inRules + [m.exprs]);
    }
  }

  /**
   Why a table is added before it is deleted, and added again: deleting fails exactly if there is none, and
   adding what is there already, a table or a chain, leaves it as it is, with its rules.
   */
  lemma OnlyDeletingClears(table: Option<Table>, chain: Direction, policy: Verdict)
    ensures Deliver(DelTable, table).Ok? <==> table.Some?
    ensures table.Some? ==> Deliver(AddTable, table) == Ok(table) && Deliver(DelTable, table) == Ok(None)
    ensures table.Some? && chain in table.value ==> Deliver(AddChain(chain, policy), table) == Ok(table)
    ensures Transaction([DelTable], table) == None
  {
    DeliverSnoc([], DelTable, table);
    assert [DelTable] == [] + [DelTable];
  }

  /** Delivering a policy's batch succeeds and leaves exactly its rules, whatever was there before. */
  lemma {:induction false} BatchInstalls(ms: seq<Message>, table: Option<Table>)
    requires IsPolicyBatch(ms)
    ensures DeliverAll(ms, table) == Ok(Some(TableOf(RulesOf(ms, Out), RulesOf(ms, In))))
    ensures Transaction(ms, table) == Some(TableOf(RulesOf(ms, Out), RulesOf(ms, In)))
  {
    if ms == PREAMBLE {
      PreambleInstalls(table);
      RulesOfPreamble(Out);
      RulesOfPreamble(In);
    } else {
      var init, last := ms[..|ms| - 1], ms[|ms| - 1];
      BatchInstalls(init, table);
      RuleIsAppended(RulesOf(init, Out), RulesOf(init, In), last);
    }
  }

  datatype Operation = Apply(policy: Policy, lookup: InterfaceLookup, counters: bool) | Reset

  predicate Succeeds(op: Operation) {
    op.Apply? ==> LookupInterfaces(op.policy, op.lookup).Ok?
  }

  /** What a successful operation leaves in the kernel. */
  function Installed(op: Operation): Option<Table>
    requires Succeeds(op)
  {
    match op
    case Apply(policy, lookup, counters) =>
      var ifaces := LookupInterfaces(policy, lookup).value;
      Some(TableOf(CompiledChain(counters, policy, ifaces, Out).rules,
                   CompiledChain(counters, policy, ifaces, In).rules))
    case Reset => None
  }

  /** What a history of operations leaves, starting from `initial`. */
  function AfterAll(ops: seq<Operation>, initial: Option<Table>): Option<Table> {
    if ops == [] then initial
    else if Succeeds(ops[|ops| - 1]) then Installed(ops[|ops| - 1])
    else AfterAll(ops[..|ops| - 1], initial)
  }

  /** The kernel as the firewall sees it: the one table the firewall owns. */
  class Kernel {
    var table: Option<Table>

    constructor (table: Option<Table>)
      ensures this.table == table
    {
      this.table := table;
    }

    method SendAndProcess(batch: seq<Message>)
      modifies this
      ensures table == Transaction(batch, old(table))
    {
      table := Transaction(batch, table);
    }
  }

  class Firewall {
    const kernel: Kernel

    constructor (kernel: Kernel)
      ensures this.kernel == kernel
    {
      this.kernel := kernel;
    }

    method ApplyPolicy(policy: Policy, lookup: InterfaceLookup, counters: bool) returns (r: Result<(), Error>)
      modifies kernel
      ensures r.Ok? <==> LookupInterfaces(policy, lookup).Ok?
      ensures r.Ok? ==> kernel.table == Installed(Apply(policy, lookup, counters))
      ensures r.Err? ==> r.error == LookupInterfaces(policy, lookup).error && kernel.table == old(kernel.table)
    {
      var builder := new PolicyBatch(lookup, counters);
      var batch := builder.Finalize(policy);
      if batch.Err? {
        return Err(batch.error);
      }
      BatchInstalls(batch.value, kernel.table);
      kernel.SendAndProcess(batch.value);
      r := Ok(());
    }

    method ResetPolicy()
      modifies kernel
      ensures kernel.table == None
    {
      DanceClears(kernel.table);
      kernel.SendAndProcess([AddTable, DelTable]);
    }

    /** Any number of operations: the table is the one the last successful operation installed. */
    method PerformAll(ops: seq<Operation>)
      modifies kernel
      ensures kernel.table == AfterAll(ops, old(kernel.table))
    {
      for i := 0 to |ops|
        invariant kernel.table == AfterAll(ops[..i], old(kernel.table))
      {
        match ops[i] {
          case Apply(policy, lookup, counters) =>
            var _ := ApplyPolicy(policy, lookup, counters);
          case Reset =>
            ResetPolicy();
        }
        assert ops[..i + 1][..i] == ops[..i];
      }
      assert ops[..|ops|] == ops;
    }
  }

  /** The index of the last successful operation, if there is one. */
  function LastSuccess(ops: seq<Operation>): Option<nat> {
    if ops == [] then None
    else if Succeeds(ops[|ops| - 1]) then Some(|ops| - 1)
    else LastSuccess(ops[..|ops| - 1])
  }

  lemma {:induction false} LastSuccessIsLast(ops: seq<Operation>)
    ensures LastSuccess(ops).None? ==> forall op <- ops :: !Succeeds(op)
    ensures LastSuccess(ops).Some? ==>
      var i := LastSuccess(ops).value;
      i < |ops| && Succeeds(ops[i]) && forall j | i < j < |ops| :: !Succeeds(ops[j])
  {
    if ops != [] && !Succeeds(ops[|ops| - 1]) {
      LastSuccessIsLast(ops[..|ops| - 1]);
    }
  }

  lemma {:induction false} AfterAllIsLastInstalled(ops: seq<Operation>, initial: Option<Table>)
    ensures LastSuccess(ops).Some? ==>
      LastSuccess(ops).value < |ops| && Succeeds(ops[LastSuccess(ops).value])
      && AfterAll(ops, initial) == Installed(ops[LastSuccess(ops).value])
    ensures LastSuccess(ops).None? ==> AfterAll(ops, initial) == initial
  {
    if ops != [] && !Succeeds(ops[|ops| - 1]) {
      AfterAllIsLastInstalled(ops[..|ops| - 1], initial);
    }
  }

  /**
   After any history of operations, from any earlier contents of the table, a packet passes exactly
   when the last successful operation says so: by its policy's specification, or always after a reset.
   */
  lemma HistoryDecidesPackets(ops: seq<Operation>, initial: Option<Table>, d: Direction, p: Packet)
    requires exists op <- ops :: Succeeds(op)
    ensures LastSuccess(ops).Some? && LastSuccess(ops).value < |ops| && Succeeds(ops[LastSuccess(ops).value])
    ensures forall j | LastSuccess(ops).value < j < |ops| :: !Succeeds(ops[j])
    ensures Passes(AfterAll(ops, initial), d, p) <==>
      match ops[LastSuccess(ops).value]
      case Apply(policy, lookup, _) => Allowed(policy, LookupInterfaces(policy, lookup).value, d, p)
      case Reset => true
  {
    LastSuccessIsLast(ops);
    AfterAllIsLastInstalled(ops, initial);
    InstalledDecides(ops[LastSuccess(ops).value], d, p);
  }

  lemma InstalledDecides(op: Operation, d: Direction, p: Packet)
    requires Succeeds(op)
    ensures Passes(Installed(op), d, p) <==>
      match op
      case Apply(policy, lookup, _) => Allowed(policy, LookupInterfaces(policy, lookup).value, d, p)
      case Reset => true
  {
    match op {
      case Apply(policy, lookup, counters) =>
        CompilationIsCorrect(counters, policy, LookupInterfaces(policy, lookup).value, d, p);
      case Reset =>
    }
  }
}
