/**
 The part of nftables the firewall relies on: rule expressions over one register, first-match chains,
 and batches of table, chain and rule messages applied to the kernel as one transaction.
 */
module Nftables {
  import opened Bits
  import opened Network
  import opened Wrappers

  datatype MetaKey = NfProto | L4Proto | Iif | Oif

  datatype CmpOp = Eq | Neq

  datatype Verdict = Accept | Drop

  datatype Expr =
    | Meta(key: MetaKey)
    | Ct
    | Payload(field: Field)
    | Bitwise(mask: nat, xor: nat)
    | Cmp(op: CmpOp, operand: nat)
    | Counter
    | Verdict(verdict: Verdict)

  /** How a piece of a rule ends: a failed test, a verdict, or on to the next expression. */
  datatype Outcome = Break | Decided(verdict: Verdict) | Continue(register: nat)

  function ReadMeta(key: MetaKey, p: Packet): nat {
    match key
    case NfProto => p.nfproto
    case L4Proto => p.l4proto
    case Iif => p.iif
    case Oif => p.oif
  }

  function Step(e: Expr, register: nat, p: Packet): Outcome {
    match e
    case Meta(key) => Continue(ReadMeta(key, p))
    case Ct => Continue(p.ctState)
    case Payload(field) => if Load(p, field).Some? then Continue(Load(p, field).value) else Break
    case Bitwise(mask, xor) => Continue(Xor(And(register, mask), xor))
    case Cmp(op, operand) => if (op == Eq) == (register == operand) then Continue(register) else Break
    case Counter => Continue(register)
    case Verdict(verdict) => Decided(verdict)
  }

  function Exec(exprs: seq<Expr>, register: nat, p: Packet): Outcome {
    if exprs == [] then Continue(register)
    else
      match Step(exprs[0], register, p)
      case Continue(next) => Exec(exprs[1..], next, p)
      case end => end
  }

  lemma {:induction false} ExecConcat(a: seq<Expr>, b: seq<Expr>, register: nat, p: Packet)
    ensures Exec(a + b, register, p) == (match Exec(a, register, p)
                                         case Continue(next) => Exec(b, next, p)
                                         case end => end)
  {
    if a == [] {
      assert a + b == b;
    } else {
      assert (a + b)[1..] == a[1..] + b;
      var step := Step(a[0], register, p);
      if step.Continue? {
        ExecConcat(a[1..], b, step.register, p);
      }
    }
  }

  /** Whenever the execution of `exprs` loads a header field, the packet carries that field's protocol. */
  predicate ReadsOwnHeaders(exprs: seq<Expr>, register: nat, p: Packet) {
    exprs == [] ||
    (&& (exprs[0].Payload? ==> Carries(p, exprs[0].field))
     && (Step(exprs[0], register, p).Continue? ==>
           ReadsOwnHeaders(exprs[1..], Step(exprs[0], register, p).register, p)))
  }

  lemma {:induction false} ReadsConcat(a: seq<Expr>, b: seq<Expr>, register: nat, p: Packet)
    requires ReadsOwnHeaders(a, register, p)
    requires Exec(a, register, p).Continue? ==> ReadsOwnHeaders(b, Exec(a, register, p).register, p)
    ensures ReadsOwnHeaders(a + b, register, p)
  {
    if a == [] {
      assert a + b == b;
    } else {
      assert (a + b)[1..] == a[1..] + b;
      var step := Step(a[0], register, p);
      if step.Continue? {
        ReadsConcat(a[1..], b, step.register, p);
      }
    }
  }

  /** The verdict of the first rule that reaches one. */
  function FirstMatch(rules: seq<seq<Expr>>, p: Packet): Option<Verdict> {
    if rules == [] then None
    else
      var outcome := Exec(rules[0], 0, p);
      if outcome.Decided? then Some(outcome.verdict) else FirstMatch(rules[1..], p)
  }

  datatype Chain = Chain(policy: Verdict, rules: seq<seq<Expr>>)

  function Filter(chain: Chain, p: Packet): Verdict {
    var first := FirstMatch(chain.rules, p);
    if first.Some? then first.value else chain.policy
  }

  type Table = map<Direction, Chain>

  datatype Message =
    | AddTable
    | DelTable
    | AddChain(chain: Direction, policy: Verdict)
    | AddRule(chain: Direction, exprs: seq<Expr>)

  /** One message applied to the kernel's table (`None`: no such table), or an error. */
  function Deliver(m: Message, table: Option<Table>): Result<Option<Table>, ()> {
    match m
    case AddTable => Ok(if table.Some? then table else Some(map[]))
    case DelTable => if table.Some? then Ok(None) else Err(())
    case AddChain(chain, policy) =>
      if table.None? then Err(())
      else if chain in table.value then Ok(table)
      else Ok(Some(table.value[chain := Chain(policy, [])]))
    case AddRule(chain, exprs) =>
      if table.None? || chain !in table.value then Err(())
      else
        var before := table.value[chain];
        Ok(Some(table.value[chain := before.(rules := before.rules + [exprs])]))
  }

  function DeliverAll(ms: seq<Message>, table: Option<Table>): Result<Option<Table>, ()> {
    if ms == [] then Ok(table)
    else
      match DeliverAll(ms[..|ms| - 1], table)
      case Ok(before) => Deliver(ms[|ms| - 1], before)
      case Err(e) => Err(e)
  }

  /** A batch takes effect completely or not at all. */
  function Transaction(ms: seq<Message>, table: Option<Table>): Option<Table> {
    match DeliverAll(ms, table)
    case Ok(after) => after
    case Err(_) => table
  }

  /** Does a packet travelling in direction `d` get through? Without our table nothing is filtered. */
  predicate Passes(table: Option<Table>, d: Direction, p: Packet) {
    table.Some? && d in table.value ==> Filter(table.value[d], p) == Accept
  }
}
