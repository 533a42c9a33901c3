/**
 The random draws of the relay selector: drawing a relay by weight, and drawing a port out of a list
 of port ranges. A draw is an arbitrary number in the range it is made from.
 */
module RelayDraws {
  import opened Network
  import opened Wrappers

  const U64_MAX: nat := 0xFFFF_FFFF_FFFF_FFFF

  type u64 = n: nat | n <= U64_MAX

  method GenRange(end: nat) returns (i: nat)
    requires end > 0
    ensures i < end
  {
    i :| i < end;
  }

  function SaturatingSub(a: nat, b: nat): nat {
    if a < b then 0 else a - b
  }

  /** The numbers from `low` up to but not including `high`. */
  ghost function Interval(low: int, high: int): (r: set<int>)
    requires low <= high
    ensures |r| == high - low && forall i :: i in r <==> low <= i < high
    decreases high - low
  {
    if low == high then {} else Interval(low, high - 1) + {high - 1}
  }

  // ----- Drawing by weight -----

  function Total(weights: seq<u64>): nat {
    if weights == [] then 0 else weights[0] + Total(weights[1..])
  }

  /** The first one at which the draw, lowered by each weight in turn, reaches zero. */
  function PickIndex(weights: seq<u64>, draw: nat): (k: nat)
    requires weights != [] && draw <= Total(weights)
    ensures k < |weights|
  {
    var left := SaturatingSub(draw, weights[0]);
    assert weights[1..] == [] ==> Total(weights) == weights[0];
    if left == 0 then 0 else 1 + PickIndex(weights[1..], left)
  }

  /** Each draw belongs to the stretch of one weight, the draw of zero to the first. */
  lemma {:induction false} PickIndexIff(weights: seq<u64>, draw: nat, k: nat)
    requires draw <= Total(weights) && k < |weights|
    ensures PickIndex(weights, draw) == k <==> (k == 0 || Total(weights[..k]) < draw) && draw <= Total(weights[..k + 1])
    decreases k
  {
    var rest := weights[1..];
    assert weights[..k + 1][0] == weights[0] && weights[..k + 1][1..] == rest[..k];
    assert Total(rest[..0]) == 0;
    if k > 0 {
      assert weights[..k][0] == weights[0] && weights[..k][1..] == rest[..k - 1];
      if draw > weights[0] {
        PickIndexIff(rest, draw - weights[0], k - 1);
      }
    }
  }

  lemma {:induction false} TotalOfPrefix(weights: seq<u64>, k: nat)
    requires k < |weights|
    ensures Total(weights[..k + 1]) == Total(weights[..k]) + weights[k] <= Total(weights)
  {
    var rest := weights[1..];
    assert weights[..k + 1][1..] == rest[..k];
    if k > 0 {
      assert weights[..k][1..] == rest[..k - 1];
      TotalOfPrefix(rest, k - 1);
    } else {
      assert rest[..0] == [];
    }
  }

  /** The draws that lead to the `k`th. */
  ghost function DrawsOf(weights: seq<u64>, k: nat): set<int>
    requires weights != []
  {
    set draw | 0 <= draw <= Total(weights) && PickIndex(weights, draw) == k
  }

  /**
   Each has as many draws as its weight, except that the first has one more. So only the first can be
   drawn with a weight of zero.
   */
  lemma DrawsAreWeights(weights: seq<u64>, k: nat)
    requires k < |weights|
    ensures |DrawsOf(weights, k)| == weights[k] as int + if k == 0 then 1 else 0
  {
    var low := if k == 0 then 0 else Total(weights[..k]) + 1;
    var high := Total(weights[..k + 1]) + 1;
    TotalOfPrefix(weights, k);
    assert Total(weights[..0]) == 0;
    forall draw | 0 <= draw <= Total(weights) ensures PickIndex(weights, draw) == k <==> low <= draw < high {
      PickIndexIff(weights, draw, k);
    }
    assert DrawsOf(weights, k) == Interval(low, high);
  }

  /** What can be drawn at all: whatever has a weight, and the first. */
  lemma CanBeDrawnIff(weights: seq<u64>, k: nat)
    requires k < |weights|
    ensures (exists draw: nat | draw <= Total(weights) :: PickIndex(weights, draw) == k) <==> weights[k] > 0 || k == 0
  {
    DrawsAreWeights(weights, k);
    if weights[k] > 0 || k == 0 {
      var draw: int :| draw in DrawsOf(weights, k);
      var witnessed: nat := draw;
      assert exists d: nat | d <= Total(weights) :: PickIndex(weights, d) == k by {
        assert witnessed <= Total(weights) && PickIndex(weights, witnessed) == k;
      }
    } else {
      assert DrawsOf(weights, k) == {};
      forall draw: nat | draw <= Total(weights) ensures PickIndex(weights, draw) != k {
        assert draw !in DrawsOf(weights, k);
      }
    }
  }

  lemma DrawnHasWeight(weights: seq<u64>, draw: nat)
    requires weights != [] && draw <= Total(weights)
    ensures var k := PickIndex(weights, draw); weights[k] > 0 || k == 0
  {
    CanBeDrawnIff(weights, PickIndex(weights, draw));
  }

  /** The loop of the program. It always finds one, since the weights add up to the largest draw. */
  method PickByWeight(weights: seq<u64>) returns (r: Option<nat>, ghost draw: nat)
    requires Total(weights) < U64_MAX
    ensures r.None? <==> Total(weights) == 0
    ensures r.Some? ==> draw <= Total(weights) && r.value == PickIndex(weights, draw)
  {
    r, draw := None, 0;
    var total := SumWeights(weights);
    if total == 0 {
      return;
    }
    var i: nat := GenRange(total + 1);
    draw := i;
    for n := 0 to |weights|
      invariant i <= Total(weights[n..])
      invariant n > 0 ==> i > 0
      invariant n < |weights| ==> PickIndex(weights, draw) == n + PickIndex(weights[n..], i)
    {
      assert weights[n..][0] == weights[n] && weights[n..][1..] == weights[n + 1..];
      i := SaturatingSub(i, weights[n]);
      if i == 0 {
        return Some(n), draw;
      }
    }
    assert false;
  }

  method SumWeights(weights: seq<u64>) returns (total: nat)
    ensures total == Total(weights)
  {
    total := 0;
    for n := 0 to |weights|
      invariant total + Total(weights[n..]) == Total(weights)
    {
      assert weights[n..][1..] == weights[n + 1..];
      total := total + weights[n];
    }
  }

  // ----- Drawing a port -----

  /** Both ends belong to the range. */
  datatype PortRange = PortRange(first: u16, last: u16)

  predicate HasPort(range: PortRange, port: u16) {
    range.first <= port <= range.last
  }

  /** The number of ports as the program computes it, in 16 bits that wrap around. */
  function PortAmount(range: PortRange): (n: u16) {
    ((1 + range.last) % 0x1_0000 - range.first) % 0x1_0000
  }

  lemma PortAmountIs(range: PortRange)
    ensures PortAmount(range) as int ==
            if IsFull(range) then 0
            else if IsOrdered(range) then range.last + 1 - range.first
            else 0x1_0001 + range.last - range.first
  {}

  /** A step of that computation leaves the 16 bits, which stops a program built with overflow checks. */
  predicate Overflows(range: PortRange) {
    1 + range.last >= 0x1_0000 || 1 + range.last < range.first
  }

  /** A range with its ends in order, or empty right before its first port. */
  predicate IsOrdered(range: PortRange) {
    range.first <= range.last + 1
  }

  predicate IsFull(range: PortRange) {
    range == PortRange(0, 0xFFFF)
  }

  ghost function PortsOf(range: PortRange): set<int> {
    set port: int | 0 <= port <= 0xFFFF && HasPort(range, port)
  }

  /** The computed number of ports is right, except for the range of all ports and ranges the wrong way round. */
  lemma PortAmountIsSizeIff(range: PortRange)
    ensures PortAmount(range) == |PortsOf(range)| <==> IsOrdered(range) && !IsFull(range)
    ensures Overflows(range) <==> range.last == 0xFFFF || !IsOrdered(range)
  {
    PortAmountIs(range);
    if IsOrdered(range) {
      assert PortsOf(range) == Interval(range.first, range.last + 1);
    } else {
      assert PortsOf(range) == {};
    }
  }

  function PortTotal(ranges: seq<PortRange>): nat {
    if ranges == [] then 0 else PortAmount(ranges[0]) + PortTotal(ranges[1..])
  }

  /** The range and the port an index stands for, ranges one after the other. */
  function PortAt(ranges: seq<PortRange>, index: nat): (r: (nat, u16))
    requires index < PortTotal(ranges)
    ensures r.0 < |ranges|
  {
    if index < PortAmount(ranges[0]) then (0, (index + ranges[0].first) % 0x1_0000)
    else
      var (k, port) := PortAt(ranges[1..], index - PortAmount(ranges[0]));
      (k + 1, port)
  }

  /** Some range has a port to draw. */
  predicate OffersPorts(ranges: seq<PortRange>) {
    exists range <- ranges :: !IsFull(range) && range.first != range.last + 1
  }

  /** There is something to draw exactly if some range is neither empty nor all ports. */
  lemma {:induction false} PortTotalIff(ranges: seq<PortRange>)
    ensures PortTotal(ranges) > 0 <==> OffersPorts(ranges)
  {
    if ranges != [] {
      PortAmountIs(ranges[0]);
      PortTotalIff(ranges[1..]);
      assert ranges == [ranges[0]] + ranges[1..];
    }
  }

  /**
   The ports that can be drawn from a range: its own, but none from the range of all ports, and from a
   range the wrong way round all from its first one up and all down from its last one.
   */
  predicate Yields(range: PortRange, port: u16) {
    && !IsFull(range)
    && if IsOrdered(range) then HasPort(range, port) else port >= range.first || port <= range.last
  }

  /** How far into its range a port is, counting on from the largest port to the smallest. */
  function Offset(range: PortRange, port: u16): nat {
    (port - range.first) % 0x1_0000
  }

  lemma OffsetIff(range: PortRange, port: u16)
    ensures Yields(range, port) <==> Offset(range, port) < PortAmount(range)
    ensures (Offset(range, port) + range.first) % 0x1_0000 == port
  {
    PortAmountIs(range);
  }

  lemma OffsetBack(range: PortRange, offset: nat)
    requires offset < PortAmount(range)
    ensures var port: u16 := (offset + range.first) % 0x1_0000; Yields(range, port) && Offset(range, port) == offset
  {
    OffsetIff(range, (offset + range.first) % 0x1_0000);
  }

  /** The index that stands for a port of a range. */
  function IndexOf(ranges: seq<PortRange>, k: nat, port: u16): nat
    requires k < |ranges|
  {
    PortTotal(ranges[..k]) + Offset(ranges[k], port)
  }

  lemma IndexInRest(ranges: seq<PortRange>, k: nat, port: u16)
    requires 0 < k < |ranges|
    ensures IndexOf(ranges, k, port) == PortAmount(ranges[0]) + IndexOf(ranges[1..], k - 1, port)
  {
    assert ranges[..k][0] == ranges[0] && ranges[..k][1..] == ranges[1..][..k - 1];
  }

  /** Every index stands for a port that its range yields, ... */
  lemma {:induction false} IndexToPort(ranges: seq<PortRange>, index: nat)
    requires index < PortTotal(ranges)
    ensures var (k, port) := PortAt(ranges, index); Yields(ranges[k], port) && IndexOf(ranges, k, port) == index
    decreases |ranges|
  {
    var amount := PortAmount(ranges[0]);
    if index < amount {
      OffsetBack(ranges[0], index);
      assert ranges[..0] == [];
    } else {
      IndexToPort(ranges[1..], index - amount);
      var (k, port) := PortAt(ranges[1..], index - amount);
      IndexInRest(ranges, k + 1, port);
    }
  }

  /** ... and every port that a range yields has an index of its own. */
  lemma {:induction false} PortToIndex(ranges: seq<PortRange>, k: nat, port: u16)
    requires k < |ranges| && Yields(ranges[k], port)
    ensures IndexOf(ranges, k, port) < PortTotal(ranges) && PortAt(ranges, IndexOf(ranges, k, port)) == (k, port)
    decreases k
  {
    if k == 0 {
      OffsetIff(ranges[0], port);
      assert ranges[..0] == [];
    } else {
      PortToIndex(ranges[1..], k - 1, port);
      IndexInRest(ranges, k, port);
    }
  }

  /** Exactly when no draw yields a port outside its range: if no range is the wrong way round. */
  lemma DrawnPortsAreInRangesIff(ranges: seq<PortRange>)
    ensures (forall index: nat | index < PortTotal(ranges) ::
               var (k, port) := PortAt(ranges, index); HasPort(ranges[k], port)) <==>
            forall range <- ranges :: IsOrdered(range)
  {
    forall index: nat | index < PortTotal(ranges)
      ensures var (k, port) := PortAt(ranges, index); Yields(ranges[k], port)
    {
      IndexToPort(ranges, index);
    }
    if k: nat :| k < |ranges| && !IsOrdered(ranges[k]) {
      PortToIndex(ranges, k, ranges[k].first);
    }
  }

  method SumPorts(ranges: seq<PortRange>) returns (total: nat)
    ensures total == PortTotal(ranges)
  {
    total := 0;
    for n := 0 to |ranges|
      invariant total + PortTotal(ranges[n..]) == PortTotal(ranges)
    {
      assert ranges[n..][1..] == ranges[n + 1..];
      total := total + PortAmount(ranges[n]);
    }
  }

  /** The loop of the program for any port. It always finds a range: the panic after it is never reached. */
  method DrawPort(ranges: seq<PortRange>) returns (r: Option<u16>, ghost draw: nat)
    ensures r.None? <==> PortTotal(ranges) == 0
    ensures r.Some? ==> draw < PortTotal(ranges) && r.value == PortAt(ranges, draw).1
  {
    r, draw := None, 0;
    var portAmount := SumPorts(ranges);
    if portAmount < 1 {
      return;
    }
    var portIndex: nat := GenRange(portAmount);
    draw := portIndex;
    for n := 0 to |ranges|
      invariant portIndex < PortTotal(ranges[n..])
      invariant PortAt(ranges, draw).1 == PortAt(ranges[n..], portIndex).1
    {
      var portsInRange := PortAmount(ranges[n]);
      assert ranges[n..][0] == ranges[n] && ranges[n..][1..] == ranges[n + 1..];
      if portIndex < portsInRange {
        return Some((portIndex + ranges[n].first) % 0x1_0000), draw;
      }
      portIndex := portIndex - portsInRange;
    }
    assert false;
  }
}
