/**
 Bit operations on unbounded naturals, and what a prefix mask does to a number.

 The firewall masks 32-bit and 128-bit addresses; defining the operations on naturals, bit by bit,
 gives one proof for every width.
 */
module Bits {
  function Pow2(n: nat): (r: nat)
    ensures r >= 1
  {
    if n == 0 then 1 else 2 * Pow2(n - 1)
  }

  function And(a: nat, b: nat): nat {
    if a == 0 || b == 0 then 0
    else 2 * And(a / 2, b / 2) + (if a % 2 == 1 && b % 2 == 1 then 1 else 0)
  }

  function Xor(a: nat, b: nat): nat {
    if a == 0 then b
    else if b == 0 then a
    else 2 * Xor(a / 2, b / 2) + (if a % 2 != b % 2 then 1 else 0)
  }

  /** The number of `width` bits whose first `prefix` bits are set. */
  function PrefixMask(width: nat, prefix: nat): nat
    requires prefix <= width
  {
    if prefix == width then Pow2(width) - 1 else 2 * PrefixMask(width - 1, prefix)
  }

  lemma {:induction false} AndWithOnes(a: nat, width: nat)
    requires a < Pow2(width)
    ensures And(a, Pow2(width) - 1) == a
  {
    if width > 0 && a > 0 {
      assert (Pow2(width) - 1) / 2 == Pow2(width - 1) - 1;
      AndWithOnes(a / 2, width - 1);
    }
  }

  lemma NonzeroMultiple(k: int, d: int)
    requires d > 0
    ensures k >= 1 ==> k * d >= d
    ensures k <= -1 ==> k * d <= -d
  {
    if k >= 1 {
      assert (k - 1) * d >= 0;
    } else if k <= -1 {
      assert (-1 - k) * d >= 0;
    }
  }

  lemma DivisionIsUnique(a: int, d: nat, q: int, r: int)
    requires d > 0 && a == q * d + r && 0 <= r < d
    ensures a / d == q && a % d == r
  {
    NonzeroMultiple(q - a / d, d);
    assert (q - a / d) * d == a % d - r;
  }

  /** Dropping one bit and then `k` more is dropping `k + 1` bits. */
  lemma HalvingFirst(a: nat, k: nat)
    ensures a / Pow2(k + 1) == a / 2 / Pow2(k)
    ensures a % Pow2(k + 1) == 2 * (a / 2 % Pow2(k)) + a % 2
  {
    var p := Pow2(k);
    var q, r := a / 2 / p, a / 2 % p;
    assert a == q * (2 * p) + (2 * r + a % 2) by {
      assert a / 2 == q * p + r;
      assert 2 * (q * p) == q * (2 * p);
    }
    DivisionIsUnique(a, 2 * p, q, 2 * r + a % 2);
  }

  /** The two agree on all but the last `k` bits, and `net` has nothing set in those. */
  predicate Agree(a: nat, net: nat, k: nat) {
    a / Pow2(k) == net / Pow2(k) && net % Pow2(k) == 0
  }

  lemma AgreeOnHalves(a: nat, net: nat, k: nat)
    ensures Agree(a, net, k + 1) <==> Agree(a / 2, net / 2, k) && net % 2 == 0
  {
    HalvingFirst(a, k);
    HalvingFirst(net, k);
  }

  lemma {:induction false} MaskAgrees(width: nat, prefix: nat, a: nat, net: nat)
    requires prefix <= width && a < Pow2(width)
    ensures And(a, PrefixMask(width, prefix)) == net <==> Agree(a, net, width - prefix)
    decreases width - prefix
  {
    if prefix == width {
      AndWithOnes(a, width);
    } else {
      MaskAgrees(width - 1, prefix, a / 2, net / 2);
      AndWithEven(a, PrefixMask(width - 1, prefix));
      DoubleIs(And(a / 2, PrefixMask(width - 1, prefix)), net);
      AgreeOnHalves(a, net, width - prefix - 1);
    }
  }

  /**
   Masking `a` and comparing with `net` succeeds exactly when the two agree on the first `prefix` bits
   and `net` has nothing set after them.
   */
  lemma MaskAndCompare(width: nat, prefix: nat, a: nat, net: nat)
    requires prefix <= width && a < Pow2(width)
    ensures And(a, PrefixMask(width, prefix)) == net
       <==> a / Pow2(width - prefix) == net / Pow2(width - prefix) && net % Pow2(width - prefix) == 0
  {
    MaskAgrees(width, prefix, a, net);
  }

  lemma AndWithEven(a: nat, mask: nat)
    ensures And(a, 2 * mask) == 2 * And(a / 2, mask)
  {
    var even := 2 * mask;
    assert even / 2 == mask && even % 2 == 0;
    if a != 0 && mask != 0 {
      assert And(a, even) == 2 * And(a / 2, even / 2);
    }
  }

  lemma DoubleIs(m: nat, net: nat)
    ensures 2 * m == net <==> net % 2 == 0 && m == net / 2
  {}

  /** Bit 1 of `a`, tested the way the connection-state rule does it. */
  lemma AndWithTwo(a: nat)
    ensures And(a, 2) != 0 <==> a / 2 % 2 == 1
  {
    if a > 0 {
      assert And(a, 2) == 2 * And(a / 2, 1);
      if a / 2 > 0 {
        assert And(a / 2, 1) == 2 * And(a / 4, 0) + a / 2 % 2;
      }
    }
  }

  lemma {:induction false} Pow2Add(m: nat, n: nat)
    ensures Pow2(m + n) == Pow2(m) * Pow2(n)
  {
    if m > 0 {
      Pow2Add(m - 1, n);
      assert Pow2(m + n) == 2 * Pow2(m - 1 + n);
      DoubleProduct(Pow2(m - 1), Pow2(n));
    }
  }

  lemma DoubleProduct(x: nat, y: nat)
    ensures 2 * (x * y) == (2 * x) * y
  {}

  lemma Pow2Product(m: nat, a: nat, n: nat, b: nat)
    requires Pow2(m) == a && Pow2(n) == b
    ensures Pow2(m + n) == a * b
  {
    Pow2Add(m, n);
  }

  /** The powers of two that occur as widths and host parts of IPv4 networks. */
  lemma PowersOfV4()
    ensures Pow2(0) == 1 && Pow2(8) == 0x100 && Pow2(16) == 0x1_0000 && Pow2(20) == 0x10_0000
    ensures Pow2(24) == 0x100_0000 && Pow2(32) == 0x1_0000_0000
  {
    assert Pow2(4) == 16 by { assert Pow2(2) == 4; Pow2Product(2, 4, 2, 4); }
    Pow2Product(4, 16, 4, 16);
    Pow2Product(8, 0x100, 8, 0x100);
    Pow2Product(16, 0x1_0000, 4, 16);
    Pow2Product(16, 0x1_0000, 8, 0x100);
    Pow2Product(16, 0x1_0000, 16, 0x1_0000);
  }

  /** The powers of two that occur as widths and host parts of IPv6 networks. */
  lemma PowersOfV6()
    ensures Pow2(112) == 0x1_0000_0000_0000_0000_0000_0000_0000
    ensures Pow2(118) == 0x40_0000_0000_0000_0000_0000_0000_0000
    ensures Pow2(128) == 0x1_0000_0000_0000_0000_0000_0000_0000_0000
  {
    PowersOfV4();
    assert Pow2(6) == 64 by { assert Pow2(3) == 8; Pow2Product(3, 8, 3, 8); }
    Pow2Product(32, 0x1_0000_0000, 32, 0x1_0000_0000);
    Pow2Product(64, 0x1_0000_0000_0000_0000, 32, 0x1_0000_0000);
    Pow2Product(96, 0x1_0000_0000_0000_0000_0000_0000, 16, 0x1_0000);
    Pow2Product(112, 0x1_0000_0000_0000_0000_0000_0000_0000, 6, 64);
    Pow2Product(112, 0x1_0000_0000_0000_0000_0000_0000_0000, 16, 0x1_0000);
  }
}
