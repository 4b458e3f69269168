/** Bitwise operations on unbounded naturals. */
module Bits {
  import opened Bytes
  import Modular

  function And(a: nat, b: nat): (r: nat)
    ensures r <= a && r <= b
  {
    if a == 0 || b == 0 then 0 else 2 * And(a / 2, b / 2) + if a % 2 == 1 && b % 2 == 1 then 1 else 0
  }

  predicate Bit(x: nat, k: nat)
    decreases k
  {
    if k == 0 then x % 2 == 1 else Bit(x / 2, k - 1)
  }

  lemma {:induction false} ZeroBit(k: nat)
    ensures !Bit(0, k)
  {
    if k > 0 {
      ZeroBit(k - 1);
    }
  }

  lemma {:induction false} AndBit(a: nat, b: nat, k: nat)
    ensures Bit(And(a, b), k) <==> Bit(a, k) && Bit(b, k)
    decreases k
  {
    if a == 0 || b == 0 {
      ZeroBit(k);
    } else if k > 0 {
      AndHalf(a, b);
      AndBit(a / 2, b / 2, k - 1);
    }
  }

  lemma AndHalf(a: nat, b: nat)
    ensures And(a, b) / 2 == And(a / 2, b / 2)
  {
  }

  lemma OnesBit(k: nat)
    requires k < 8
    ensures Bit(0xFF, k)
  {
    assert Bit(0xFF, 0) && Bit(0x7F, 0) && Bit(0x3F, 0) && Bit(0x1F, 0) && Bit(0xF, 0) && Bit(7, 0) && Bit(3, 0) && Bit(1, 0);
    if k >= 1 { assert Bit(0xFF, k) == Bit(0x7F, k - 1); }
    if k >= 2 { assert Bit(0x7F, k - 1) == Bit(0x3F, k - 2); }
    if k >= 3 { assert Bit(0x3F, k - 2) == Bit(0x1F, k - 3); }
    if k >= 4 { assert Bit(0x1F, k - 3) == Bit(0xF, k - 4); }
    if k >= 5 { assert Bit(0xF, k - 4) == Bit(7, k - 5); }
    if k >= 6 { assert Bit(7, k - 5) == Bit(3, k - 6); }
    if k >= 7 { assert Bit(3, k - 6) == Bit(1, k - 7); }
  }

  function Ones(k: nat): nat {
    if k == 0 then 0 else 2 * Ones(k - 1) + 1
  }

  lemma {:induction false} AndOnes(k: nat, v: nat)
    requires v <= Ones(k)
    ensures And(Ones(k), v) == v
    decreases k
  {
    if k > 0 && v > 0 {
      assert Ones(k) / 2 == Ones(k - 1) && Ones(k) % 2 == 1;
      AndOnes(k - 1, v / 2);
    }
  }

  /** Anding with all ones keeps a byte. */
  lemma AndFF(v: Byte)
    ensures And(0xFF, v) == v
  {
    assert Ones(4) == 15;
    assert Ones(8) == 0xFF;
    AndOnes(8, v);
  }

  lemma {:induction false} AndSwaps(a: nat, x: nat, y: nat)
    ensures And(And(a, x), y) == And(And(a, y), x)
    decreases a
  {
    if a > 0 && x > 0 && y > 0 {
      AndHalf(a, x);
      AndHalf(a, y);
      AndHalf(And(a, x), y);
      AndHalf(And(a, y), x);
      AndSwaps(a / 2, x / 2, y / 2);
      AndParity(a, x);
      AndParity(a, y);
      AndParity(And(a, x), y);
      AndParity(And(a, y), x);
    }
  }

  lemma AndParity(a: nat, b: nat)
    ensures And(a, b) % 2 == if a % 2 == 1 && b % 2 == 1 then 1 else 0
  {
  }

  /** `n` with the bits of `mask` cleared. */
  function AndNot(n: nat, mask: nat): nat {
    if n == 0 then 0 else 2 * AndNot(n / 2, mask / 2) + if n % 2 == 1 && mask % 2 == 0 then 1 else 0
  }

  function Or(a: nat, b: nat): nat {
    AndNot(a, b) + b
  }

  function Pow2(k: nat): (p: nat)
    ensures p > 0
  {
    if k == 0 then 1 else 2 * Pow2(k - 1)
  }

  lemma HalfDiv(n: nat, p: nat)
    requires p > 0
    ensures n / (2 * p) == n / 2 / p
  {
    var q, r := n / 2 / p, n / 2 % p;
    assert q * (2 * p) == 2 * (q * p);
    Modular.Unique(n, 2 * p, q, 2 * r + n % 2);
  }

  lemma {:induction false} AndNotClears(n: nat, k: nat)
    ensures AndNot(n, Pow2(k) - 1) == n / Pow2(k) * Pow2(k)
    decreases k, n
  {
    if k == 0 {
      AndNotZero(n);
    } else {
      hide AndNot;
      var p := Pow2(k - 1);
      AndNotStep(n, p);
      AndNotClears(n / 2, k - 1);
      HalfDiv(n, p);
      var q := n / 2 / p;
      Regroup(q, p);
      assert n / Pow2(k) == q;
    }
  }

  lemma Regroup(q: nat, p: nat)
    ensures 2 * (q * p) == q * (2 * p)
  {
  }

  lemma AndNotStep(n: nat, p: nat)
    requires p > 0
    ensures AndNot(n, 2 * p - 1) == 2 * AndNot(n / 2, p - 1)
  {
    assert (2 * p - 1) / 2 == p - 1 && (2 * p - 1) % 2 == 1;
  }

  lemma {:induction false} AndNotZero(n: nat)
    ensures AndNot(n, 0) == n
  {
    if n > 0 {
      AndNotZero(n / 2);
    }
  }
}
