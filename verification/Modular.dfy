/** Division by a variable: the facts ring indices need. */
module Modular {
  lemma Unique(x: int, n: int, q: int, r: int)
    requires n > 0 && 0 <= r < n && x == q * n + r
    ensures x / n == q && x % n == r
  {
    Gap(q - x / n, n);
    assert (q - x / n) * n == x % n - r;
  }

  /** Distinct multiples of `n` are at least `n` apart. */
  lemma Gap(d: int, n: int)
    requires n > 0
    ensures d >= 1 ==> d * n >= n
    ensures d <= -1 ==> d * n <= -n
  {
  }

  /** One step further on a ring: the next slot, or slot 0 of the next lap. */
  lemma Next(k: nat, n: nat)
    requires n > 0
    ensures if k % n + 1 < n then (k + 1) % n == k % n + 1 && (k + 1) / n == k / n
            else (k + 1) % n == 0 && (k + 1) / n == k / n + 1
  {
    if k % n + 1 < n {
      Unique(k + 1, n, k / n, k % n + 1);
    } else {
      assert (k / n + 1) * n == k / n * n + n;
      Unique(k + 1, n, k / n + 1, 0);
    }
  }

  /** One lap further: the same slot. */
  lemma Lap(k: nat, n: nat)
    requires n > 0
    ensures (k + n) % n == k % n && (k + n) / n == k / n + 1
  {
    assert (k / n + 1) * n == k / n * n + n;
    Unique(k + n, n, k / n + 1, k % n);
  }

  /** Less than a lap apart: different slots. */
  lemma Distinct(j: nat, k: nat, n: nat)
    requires j < k < j + n
    ensures j % n != k % n
  {
    Gap(k / n - j / n, n);
    assert (k / n - j / n) * n == k - j - (k % n - j % n);
  }

  /** The remainder may be taken before adding. */
  lemma AddMod(a: nat, i: nat, n: nat)
    requires n > 0
    ensures (a % n + i) % n == (a + i) % n
  {
    var q, r := (a % n + i) / n, (a % n + i) % n;
    assert (a / n + q) * n == a / n * n + q * n;
    Unique(a + i, n, a / n + q, r);
  }

  lemma Small(k: nat, n: nat)
    requires k < n
    ensures k % n == k && k / n == 0
  {
    Unique(k, n, 0, k);
  }
}
