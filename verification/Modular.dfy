// Remainders and quotients by a variable divisor.
module Modular {
  lemma {:induction false} MulBounds(n: int, d: int)
    requires n > 0
    ensures d > 0 ==> n * d >= n
    ensures d < 0 ==> n * d <= -n
    ensures d == 0 ==> n * d == 0
    decreases if d < 0 then -d else d
  {
    if d > 1 {
      MulBounds(n, d - 1);
      assert n * d == n * (d - 1) + n;
    } else if d < -1 {
      MulBounds(n, d + 1);
      assert n * d == n * (d + 1) - n;
    }
  }

  lemma DivModUnique(a: int, q: int, r: int, n: nat)
    requires n > 0 && 0 <= r < n && a == n * q + r
    ensures a / n == q && a % n == r
  {
    assert n * (a / n - q) == r - a % n;
    MulBounds(n, a / n - q);
  }

  lemma ModStep(a: nat, n: nat)
    requires n > 0
    ensures (a % n + 1) % n == (a + 1) % n
  {
    var q := a / n;
    if a % n + 1 == n {
      assert a + 1 == n * (q + 1);
      DivModUnique(a + 1, q + 1, 0, n);
      DivModUnique(a % n + 1, 1, 0, n);
    } else {
      DivModUnique(a + 1, q, a % n + 1, n);
      DivModUnique(a % n + 1, 0, a % n + 1, n);
    }
  }

  lemma {:induction false} ModPlus(a: nat, k: nat, n: nat)
    requires n > 0
    ensures (a % n + k) % n == (a + k) % n
  {
    if k == 0 {
      DivModUnique(a % n, 0, a % n, n);
    } else {
      ModPlus(a, k - 1, n);
      ModStep(a % n + (k - 1), n);
      ModStep(a + (k - 1), n);
    }
  }

  // Positions less than one lap apart fall on different slots.
  lemma ModDistinct(a: nat, b: nat, n: nat)
    requires n > 0 && a < b < a + n
    ensures a % n != b % n
  {
    assert b - a == n * (b / n - a / n) + (b % n - a % n);
    MulBounds(n, b / n - a / n);
  }
}
