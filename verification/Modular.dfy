/** Facts about ring indices: remainders of increasing counters. */
module Modular {

  lemma MultipleOf(k: int, n: nat)
    ensures k >= 1 ==> k * n >= n
    ensures k <= 0 ==> k * n <= 0
  {
  }

  lemma Unique(n: nat, i: nat, q: nat, r: nat)
    requires i == n * q + r && r < n
    ensures i % n == r && i / n == q
  {
    var k := i / n - q;
    MultipleOf(k, n);
    MultipleOf(-k, n);
    assert k * n == r - i % n by { assert i == n * (i / n) + i % n; }
  }

  lemma Successor(n: nat, i: nat)
    requires n > 0
    ensures (i + 1) % n == if i % n + 1 == n then 0 else i % n + 1
  {
    var q, r := i / n, i % n;
    assert i == n * q + r;
    if r + 1 == n {
      assert i + 1 == n * (q + 1) + 0;
      Unique(n, i + 1, q + 1, 0);
    } else {
      Unique(n, i + 1, q, r + 1);
    }
  }

  lemma NextLap(n: nat, i: nat)
    requires n > 0
    ensures (i + n) % n == i % n && (i + n) / n == i / n + 1
  {
    assert i + n == n * (i / n + 1) + i % n by { assert i == n * (i / n) + i % n; }
    Unique(n, i + n, i / n + 1, i % n);
  }

  /** Indices less than a lap apart have different slots. */
  lemma Apart(n: nat, a: nat, b: nat)
    requires a < b < a + n
    ensures a % n != b % n
  {
    var k := b / n - a / n;
    MultipleOf(k, n);
    assert b - a == k * n + (b % n - a % n) by {
      assert a == n * (a / n) + a % n && b == n * (b / n) + b % n;
    }
  }

  lemma {:induction false} AddMod(n: nat, a: nat, b: nat)
    requires n > 0
    ensures (a % n + b) % n == (a + b) % n
    decreases b
  {
    if b == 0 {
      Unique(n, a % n, 0, a % n);
    } else {
      AddMod(n, a, b - 1);
      Successor(n, a % n + (b - 1));
      Successor(n, a + (b - 1));
    }
  }
}
