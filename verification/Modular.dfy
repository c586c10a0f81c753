/** Facts about products and remainders with a variable factor. */
module Modular {
  lemma MulMono(a: int, b: int, n: nat)
    ensures a <= b ==> a * n <= b * n && n * a <= n * b
  {}

  lemma MulStep(n: nat, d: nat)
    requires n >= 1
    ensures d + (n - 1) * d == n * d
  {}

  lemma ModOf(k: nat, q: nat, r: nat, n: nat)
    requires r < n && k == q * n + r
    ensures k / n == q && k % n == r
  {
    MulMono(k / n + 1, q, n);
    MulMono(q + 1, k / n, n);
    assert (k / n + 1) * n == k / n * n + n;
    assert (q + 1) * n == q * n + n;
  }

  lemma NextSlot(k: nat, n: nat)
    requires n >= 1
    ensures (k % n + 1) % n == (k + 1) % n
  {
    var q, r := k / n, k % n;
    if r + 1 == n {
      assert (q + 1) * n == q * n + n;
      ModOf(k + 1, q + 1, 0, n);
      ModOf(n, 1, 0, n);
    } else {
      ModOf(r + 1, 0, r + 1, n);
      ModOf(k + 1, q, r + 1, n);
    }
  }

  lemma ModShift(k: nat, n: nat)
    requires n >= 1
    ensures (k + n) % n == k % n
  {
    assert (k / n + 1) * n == k / n * n + n;
    ModOf(k + n, k / n + 1, k % n, n);
  }

  lemma SameSlot(a: nat, b: nat, n: nat)
    requires n >= 1 && a <= b < a + n && a % n == b % n
    ensures a == b
  {
    var p, q := a / n, b / n;
    MulMono(p + 1, q, n);
    MulMono(q + 1, p, n);
    assert (p + 1) * n == p * n + n && (q + 1) * n == q * n + n;
  }
}
