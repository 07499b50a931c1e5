/** Facts about multiples and remainders. */
module Arithmetic {

  lemma MulSign(k: int, d: int)
    requires d >= 0
    ensures k >= 1 ==> k * d >= d
    ensures k >= 2 ==> k * d >= 2 * d
    ensures k <= 0 ==> k * d <= 0
    ensures k <= -1 ==> k * d <= -d
  {
  }

  lemma SmallMultiple(k: int, d: int)
    requires -d < k * d < d
    ensures k == 0
  {
    MulSign(k, d);
  }

  /** Quotient and remainder are unique. */
  lemma ModUnique(x: int, n: int, q: int, r: int)
    requires n > 0 && 0 <= r < n && x == q * n + r
    ensures x % n == r && x / n == q
  {
    var k := x / n - q;
    assert k * n == r - x % n;
    SmallMultiple(k, n);
  }

  lemma ModShift(i: int, d: int)
    requires d > 0
    ensures (i - d) % d == i % d
  {
    assert i - d == (i / d - 1) * d + i % d;
    ModUnique(i - d, d, i / d - 1, i % d);
  }

  /** Different numbers with the same remainder are a table apart. */
  lemma ModEqual(a: nat, b: nat, n: nat)
    requires n > 0 && a % n == b % n && a < b
    ensures b - a >= n
    ensures b - a < 2 * n ==> b == a + n
  {
    var q := b / n - a / n;
    assert q * n == b - a;
    MulSign(q, n);
  }

  /** A remainder modulo 2n is the one modulo n, or n more. */
  lemma ModHalf(a: nat, n: nat)
    requires n > 0
    ensures a % (2 * n) % n == a % n
    ensures a % (2 * n) == a % n || a % (2 * n) == a % n + n
  {
    var q, r := a / (2 * n), a % (2 * n);
    assert a == (2 * q) * n + r;
    if r < n {
      ModUnique(a, n, 2 * q, r);
      ModUnique(r, n, 0, r);
    } else {
      assert a == (2 * q + 1) * n + (r - n);
      ModUnique(a, n, 2 * q + 1, r - n);
      ModUnique(r, n, 1, r - n);
    }
  }

  /** Doubling the table separates two numbers that are one table apart. */
  lemma ModSeparate(a: nat, n: nat)
    requires n > 0
    ensures (a + n) % (2 * n) != a % (2 * n)
  {
    var q, r := a / (2 * n), a % (2 * n);
    assert a == q * (2 * n) + r;
    if r < n {
      ModUnique(a + n, 2 * n, q, r + n);
    } else {
      assert a + n == (q + 1) * (2 * n) + (r - n);
      ModUnique(a + n, 2 * n, q + 1, r - n);
    }
  }
}
