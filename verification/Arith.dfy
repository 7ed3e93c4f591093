/** Facts about division and remainder by a positive number that is not a literal. */
module Arith {

  lemma DivModUnique(x: int, n: int, q: int, r: int)
    requires n > 0 && x == n * q + r && 0 <= r < n
    ensures x / n == q && x % n == r
  {
    var d := q - x / n;
    assert n * d == x % n - r by {
      assert x == n * (x / n) + x % n;
      assert n * d == n * q - n * (x / n);
    }
    if d >= 1 {
      MulMonotone(1, d, n);
    } else if d <= -1 {
      MulMonotone(d, -1, n);
    }
  }

  lemma MulMonotone(a: int, b: int, n: int)
    requires a <= b && n >= 0
    ensures a * n <= b * n && n * a <= n * b
  {
    assert (b - a) * n >= 0;
  }

  lemma ModShift(x: int, k: int, n: int)
    requires n > 0
    ensures (x + k * n) % n == x % n && (x + k * n) / n == x / n + k
  {
    assert x + k * n == n * (x / n + k) + x % n by {
      assert x == n * (x / n) + x % n;
    }
    DivModUnique(x + k * n, n, x / n + k, x % n);
  }

  lemma ModOfSum(x: int, y: int, n: int)
    requires n > 0
    ensures (x % n + y) % n == (x + y) % n
  {
    ModShift(x % n + y, x / n, n);
    assert x % n + y + (x / n) * n == x + y;
  }

  lemma ModSame(a: int, b: int, n: int)
    requires n > 0 && a % n == b % n && a <= b < a + n
    ensures a == b
  {
    var d := b / n - a / n;
    assert b - a == n * d by {
      assert b == n * (b / n) + b % n;
      assert a == n * (a / n) + a % n;
    }
    if d >= 1 {
      MulMonotone(1, d, n);
    } else if d <= -1 {
      MulMonotone(d, -1, n);
    }
  }

  lemma HalveTwice(x: int, h: nat)
    requires h > 0
    ensures x / (2 * h) == x / 2 / h && x % (2 * h) == 2 * (x / 2 % h) + x % 2
  {
    var q, r := x / 2 / h, x / 2 % h;
    assert x / 2 == h * q + r;
    assert (2 * h) * q == 2 * (h * q);
    DivModUnique(x, 2 * h, q, 2 * r + x % 2);
  }
}
