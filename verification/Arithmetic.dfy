/** Facts about quotients and remainders that the solver does not find alone. */
module Arithmetic {

  lemma CongruentProduct(a: int, b: int, r: int, m: int)
    requires m > 0 && a % m == b % m
    ensures (a * r) % m == (b * r) % m
  {
    var k := a / m - b / m;
    assert a - b == m * k;
    assert a * r == b * r + m * (k * r);
    Shift(b * r, k * r, m);
  }

  lemma Shift(a: int, k: int, m: int)
    requires m > 0
    ensures (a + m * k) % m == a % m
  {
    var q, r := a / m, a % m;
    assert a + m * k == m * (q + k) + r;
    Remainder(a + m * k, q + k, r, m);
  }

  lemma Remainder(a: int, q: int, r: int, m: int)
    requires m > 0 && a == m * q + r && 0 <= r < m
    ensures a % m == r && a / m == q
  {
    var p, t := a / m, a % m;
    assert a == m * p + t;
    var d := q - p;
    assert m * d == t - r by {
      assert m * d == m * q - m * p;
    }
    if d >= 1 {
      MulAtLeast(m, d);
    } else if d <= -1 {
      MulAtLeast(m, -d);
    }
  }

  lemma MulAtLeast(m: int, d: int)
    requires m > 0 && d >= 1
    ensures m * d >= m
  {
  }

  lemma NoRemainder(m: int, k: int)
    requires m > 0
    ensures (m * k) % m == 0
  {
    Remainder(m * k, k, 0, m);
  }

  lemma MultipleMonotone(m: nat, k: int, q: int)
    requires k <= q
    ensures m * k <= m * q
  {
  }

  lemma MultiplesApart(x: nat, y: nat, step: nat)
    requires step > 0 && x % step == 0 && y % step == 0 && x < y
    ensures x + step <= y
  {
    var p, q := x / step, y / step;
    assert x == step * p && y == step * q;
    if q <= p {
      MultipleMonotone(step, q, p);
    }
    MultipleMonotone(step, p + 1, q);
    assert step * (p + 1) == step * p + step;
  }

  predicate PowerOfTwo(n: nat) {
    n == 1 || (n > 1 && n % 2 == 0 && PowerOfTwo(n / 2))
  }

  /** A power of two divides every larger one. */
  lemma {:induction false} PowerDivides(n: nat, span: nat)
    requires PowerOfTwo(n) && PowerOfTwo(span) && n <= span
    ensures span % n == 0
  {
    if n > 1 {
      PowerDivides(n / 2, span / 2);
      var k := (span / 2) / (n / 2);
      assert span == n * k;
      NoRemainder(n, k);
    }
  }

  /** Two counts less than a capacity apart fall into different slots. */
  lemma SlotsApart(i: nat, n: nat, capacity: nat)
    requires capacity > 0 && i < n < i + capacity
    ensures i % capacity != n % capacity
  {
    var q, r := i / capacity, i % capacity;
    if r + (n - i) < capacity {
      Remainder(n, q, r + (n - i), capacity);
    } else {
      Remainder(n, q + 1, r + (n - i) - capacity, capacity);
    }
  }
}
