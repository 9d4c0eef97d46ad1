/** Bitwise operations on numbers that stand for machine words. */
module Words {

  import opened Arithmetic

  /** Bitwise conjunction of two numbers. */
  function And(x: nat, y: nat): nat {
    if x == 0 || y == 0 then 0 else (if x % 2 == 1 && y % 2 == 1 then 1 else 0) + 2 * And(x / 2, y / 2)
  }

  lemma AndStep(x: nat, y: nat)
    ensures And(x, y) == (if x % 2 == 1 && y % 2 == 1 then 1 else 0) + 2 * And(x / 2, y / 2)
  {
  }

  /** Conjunction works on low and high parts apart. */
  lemma {:induction false} AndParts(x: nat, a: nat, y: nat, b: nat, n: nat)
    requires PowerOfTwo(n) && x < n && y < n
    ensures And(x + n * a, y + n * b) == And(x, y) + n * And(a, b)
    decreases n
  {
    hide And;
    if n == 1 {
      AndZero(0);
    } else {
      var m := n / 2;
      HalfSum(x, a, m);
      HalfSum(y, b, m);
      AndStep(x + n * a, y + n * b);
      AndStep(x, y);
      AndParts(x / 2, a, y / 2, b, m);
      assert 2 * (m * And(a, b)) == n * And(a, b);
    }
  }

  lemma HalfSum(x: nat, a: nat, m: nat)
    ensures (x + (2 * m) * a) / 2 == x / 2 + m * a && (x + (2 * m) * a) % 2 == x % 2
  {
    assert (2 * m) * a == 2 * (m * a);
  }

  lemma {:induction false} AndBelow(x: nat, y: nat)
    ensures And(x, y) <= x
  {
    if x > 0 && y > 0 {
      AndBelow(x / 2, y / 2);
    }
  }

  lemma AndOdd(x: nat, z: nat)
    ensures And(x, 2 * z + 1) == x % 2 + 2 * And(x / 2, z)
  {
  }

  /** Masking with a power of two less one takes the remainder. */
  lemma {:induction false} MaskIsRemainder(x: nat, n: nat)
    requires PowerOfTwo(n)
    ensures And(x, n - 1) == x % n
  {
    hide And;
    if n == 1 {
      AndZero(x);
    } else {
      var m := n / 2;
      MaskIsRemainder(x / 2, m);
      AndOdd(x, m - 1);
      HalfRemainder(x, m);
    }
  }

  lemma AndZero(x: nat)
    ensures And(x, 0) == 0
  {
  }

  lemma HalfRemainder(x: nat, m: nat)
    requires m > 0
    ensures x % (2 * m) == 2 * (x / 2 % m) + x % 2
  {
    var q, r := x / 2 / m, x / 2 % m;
    assert x / 2 == m * q + r;
    assert (2 * m) * q == 2 * (m * q);
    Remainder(x, q, 2 * r + x % 2, 2 * m);
  }

  /** Bitwise disjunction of two numbers. */
  function Or(x: nat, y: nat): nat
    decreases x + y
  {
    if x == 0 && y == 0 then 0 else (if x % 2 == 1 || y % 2 == 1 then 1 else 0) + 2 * Or(x / 2, y / 2)
  }

  lemma {:induction false} OrZero(x: nat)
    ensures Or(x, 0) == x && Or(0, x) == x
  {
    if x > 0 {
      OrZero(x / 2);
    }
  }

  /** Joining a low field with one that starts above it adds them. */
  lemma {:induction false} JoinAdds(x: nat, y: nat, n: nat)
    requires PowerOfTwo(n) && x < n && y % n == 0
    ensures Or(x, y) == x + y
  {
    if n == 1 {
      OrZero(y);
    } else if x > 0 || y > 0 {
      HalfMultiple(y, n / 2);
      JoinAdds(x / 2, y / 2, n / 2);
    }
  }

  lemma HalfMultiple(y: nat, m: nat)
    requires m > 0 && y % (2 * m) == 0
    ensures y % 2 == 0 && y / 2 % m == 0
  {
    HalfRemainder(y, m);
  }

  lemma Twofold(n: nat)
    requires PowerOfTwo(n)
    ensures PowerOfTwo(2 * n)
  {
  }

  lemma Fourfold(n: nat)
    requires PowerOfTwo(n)
    ensures PowerOfTwo(4 * n)
  {
    hide PowerOfTwo;
    Twofold(n);
    Twofold(2 * n);
  }

  lemma Sixteenfold(n: nat)
    requires PowerOfTwo(n)
    ensures PowerOfTwo(16 * n)
  {
    hide PowerOfTwo;
    Fourfold(n);
    Fourfold(4 * n);
  }
}
