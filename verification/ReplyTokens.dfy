/**
  Reply tokens: the caller's 64-bit identity xor a sequence number shifted into the upper half. Numbers
  stand for machine words, and `Xor` works bit by bit.
*/
module ReplyTokens {

  import opened Abi
  import opened Arithmetic
  import opened Common

  function Xor(x: nat, y: nat): nat
    decreases x + y
  {
    if x == 0 && y == 0 then 0 else (if x % 2 == y % 2 then 0 else 1) + 2 * Xor(x / 2, y / 2)
  }

  lemma {:induction false} XorInjective(g: nat, m: nat, n: nat)
    requires Xor(g, m) == Xor(g, n)
    ensures m == n
    decreases g + m + n
  {
    if g != 0 || m != 0 || n != 0 {
      XorInjective(g / 2, m / 2, n / 2);
    }
  }

  function Two(n: nat): (t: nat)
    ensures t > 0
  {
    if n == 0 then 1 else 2 * Two(n - 1)
  }

  /** The number whose low n bits are those of i and whose upper part is g. */
  function Above(n: nat, i: nat, g: nat): nat {
    if n == 0 then g else i % 2 + 2 * Above(n - 1, i / 2, g)
  }

  lemma {:induction false} AboveValue(n: nat, i: nat, g: nat)
    requires i < Two(n)
    ensures Above(n, i, g) == i + Two(n) * g
  {
    if n > 0 {
      AboveValue(n - 1, i / 2, g);
      Twice(Two(n - 1), g);
    }
  }

  lemma Twice(t: nat, g: nat)
    ensures (2 * t) * g == 2 * (t * g)
  {
  }

  /** Xor in the upper part leaves the low n bits alone. */
  lemma {:induction false} XorAbove(n: nat, i: nat, g: nat, k: nat)
    ensures Xor(Above(n, i, g), Above(n, 0, k)) == Above(n, i, Xor(g, k))
  {
    if n > 0 {
      XorAbove(n - 1, i / 2, g, k);
      hide Above;
      AboveStep(n, i, g);
      AboveStep(n, 0, k);
      AboveStep(n, i, Xor(g, k));
      XorStep(Above(n - 1, i / 2, g), Above(n - 1, 0, k), i % 2);
    }
  }

  lemma AboveStep(n: nat, i: nat, g: nat)
    requires n > 0
    ensures Above(n, i, g) == i % 2 + 2 * Above(n - 1, i / 2, g)
  {
  }

  lemma XorStep(x: nat, y: nat, bit: nat)
    requires bit < 2
    ensures Xor(bit + 2 * x, 2 * y) == bit + 2 * Xor(x, y)
  {
  }

  lemma SpanIsTwo()
    ensures Two(32) == U32_SPAN
  {
    assert Two(8) == 0x100;
    assert Two(16) == 0x1_0000;
    assert Two(24) == 0x100_0000;
  }

  /** The 64-bit form of an object identity. */
  function Raw(id: ObjectId): nat {
    U32_SPAN * id.generation + id.index
  }

  predicate Typed(id: ObjectId) {
    id.index < U32_SPAN && id.generation < U32_SPAN
  }

  /** The token made for a caller with the given sequence number. */
  function TokenOf(caller: ObjectId, sequence: nat): nat {
    Xor(Raw(caller), (sequence * U32_SPAN) % U64_SPAN)
  }

  lemma TokenParts(caller: ObjectId, sequence: nat)
    requires Typed(caller)
    ensures TokenOf(caller, sequence) == caller.index + U32_SPAN * Xor(caller.generation, sequence % U32_SPAN)
  {
    SpanIsTwo();
    var k, q := sequence % U32_SPAN, sequence / U32_SPAN;
    assert sequence * U32_SPAN == U64_SPAN * q + U32_SPAN * k;
    Remainder(sequence * U32_SPAN, q, U32_SPAN * k, U64_SPAN);
    hide Xor, Above;
    XorAbove(32, caller.index, caller.generation, k);
    AboveValue(32, caller.index, caller.generation);
    AboveValue(32, 0, k);
    AboveValue(32, caller.index, Xor(caller.generation, k));
  }

  /** Two tokens collide exactly when the indices agree and generation and sequence cancel out. */
  lemma TokensCollideIff(a: ObjectId, m: nat, b: ObjectId, n: nat)
    requires Typed(a) && Typed(b)
    ensures TokenOf(a, m) == TokenOf(b, n) <==>
      a.index == b.index && Xor(a.generation, m % U32_SPAN) == Xor(b.generation, n % U32_SPAN)
  {
    hide TokenOf, Xor;
    TokenParts(a, m);
    TokenParts(b, n);
    var x, y := Xor(a.generation, m % U32_SPAN), Xor(b.generation, n % U32_SPAN);
    if a.index + U32_SPAN * x == b.index + U32_SPAN * y {
      Remainder(a.index + U32_SPAN * x, x, a.index, U32_SPAN);
      Remainder(b.index + U32_SPAN * y, y, b.index, U32_SPAN);
    }
  }

  /** Short of a wrap, and with no index at two generations, tokens with different sequence numbers differ. */
  lemma TokensDiffer(a: ObjectId, m: nat, b: ObjectId, n: nat)
    requires Typed(a) && Typed(b) && m < n < m + U32_SPAN
    requires a.index == b.index ==> a.generation == b.generation
    ensures TokenOf(a, m) != TokenOf(b, n)
  {
    TokensCollideIff(a, m, b, n);
    SlotsApart(m, n, U32_SPAN);
    hide TokenOf, Xor;
    if TokenOf(a, m) == TokenOf(b, n) {
      XorInjective(a.generation, m % U32_SPAN, n % U32_SPAN);
    }
  }

  /** An index reused at another generation can repeat a token. */
  lemma ReusedIndexCollides()
    ensures TokenOf(ObjectId(7, 1), 2) == TokenOf(ObjectId(7, 2), 1)
  {
    TokensCollideIff(ObjectId(7, 1), 2, ObjectId(7, 2), 1);
    assert Xor(1, 2) == 3 && Xor(2, 1) == 3;
  }
}
