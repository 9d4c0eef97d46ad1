/**
  The one-time authenticator of the crypto server: five 26-bit limbs with delayed carries compute the
  MAC of section 2.5 of RFC 8439.

  Unsigned machine words are integers with explicit bounds: every value stored in a `U64` or `U128` is
  proved to fit. Masks and joins are bitwise operations on numbers, shifts by constants are products and
  quotients, and wrapping operations are reduced explicitly.
*/
module Poly1305 {

  import opened Arithmetic
  import opened ByteOrder
  import opened Words

  type U64 = x: int | 0 <= x < 0x1_0000_0000_0000_0000
  type U128 = x: int | 0 <= x < 0x1_0000_0000_0000_0000_0000_0000_0000_0000

  const B1: int := 0x400_0000                                    // 2^26
  const B2: int := 0x10_0000_0000_0000                           // 2^52
  const B3: int := 0x4000_0000_0000_0000_0000                    // 2^78
  const B4: int := 0x100_0000_0000_0000_0000_0000_0000           // 2^104
  const B5: int := 0x4_0000_0000_0000_0000_0000_0000_0000_0000   // 2^130
  const PRIME: int := 0x3_FFFF_FFFF_FFFF_FFFF_FFFF_FFFF_FFFF_FFFB
  const W64: int := 0x1_0000_0000_0000_0000
  const W128: int := 0x1_0000_0000_0000_0000_0000_0000_0000_0000

  // ---------- the MAC as section 2.5 of RFC 8439 defines it ----------

  /** The bits of r that are kept. */
  const CLAMP: nat := 0x0FFF_FFFC_0FFF_FFFC_0FFF_FFFC_0FFF_FFFF

  /** The accumulator after absorbing a message in blocks of at most 16 bytes, each with a one byte appended. */
  function Absorb(message: seq<Byte>, r: nat, acc: nat): nat
    decreases |message|
  {
    if message == [] then acc
    else
      var n := if |message| < 16 then |message| else 16;
      Absorb(message[n..], r, ((acc + LittleEndian(message[..n] + [1])) * r) % PRIME)
  }

  /** The tag as a 128-bit number. */
  function Tag(message: seq<Byte>, key: seq<Byte>): nat
    requires |key| == 32
  {
    (Absorb(message, And(LittleEndian(key[..16]), CLAMP), 0) + LittleEndian(key[16..])) % W128
  }

  // ---------- arithmetic ----------

  function Value(h0: int, h1: int, h2: int, h3: int, h4: int): int {
    h0 + B1 * h1 + B2 * h2 + B3 * h3 + B4 * h4
  }

  lemma Distribute(x: int, r0: int, r1: int, r2: int, r3: int, r4: int)
    ensures x * Value(r0, r1, r2, r3, r4) == Value(x * r0, x * r1, x * r2, x * r3, x * r4)
  {
  }

  lemma ProductBound(x: int, y: int, a: int, b: int)
    requires 0 <= x <= a && 0 <= y <= b
    ensures 0 <= x * y <= a * b
  {
  }

  // ---------- masks ----------

  lemma WordPowers()
    ensures PowerOfTwo(0x100) && PowerOfTwo(0x4000) && PowerOfTwo(0x10_0000) && PowerOfTwo(B1)
    ensures PowerOfTwo(0x1_0000_0000) && PowerOfTwo(W64)
  {
    hide PowerOfTwo;
    FirstPower();
    Sixteenfold(1);
    Sixteenfold(0x10);
    Sixteenfold(0x100);
    Sixteenfold(0x1000);
    Fourfold(0x1000);
    Sixteenfold(0x1_0000);
    Sixteenfold(0x10_0000);
    Fourfold(0x100_0000);
    Sixteenfold(0x100_0000);
    Sixteenfold(0x1000_0000);
    Sixteenfold(0x1_0000_0000);
    Sixteenfold(0x10_0000_0000);
    Sixteenfold(0x100_0000_0000);
    Sixteenfold(0x1000_0000_0000);
    Sixteenfold(0x1_0000_0000_0000);
    Sixteenfold(0x10_0000_0000_0000);
    Sixteenfold(0x100_0000_0000_0000);
    Sixteenfold(0x1000_0000_0000_0000);
  }

  lemma FirstPower()
    ensures PowerOfTwo(1)
  {
  }

  lemma Masked(x: nat)
    ensures And(x, 0x3FF_FFFF) == x % B1 && And(x, 0xFFFF_FFFF) == x % 0x1_0000_0000 && And(x, W64 - 1) == x % W64
  {
    hide And, PowerOfTwo;
    WordPowers();
    MaskIsRemainder(x, B1);
    MaskIsRemainder(x, 0x1_0000_0000);
    MaskIsRemainder(x, W64);
  }

  /** The low 26 bits. */
  function Low26(x: U128): (r: U64)
    ensures r == x % B1
  {
    Masked(x);
    And(x, 0x3FF_FFFF)
  }

  /** The low 32 bits. */
  function Low32(x: U64): (r: U64)
    ensures r == x % 0x1_0000_0000
  {
    Masked(x);
    And(x, 0xFFFF_FFFF)
  }

  lemma FieldsAdd(x: nat, y: nat, shift: nat)
    requires shift in {0x100, 0x4000, 0x10_0000, B1, 0x1_0000_0000} && x < shift
    ensures Or(x, y * shift) == x + y * shift
  {
    hide Or, PowerOfTwo;
    WordPowers();
    assert y * shift == shift * y;
    NoRemainder(shift, y);
    JoinAdds(x, y * shift, shift);
  }

  /** A field joined with one shifted above it: the bits do not meet, so they add. */
  function Join(x: U64, y: U64, shift: U64): (r: U64)
    requires shift in {0x100, 0x4000, 0x10_0000, B1, 0x1_0000_0000} && x < shift && x + y * shift < W64
    ensures r == x + y * shift
  {
    FieldsAdd(x, y, shift);
    Or(x, y * shift)
  }

  // ---------- splitting bytes into limbs ----------

  function Word(a: int, b: int, c: int, d: int): int {
    a + 0x100 * b + 0x1_0000 * c + 0x100_0000 * d
  }

  lemma TailStep(s: seq<Byte>, i: nat)
    requires i < |s|
    ensures LittleEndian(s[i..]) == s[i] + 256 * LittleEndian(s[i + 1..])
  {
    assert s[i..][1..] == s[i + 1..];
  }

  lemma {:induction false} PaddingIsZero(s: seq<Byte>, n: nat)
    ensures LittleEndian(s + seq(n, _ => 0)) == LittleEndian(s)
    decreases |s|, n
  {
    var t := s + seq(n, _ => 0);
    if s != [] {
      assert t[1..] == s[1..] + seq(n, _ => 0);
      PaddingIsZero(s[1..], n);
    } else if n > 0 {
      assert t[1..] == [] + seq(n - 1, _ => 0);
      PaddingIsZero([], n - 1);
    }
  }

  lemma ThreeBytes(s: seq<Byte>, i: nat)
    requires i + 3 <= |s|
    ensures LittleEndian(s[i..]) == Word(s[i], s[i + 1], s[i + 2], 0) + 0x100_0000 * LittleEndian(s[i + 3..])
  {
    TailStep(s, i);
    TailStep(s, i + 1);
    TailStep(s, i + 2);
  }

  /** The value of a block, in groups of three bytes that match the limbs. */
  lemma BlockNumber(b: seq<Byte>, b16: int)
    requires |b| == 17 && b16 == b[16]
    ensures LittleEndian(b) ==
              Word(b[0], b[1], b[2], 0) + 0x100_0000 * Word(b[3], b[4], b[5], 0)
              + 0x1_0000_0000_0000 * Word(b[6], b[7], b[8], 0) + 0x100_0000_0000_0000_0000 * Word(b[9], b[10], b[11], 0)
              + 0x1_0000_0000_0000_0000_0000_0000 * Word(b[12], b[13], b[14], 0)
              + 0x100_0000_0000_0000_0000_0000_0000_0000 * (b[15] as int + 0x100 * b16)
  {
    hide Word;
    assert b[0..] == b;
    ThreeBytes(b, 0);
    ThreeBytes(b, 3);
    ThreeBytes(b, 6);
    ThreeBytes(b, 9);
    ThreeBytes(b, 12);
    TailStep(b, 15);
    TailStep(b, 16);
    assert b[17..] == [];
    hide LittleEndian;
  }

  lemma CutFirst(a: int, b: int, c: int, d: int)
    requires 0 <= a < 256 && 0 <= b < 256 && 0 <= c < 256 && 0 <= d < 256
    ensures Word(a, b, c, d) % B1 == Word(a, b, c, d % 4)
  {
    Remainder(Word(a, b, c, d), d / 4, Word(a, b, c, d % 4), B1);
  }

  lemma CutSecond(a: int, b: int, c: int, d: int)
    requires 0 <= a < 256 && 0 <= b < 256 && 0 <= c < 256 && 0 <= d < 256
    ensures Word(a, b, c, d) / 4 % B1 == a / 4 + 0x40 * b + 0x4000 * c + 0x40_0000 * (d % 16)
  {
    Remainder(Word(a, b, c, d), a / 4 + 0x40 * b + 0x4000 * c + 0x40_0000 * d, a % 4, 4);
    Remainder(Word(a, b, c, d) / 4, d / 16, a / 4 + 0x40 * b + 0x4000 * c + 0x40_0000 * (d % 16), B1);
  }

  lemma CutThird(a: int, b: int, c: int, d: int)
    requires 0 <= a < 256 && 0 <= b < 256 && 0 <= c < 256 && 0 <= d < 256
    ensures Word(a, b, c, d) / 16 % B1 == a / 16 + 0x10 * b + 0x1000 * c + 0x10_0000 * (d % 64)
  {
    Remainder(Word(a, b, c, d), a / 16 + 0x10 * b + 0x1000 * c + 0x10_0000 * d, a % 16, 16);
    Remainder(Word(a, b, c, d) / 16, d / 64, a / 16 + 0x10 * b + 0x1000 * c + 0x10_0000 * (d % 64), B1);
  }

  lemma CutFourth(a: int, b: int, c: int, d: int)
    requires 0 <= a < 256 && 0 <= b < 256 && 0 <= c < 256 && 0 <= d < 256
    ensures Word(a, b, c, d) / 64 % B1 == a / 64 + 4 * b + 0x400 * c + 0x4_0000 * d
  {
    var q := a / 64 + 4 * b + 0x400 * c + 0x4_0000 * d;
    Remainder(Word(a, b, c, d), q, a % 64, 64);
    Remainder(q, 0, q, B1);
  }

  lemma CutFifth(a: int, b: int, c: int, d: int, e: int)
    requires 0 <= a < 256 && 0 <= b < 256 && 0 <= c < 256 && 0 <= d < 256 && 0 <= e <= 1
    ensures (Word(a, b, c, d) + 0x1_0000_0000 * e) / 256 % B1 == Word(b, c, d, e)
  {
    Remainder(Word(a, b, c, d) + 0x1_0000_0000 * e, Word(b, c, d, e), a, 256);
    Remainder(Word(b, c, d, e), 0, Word(b, c, d, e), B1);
  }

  /** Cut a 17-byte block into limbs of 26 bits. */
  method LoadLimbs(b: seq<Byte>) returns (b0: U64, b1: U64, b2: U64, b3: U64, b4: U64)
    requires |b| == 17 && b[16] <= 1
    ensures Reduced(b0, b1, b2, b3, b4)
    ensures Value(b0, b1, b2, b3, b4) == LittleEndian(b)
  {
    hide Low26;
    var top: int := b[16];
    b0 := Low26(Word(b[0], b[1], b[2], b[3]));
    b1 := Low26(Word(b[3], b[4], b[5], b[6]) / 4);
    b2 := Low26(Word(b[6], b[7], b[8], b[9]) / 16);
    b3 := Low26(Word(b[9], b[10], b[11], b[12]) / 64);
    b4 := Low26((Word(b[12], b[13], b[14], b[15]) + 0x1_0000_0000 * top) / 256);
    CutFirst(b[0], b[1], b[2], b[3]);
    CutSecond(b[3], b[4], b[5], b[6]);
    CutThird(b[6], b[7], b[8], b[9]);
    CutFourth(b[9], b[10], b[11], b[12]);
    CutFifth(b[12], b[13], b[14], b[15], top);
    BlockNumber(b, top);
  }

  // ---------- one block ----------

  /** Limb bounds between blocks: reduced except for a small excess in the second limb. */
  predicate Loose(h0: int, h1: int, h2: int, h3: int, h4: int) {
    0 <= h0 < B1 && 0 <= h1 < B1 + 0x400 && 0 <= h2 < B1 && 0 <= h3 < B1 && 0 <= h4 < B1
  }

  predicate Reduced(h0: int, h1: int, h2: int, h3: int, h4: int) {
    0 <= h0 < B1 && 0 <= h1 < B1 && 0 <= h2 < B1 && 0 <= h3 < B1 && 0 <= h4 < B1
  }

  /** Folding the high half of a product of limbs at 2^130 takes a multiple of the prime away. */
  lemma FoldLinear(p00: int, p01: int, p02: int, p03: int, p04: int, p10: int, p11: int, p12: int, p13: int, p14: int,
                   p20: int, p21: int, p22: int, p23: int, p24: int, p30: int, p31: int, p32: int, p33: int, p34: int,
                   p40: int, p41: int, p42: int, p43: int, p44: int) returns (k: int)
    ensures Value(Value(p00, p01, p02, p03, p04), Value(p10, p11, p12, p13, p14), Value(p20, p21, p22, p23, p24),
                  Value(p30, p31, p32, p33, p34), Value(p40, p41, p42, p43, p44))
         == Value(p00 + 5 * p14 + 5 * p23 + 5 * p32 + 5 * p41,
                  p01 + p10 + 5 * p24 + 5 * p33 + 5 * p42,
                  p02 + p11 + p20 + 5 * p34 + 5 * p43,
                  p03 + p12 + p21 + p30 + 5 * p44,
                  p04 + p13 + p22 + p31 + p40) + PRIME * k
  {
    k := p14 + p23 + p32 + p41 + B1 * (p24 + p33 + p42) + B2 * (p34 + p43) + B3 * p44;
  }

  lemma FiveTimes(h: int, r: int)
    ensures h * (5 * r) == 5 * (h * r)
  {
  }

  /** The coefficients the code computes are congruent to the product. */
  lemma FoldedProduct(h0: int, h1: int, h2: int, h3: int, h4: int, r0: int, r1: int, r2: int, r3: int, r4: int)
    ensures var d := Value(
        h0 * r0 + h1 * (5 * r4) + h2 * (5 * r3) + h3 * (5 * r2) + h4 * (5 * r1),
        h0 * r1 + h1 * r0 + h2 * (5 * r4) + h3 * (5 * r3) + h4 * (5 * r2),
        h0 * r2 + h1 * r1 + h2 * r0 + h3 * (5 * r4) + h4 * (5 * r3),
        h0 * r3 + h1 * r2 + h2 * r1 + h3 * r0 + h4 * (5 * r4),
        h0 * r4 + h1 * r3 + h2 * r2 + h3 * r1 + h4 * r0);
      d % PRIME == (Value(h0, h1, h2, h3, h4) * Value(r0, r1, r2, r3, r4)) % PRIME
  {
    var r := Value(r0, r1, r2, r3, r4);
    var k := FoldLinear(h0 * r0, h0 * r1, h0 * r2, h0 * r3, h0 * r4, h1 * r0, h1 * r1, h1 * r2, h1 * r3, h1 * r4,
                        h2 * r0, h2 * r1, h2 * r2, h2 * r3, h2 * r4, h3 * r0, h3 * r1, h3 * r2, h3 * r3, h3 * r4,
                        h4 * r0, h4 * r1, h4 * r2, h4 * r3, h4 * r4);
    FiveTimes(h1, r4); FiveTimes(h2, r3); FiveTimes(h3, r2); FiveTimes(h4, r1);
    FiveTimes(h2, r4); FiveTimes(h3, r3); FiveTimes(h4, r2);
    FiveTimes(h3, r4); FiveTimes(h4, r3); FiveTimes(h4, r4);
    var d := Value(
        h0 * r0 + h1 * (5 * r4) + h2 * (5 * r3) + h3 * (5 * r2) + h4 * (5 * r1),
        h0 * r1 + h1 * r0 + h2 * (5 * r4) + h3 * (5 * r3) + h4 * (5 * r2),
        h0 * r2 + h1 * r1 + h2 * r0 + h3 * (5 * r4) + h4 * (5 * r3),
        h0 * r3 + h1 * r2 + h2 * r1 + h3 * r0 + h4 * (5 * r4),
        h0 * r4 + h1 * r3 + h2 * r2 + h3 * r1 + h4 * r0);
    ProductOfValues(h0, h1, h2, h3, h4, r0, r1, r2, r3, r4);
    assert Value(h0, h1, h2, h3, h4) * r == d + PRIME * k;
    hide Value;
    Shift(d, k, PRIME);
  }

  lemma ProductOfValues(h0: int, h1: int, h2: int, h3: int, h4: int, r0: int, r1: int, r2: int, r3: int, r4: int)
    ensures Value(h0, h1, h2, h3, h4) * Value(r0, r1, r2, r3, r4) ==
            Value(Value(h0 * r0, h0 * r1, h0 * r2, h0 * r3, h0 * r4), Value(h1 * r0, h1 * r1, h1 * r2, h1 * r3, h1 * r4),
                  Value(h2 * r0, h2 * r1, h2 * r2, h2 * r3, h2 * r4), Value(h3 * r0, h3 * r1, h3 * r2, h3 * r3, h3 * r4),
                  Value(h4 * r0, h4 * r1, h4 * r2, h4 * r3, h4 * r4))
  {
    hide Value;
    var r := Value(r0, r1, r2, r3, r4);
    Distribute(h0, r0, r1, r2, r3, r4);
    Distribute(h1, r0, r1, r2, r3, r4);
    Distribute(h2, r0, r1, r2, r3, r4);
    Distribute(h3, r0, r1, r2, r3, r4);
    Distribute(h4, r0, r1, r2, r3, r4);
    Distribute(r, h0, h1, h2, h3, h4);
    assert r * h0 == h0 * r && r * h1 == h1 * r && r * h2 == h2 * r && r * h3 == h3 * r && r * h4 == h4 * r;
  }

  const LIMIT: int := 0x800_0000_0000_0000   // 2^59

  /** One coefficient of the product fits its 128-bit variable with room for a carry. */
  lemma CoefficientBound(h0: int, h1: int, h2: int, h3: int, h4: int, a: int, b: int, c: int, d: int, e: int)
    requires 0 <= h0 <= 2 * B1 + 0x400 && 0 <= h1 <= 2 * B1 + 0x400 && 0 <= h2 <= 2 * B1 + 0x400
    requires 0 <= h3 <= 2 * B1 + 0x400 && 0 <= h4 <= 2 * B1 + 0x400
    requires 0 <= a <= 5 * B1 && 0 <= b <= 5 * B1 && 0 <= c <= 5 * B1 && 0 <= d <= 5 * B1 && 0 <= e <= 5 * B1
    ensures 0 <= h0 * a + h1 * b + h2 * c + h3 * d + h4 * e < LIMIT
  {
    ProductBound(h0, a, 2 * B1 + 0x400, 5 * B1);
    ProductBound(h1, b, 2 * B1 + 0x400, 5 * B1);
    ProductBound(h2, c, 2 * B1 + 0x400, 5 * B1);
    ProductBound(h3, d, 2 * B1 + 0x400, 5 * B1);
    ProductBound(h4, e, 2 * B1 + 0x400, 5 * B1);
  }

  /** Carrying from limb to limb and folding the last carry back in keeps the value modulo the prime. */
  lemma CarryValue(d0: int, d1: int, d2: int, d3: int, d4: int, c0: int, c1: int, c2: int, c3: int, c4: int, c: int,
                   h0: int, h1: int, h2: int, h3: int, h4: int, k0: int)
    requires d0 == h0 + B1 * c0 && d1 + c0 == h1 + B1 * c1 && d2 + c1 == h2 + B1 * c2
    requires d3 + c2 == h3 + B1 * c3 && d4 + c3 == h4 + B1 * c4
    requires h0 + 5 * c4 == k0 + B1 * c
    ensures Value(k0, h1 + c, h2, h3, h4) % PRIME == Value(d0, d1, d2, d3, d4) % PRIME
  {
    assert Value(d0, d1, d2, d3, d4) == Value(k0, h1 + c, h2, h3, h4) + PRIME * c4;
    Shift(Value(k0, h1 + c, h2, h3, h4), c4, PRIME);
  }

  method Carry(d0: U128, d1: U128, d2: U128, d3: U128, d4: U128) returns (h0: U64, h1: U64, h2: U64, h3: U64, h4: U64)
    requires d0 < LIMIT && d1 < LIMIT && d2 < LIMIT && d3 < LIMIT && d4 < LIMIT
    ensures Loose(h0, h1, h2, h3, h4)
    ensures Value(h0, h1, h2, h3, h4) % PRIME == Value(d0, d1, d2, d3, d4) % PRIME
  {
    hide Value, Low26;
    var c0: U64 := d0 / B1;
    h0 := Low26(d0);
    ghost var l0 := h0;
    var e1: U128 := d1 + c0;
    var c1: U64 := e1 / B1;
    h1 := Low26(e1);
    ghost var l1 := h1;
    var e2: U128 := d2 + c1;
    var c2: U64 := e2 / B1;
    h2 := Low26(e2);
    var e3: U128 := d3 + c2;
    var c3: U64 := e3 / B1;
    h3 := Low26(e3);
    var e4: U128 := d4 + c3;
    var c4: U64 := e4 / B1;
    h4 := Low26(e4);
    h0 := h0 + c4 * 5;
    var c: U64 := h0 / B1;
    h0 := Low26(h0);
    h1 := h1 + c;
    CarryValue(d0, d1, d2, d3, d4, c0, c1, c2, c3, c4, c, l0, l1, h2, h3, h4, h0);
  }

  lemma ValueAdds(k0: int, k1: int, k2: int, k3: int, k4: int, b0: int, b1: int, b2: int, b3: int, b4: int)
    ensures Value(k0 + b0, k1 + b1, k2 + b2, k3 + b3, k4 + b4) == Value(k0, k1, k2, k3, k4) + Value(b0, b1, b2, b3, b4)
  {
  }

  /** Add a block to the accumulator and multiply by r. */
  method Step(k0: U64, k1: U64, k2: U64, k3: U64, k4: U64, r0: U64, r1: U64, r2: U64, r3: U64, r4: U64, block: seq<Byte>)
    returns (h0: U64, h1: U64, h2: U64, h3: U64, h4: U64)
    requires Loose(k0, k1, k2, k3, k4) && Reduced(r0, r1, r2, r3, r4)
    requires |block| == 17 && block[16] <= 1
    ensures Loose(h0, h1, h2, h3, h4)
    ensures Value(h0, h1, h2, h3, h4) % PRIME ==
            ((Value(k0, k1, k2, k3, k4) + LittleEndian(block)) * Value(r0, r1, r2, r3, r4)) % PRIME
  {
    hide LittleEndian, Value;
    var s1: U64, s2: U64, s3: U64, s4: U64 := r1 * 5, r2 * 5, r3 * 5, r4 * 5;
    var b0, b1, b2, b3, b4 := LoadLimbs(block);
    h0, h1, h2, h3, h4 := k0 + b0, k1 + b1, k2 + b2, k3 + b3, k4 + b4;
    ValueAdds(k0, k1, k2, k3, k4, b0, b1, b2, b3, b4);
    CoefficientBound(h0, h1, h2, h3, h4, r0, s4, s3, s2, s1);
    CoefficientBound(h0, h1, h2, h3, h4, r1, r0, s4, s3, s2);
    CoefficientBound(h0, h1, h2, h3, h4, r2, r1, r0, s4, s3);
    CoefficientBound(h0, h1, h2, h3, h4, r3, r2, r1, r0, s4);
    CoefficientBound(h0, h1, h2, h3, h4, r4, r3, r2, r1, r0);
    FoldedProduct(h0, h1, h2, h3, h4, r0, r1, r2, r3, r4);
    var d0: U128 := h0 * r0 + h1 * s4 + h2 * s3 + h3 * s2 + h4 * s1;
    var d1: U128 := h0 * r1 + h1 * r0 + h2 * s4 + h3 * s3 + h4 * s2;
    var d2: U128 := h0 * r2 + h1 * r1 + h2 * r0 + h3 * s4 + h4 * s3;
    var d3: U128 := h0 * r3 + h1 * r2 + h2 * r1 + h3 * r0 + h4 * s4;
    var d4: U128 := h0 * r4 + h1 * r3 + h2 * r2 + h3 * r1 + h4 * r0;
    h0, h1, h2, h3, h4 := Carry(d0, d1, d2, d3, d4);
  }

  // ---------- final reduction ----------

  /** `(a & !mask) | (b & mask)`: with the mask 0 it is a, with the mask of all ones b. */
  function Select(mask: U64, a: U64, b: U64): (r: U64)
    requires mask == 0 || mask == W64 - 1
    ensures r == if mask == 0 then a else b
  {
    Selected(a, b);
    Or(And(a, W64 - 1 - mask), And(b, mask))
  }

  lemma Selected(a: U64, b: U64)
    ensures Or(And(a, W64 - 1), And(b, 0)) == a && Or(And(a, 0), And(b, W64 - 1)) == b
  {
    hide And, Or;
    Masked(a);
    Masked(b);
    AndZero(a);
    AndZero(b);
    OrZero(a);
    OrZero(b);
  }

  lemma LimbsBelow(h0: int, h1: int, h2: int, h3: int, h4: int)
    requires Reduced(h0, h1, h2, h3, h4)
    ensures 0 <= Value(h0, h1, h2, h3, h4) < B5
  {
  }

  /** One carry out of the top leaves so little that nothing but the two low limbs is non-zero. */
  lemma OverflowIsSmall(k0: int, k1: int, k2: int, k3: int, k4: int, h0: int, h1: int, h2: int, h3: int, h4: int)
    requires Loose(k0, k1, k2, k3, k4) && Reduced(h0, h1, h2, h3, h4)
    requires Value(k0, k1, k2, k3, k4) == Value(h0, h1, h2, h3, h4) + B5
    ensures h1 < 0x400
  {
  }

  /** Carry the accumulator until every limb has 26 bits. */
  method Normalize(k0: U64, k1: U64, k2: U64, k3: U64, k4: U64) returns (h0: U64, h1: U64, h2: U64, h3: U64, h4: U64)
    requires Loose(k0, k1, k2, k3, k4)
    ensures Reduced(h0, h1, h2, h3, h4)
    ensures Value(h0, h1, h2, h3, h4) % PRIME == Value(k0, k1, k2, k3, k4) % PRIME
  {
    hide Value, Low26;
    h0, h1, h2, h3, h4 := k0, k1, k2, k3, k4;
    var c0: U64 := h0 / B1;
    h0 := Low26(h0);
    h1 := h1 + c0;
    var c1: U64 := h1 / B1;
    h1 := Low26(h1);
    h2 := h2 + c1;
    var c2: U64 := h2 / B1;
    h2 := Low26(h2);
    h3 := h3 + c2;
    var c3: U64 := h3 / B1;
    h3 := Low26(h3);
    h4 := h4 + c3;
    var c4: U64 := h4 / B1;
    h4 := Low26(h4);
    ghost var l0, l1 := h0, h1;
    h0 := h0 + c4 * 5;
    var c: U64 := h0 / B1;
    h0 := Low26(h0);
    h1 := h1 + c;
    CarryValue(k0, k1, k2, k3, k4, c0, c1, c2, c3, c4, c, l0, l1, h2, h3, h4, h0);
    if c4 != 0 {
      assert c4 == 1;
      CarriedValue(k0, k1, k2, k3, k4, c0, c1, c2, c3, c4, l0, l1, h2, h3, h4);
      OverflowIsSmall(k0, k1, k2, k3, k4, l0, l1, h2, h3, h4);
    }
  }

  lemma CarriedValue(d0: int, d1: int, d2: int, d3: int, d4: int, c0: int, c1: int, c2: int, c3: int, c4: int,
                     h0: int, h1: int, h2: int, h3: int, h4: int)
    requires d0 == h0 + B1 * c0 && d1 + c0 == h1 + B1 * c1 && d2 + c1 == h2 + B1 * c2
    requires d3 + c2 == h3 + B1 * c3 && d4 + c3 == h4 + B1 * c4
    ensures Value(d0, d1, d2, d3, d4) == Value(h0, h1, h2, h3, h4) + B5 * c4
  {
  }

  /** Add 5 and carry; the top limb keeps its carry. */
  method AddFive(k0: U64, k1: U64, k2: U64, k3: U64, k4: U64) returns (g0: U64, g1: U64, g2: U64, g3: U64, top: U64)
    requires Reduced(k0, k1, k2, k3, k4)
    ensures Reduced(g0, g1, g2, g3, 0) && top <= B1
    ensures Value(g0, g1, g2, g3, top) == Value(k0, k1, k2, k3, k4) + 5
  {
    hide Low26;
    g0 := (k0 + 5) % W64;
    var c0: U64 := g0 / B1;
    g0 := Low26(g0);
    g1 := (k1 + c0) % W64;
    var c1: U64 := g1 / B1;
    g1 := Low26(g1);
    g2 := (k2 + c1) % W64;
    var c2: U64 := g2 / B1;
    g2 := Low26(g2);
    g3 := (k3 + c2) % W64;
    var c3: U64 := g3 / B1;
    g3 := Low26(g3);
    top := (k4 + c3) % W64;
    CarriedValue(k0 + 5, k1, k2, k3, k4, c0, c1, c2, c3, 0, g0, g1, g2, g3, top);
  }

  /** The wrapped top limb after subtracting 2^130, and the mask its sign bit gives. */
  method SignMask(top: U64) returns (g4: U64, mask: U64)
    requires top <= B1
    ensures mask == if top < B1 then 0 else W64 - 1
    ensures top == B1 ==> g4 == 0
  {
    g4 := (top - B1) % W64;
    if top < B1 {
      Borrow(top, g4);
    }
    mask := (g4 / 0x8000_0000_0000_0000 - 1) % W64;
  }

  /** Five plus a number carries out of 130 bits exactly when the number has reached the prime. */
  lemma ReachedPrime(k: int, g0: int, g1: int, g2: int, g3: int, top: int)
    requires 0 <= k < B5 && Reduced(g0, g1, g2, g3, 0) && 0 <= top <= B1
    requires Value(g0, g1, g2, g3, top) == k + 5
    ensures k % PRIME == if top < B1 then k else Value(g0, g1, g2, g3, 0)
  {
    if top < B1 {
      LimbsBelow(g0, g1, g2, g3, top);
      Remainder(k, 0, k, PRIME);
    } else {
      LimbsBelow(g0, g1, g2, g3, 0);
      Remainder(k, 1, Value(g0, g1, g2, g3, 0), PRIME);
    }
  }

  /** Subtract the prime once if the accumulator has reached it. */
  method SubtractPrime(k0: U64, k1: U64, k2: U64, k3: U64, k4: U64) returns (h0: U64, h1: U64, h2: U64, h3: U64, h4: U64)
    requires Reduced(k0, k1, k2, k3, k4)
    ensures Reduced(h0, h1, h2, h3, h4)
    ensures Value(h0, h1, h2, h3, h4) == Value(k0, k1, k2, k3, k4) % PRIME
  {
    hide Value, Select, Low26;
    var g0, g1, g2, g3, top := AddFive(k0, k1, k2, k3, k4);
    var g4, mask := SignMask(top);
    LimbsBelow(k0, k1, k2, k3, k4);
    ReachedPrime(Value(k0, k1, k2, k3, k4), g0, g1, g2, g3, top);
    h0 := Low26(Select(mask, k0, g0));
    h1 := Low26(Select(mask, k1, g1));
    h2 := Low26(Select(mask, k2, g2));
    h3 := Low26(Select(mask, k3, g3));
    h4 := Low26(Select(mask, k4, (g4 + B1) % W64));
  }

  /** A wrapped subtraction below zero has its top bit set. */
  lemma Borrow(x: int, g: int)
    requires 0 <= x < B1 && g == (x - B1) % W64
    ensures g / 0x8000_0000_0000_0000 == 1
  {
    Remainder(x - B1, -1, x - B1 + W64, W64);
  }

  // ---------- the tag ----------

  /** The low 128 bits of the accumulator in two words. */
  method Pack(h0: U64, h1: U64, h2: U64, h3: U64, h4: U64) returns (low: U64, high: U64)
    requires Reduced(h0, h1, h2, h3, h4)
    ensures low + W64 * high == Value(h0, h1, h2, h3, h4) % W128
  {
    hide Join, Low32, Value;
    PackFields(h0, h1, h2, h3, h4);
    var f0 := Low32(Join(h0, h1, B1));
    var f1 := Low32(Join(h1 / 0x40, h2, 0x10_0000));
    var f2 := Low32(Join(h2 / 0x1000, h3, 0x4000));
    var f3 := Low32(Join(h3 / 0x4_0000, h4, 0x100));
    PackValue(h0, h1, h2, h3, h4, f0, f1, f2, f3);
    low := Join(f0, f1, 0x1_0000_0000);
    high := Join(f2, f3, 0x1_0000_0000);
  }

  /** The low 32 bits of each joined pair of limbs. */
  lemma PackFields(h0: int, h1: int, h2: int, h3: int, h4: int)
    requires Reduced(h0, h1, h2, h3, h4)
    ensures (h0 + h1 * B1) % 0x1_0000_0000 == h0 + B1 * (h1 % 0x40)
    ensures (h1 / 0x40 + h2 * 0x10_0000) % 0x1_0000_0000 == h1 / 0x40 + 0x10_0000 * (h2 % 0x1000)
    ensures (h2 / 0x1000 + h3 * 0x4000) % 0x1_0000_0000 == h2 / 0x1000 + 0x4000 * (h3 % 0x4_0000)
    ensures (h3 / 0x4_0000 + h4 * 0x100) % 0x1_0000_0000 == h3 / 0x4_0000 + 0x100 * (h4 % 0x100_0000)
  {
    Remainder(h0 + B1 * h1, h1 / 0x40, h0 + B1 * (h1 % 0x40), 0x1_0000_0000);
    Remainder(h1 / 0x40 + 0x10_0000 * h2, h2 / 0x1000, h1 / 0x40 + 0x10_0000 * (h2 % 0x1000), 0x1_0000_0000);
    Remainder(h2 / 0x1000 + 0x4000 * h3, h3 / 0x4_0000, h2 / 0x1000 + 0x4000 * (h3 % 0x4_0000), 0x1_0000_0000);
    Remainder(h3 / 0x4_0000 + 0x100 * h4, h4 / 0x100_0000, h3 / 0x4_0000 + 0x100 * (h4 % 0x100_0000), 0x1_0000_0000);
  }

  lemma PackValue(h0: int, h1: int, h2: int, h3: int, h4: int, f0: int, f1: int, f2: int, f3: int)
    requires Reduced(h0, h1, h2, h3, h4)
    requires f0 == h0 + B1 * (h1 % 0x40) && f1 == h1 / 0x40 + 0x10_0000 * (h2 % 0x1000)
    requires f2 == h2 / 0x1000 + 0x4000 * (h3 % 0x4_0000) && f3 == h3 / 0x4_0000 + 0x100 * (h4 % 0x100_0000)
    ensures f0 + 0x1_0000_0000 * f1 + W64 * (f2 + 0x1_0000_0000 * f3) == Value(h0, h1, h2, h3, h4) % W128
  {
    Remainder(Value(h0, h1, h2, h3, h4), h4 / 0x100_0000, f0 + 0x1_0000_0000 * f1 + W64 * (f2 + 0x1_0000_0000 * f3), W128);
  }

  /** Addition of two 128-bit numbers held in words, with the carry found by comparison. */
  method Add(low: U64, high: U64, s0: U64, s1: U64) returns (sumLow: U64, sumHigh: U64)
    ensures sumLow + W64 * sumHigh == (low + W64 * high + s0 + W64 * s1) % W128
  {
    sumLow := (low + s0) % W64;
    var carry: U64 := if sumLow < low then 1 else 0;
    sumHigh := ((high + s1) % W64 + carry) % W64;
    assert low + s0 == sumLow + W64 * carry;
    var q := (high + s1 + carry) / W64;
    assert sumHigh == (high + s1 + carry) % W64;
    Remainder(low + W64 * high + s0 + W64 * s1, q, sumLow + W64 * sumHigh, W128);
  }

  /** An eight-byte word read from the key. */
  method LoadWord(b: seq<Byte>) returns (w: U64)
    requires |b| == 8
    ensures w == LittleEndian(b)
  {
    var low, high := Word(b[0], b[1], b[2], b[3]), Word(b[4], b[5], b[6], b[7]);
    assert b[0..] == b && b[8..] == [];
    ThreeBytes(b, 0);
    TailStep(b, 3);
    ThreeBytes(b, 4);
    TailStep(b, 7);
    w := low + 0x1_0000_0000 * high;
  }

  /** Write the tag out. */
  method TagBytes(low: U64, high: U64) returns (tag: seq<Byte>)
    ensures |tag| == 16 && LittleEndian(tag) == low + W64 * high
  {
    tag := Bytes(low, 8) + Bytes(high, 8);
    FixedPowers();
    BytesDenote(low, 8);
    BytesDenote(high, 8);
    Joined(Bytes(low, 8), Bytes(high, 8));
  }

  /** The bytes of the clamp, least significant first. */
  const CLAMP_BYTES: seq<Byte> := [255, 255, 255, 15, 252, 255, 255, 15, 252, 255, 255, 15, 252, 255, 255, 15]

  lemma ClampNumber()
    ensures LittleEndian(CLAMP_BYTES) == CLAMP
  {
    hide LittleEndian;
    SixteenBytes(CLAMP_BYTES, 0x0FFF_FFFF, 0x0FFF_FFFC, 0x0FFF_FFFC, 0x0FFF_FFFC);
  }

  lemma SixteenBytes(b: seq<Byte>, w0: int, w1: int, w2: int, w3: int)
    requires |b| == 16
    requires w0 == Word(b[0], b[1], b[2], b[3]) && w1 == Word(b[4], b[5], b[6], b[7])
    requires w2 == Word(b[8], b[9], b[10], b[11]) && w3 == Word(b[12], b[13], b[14], b[15])
    ensures LittleEndian(b) == w0 + 0x1_0000_0000 * (w1 + 0x1_0000_0000 * (w2 + 0x1_0000_0000 * w3))
  {
    hide LittleEndian, Word;
    FourBytes(b, 0);
    FourBytes(b, 4);
    FourBytes(b, 8);
    FourBytes(b, 12);
    assert b[0..] == b && b[16..] == [];
    NoBytes();
  }

  lemma NoBytes()
    ensures LittleEndian([]) == 0
  {
  }

  lemma FourBytes(s: seq<Byte>, i: nat)
    requires i + 4 <= |s|
    ensures LittleEndian(s[i..]) == Word(s[i], s[i + 1], s[i + 2], s[i + 3]) + 0x1_0000_0000 * LittleEndian(s[i + 4..])
  {
    hide LittleEndian;
    TailStep(s, i);
    TailStep(s, i + 1);
    TailStep(s, i + 2);
    TailStep(s, i + 3);
  }

  /** Two byte strings, byte by byte. */
  function ByteAnd(s: seq<Byte>, m: seq<Byte>): (r: seq<Byte>)
    requires |s| == |m|
    ensures |r| == |s| && forall i :: 0 <= i < |s| ==> r[i] == And(s[i], m[i])
  {
    if s == [] then [] else AndBelow(s[0], m[0]); [And(s[0], m[0])] + ByteAnd(s[1..], m[1..])
  }

  /** Masking byte by byte masks the number. */
  lemma {:induction false} MaskedNumber(s: seq<Byte>, m: seq<Byte>)
    requires |s| == |m|
    ensures LittleEndian(ByteAnd(s, m)) == And(LittleEndian(s), LittleEndian(m))
  {
    hide And;
    if s == [] {
      AndZero(0);
    } else {
      MaskedNumber(s[1..], m[1..]);
      assert ByteAnd(s, m)[1..] == ByteAnd(s[1..], m[1..]);
      BytePower();
      AndParts(s[0], LittleEndian(s[1..]), m[0], LittleEndian(m[1..]), 256);
    }
  }

  lemma BytePower()
    ensures PowerOfTwo(16) && PowerOfTwo(64) && PowerOfTwo(256)
  {
    assert PowerOfTwo(2) && PowerOfTwo(4) && PowerOfTwo(8) && PowerOfTwo(32) && PowerOfTwo(128);
  }

  lemma ByteMasks()
    ensures forall x: Byte :: 0 <= And(x, 15) < 256 && 0 <= And(x, 252) < 256 && And(x, 255) == x
  {
    hide And;
    forall x: Byte
      ensures 0 <= And(x, 15) < 256 && 0 <= And(x, 252) < 256 && And(x, 255) == x
    {
      AndBelow(x, 15);
      AndBelow(x, 252);
      BytePower();
      MaskIsRemainder(x, 256);
    }
  }

  /** Clear the bits of r that must be clear, byte by byte in place. */
  method Clamp(key: seq<Byte>) returns (r: seq<Byte>)
    requires |key| == 32
    ensures |r| == 16 && LittleEndian(r) == And(LittleEndian(key[..16]), CLAMP)
  {
    hide And, LittleEndian;
    ByteMasks();
    r := key[..16];
    r := r[3 := And(r[3], 15)];
    r := r[7 := And(r[7], 15)];
    r := r[11 := And(r[11], 15)];
    r := r[15 := And(r[15], 15)];
    r := r[4 := And(r[4], 252)];
    r := r[8 := And(r[8], 252)];
    r := r[12 := And(r[12], 252)];
    MaskedNumber(key[..16], CLAMP_BYTES);
    ClampNumber();
    assert r == ByteAnd(key[..16], CLAMP_BYTES);
  }

  /** A block of the message: up to 16 bytes, a one byte, then zeros. */
  method LoadBlock(chunk: seq<Byte>) returns (block: seq<Byte>)
    requires 0 < |chunk| <= 16
    ensures |block| == 17 && block[16] <= 1
    ensures LittleEndian(block) == LittleEndian(chunk + [1])
  {
    block := chunk + [1] + seq(16 - |chunk|, _ => 0);
    PaddingIsZero(chunk + [1], 16 - |chunk|);
  }

  lemma AbsorbStep(value: nat, c: nat, r: nat)
    ensures ((value % PRIME + c) * r) % PRIME == ((value + c) * r) % PRIME
  {
    var q := value / PRIME;
    assert value + c == (value % PRIME + c) + PRIME * q;
    Shift(value % PRIME + c, q, PRIME);
    CongruentProduct(value % PRIME + c, value + c, r, PRIME);
  }

  /** Absorb the whole message, in chunks of at most 16 bytes, and reduce. */
  method Accumulate(message: seq<Byte>, r0: U64, r1: U64, r2: U64, r3: U64, r4: U64, ghost r: nat)
    returns (h0: U64, h1: U64, h2: U64, h3: U64, h4: U64)
    requires Reduced(r0, r1, r2, r3, r4) && Value(r0, r1, r2, r3, r4) == r
    ensures Reduced(h0, h1, h2, h3, h4) && Value(h0, h1, h2, h3, h4) == Absorb(message, r, 0)
  {
    hide Value, LittleEndian;
    h0, h1, h2, h3, h4 := 0, 0, 0, 0, 0;
    ZeroValue();
    var i := 0;
    assert message[0..] == message;
    while i < |message|
      invariant 0 <= i <= |message|
      invariant Loose(h0, h1, h2, h3, h4) && Value(h0, h1, h2, h3, h4) >= 0
      invariant Absorb(message[i..], r, Value(h0, h1, h2, h3, h4) % PRIME) == Absorb(message, r, 0)
    {
      var n := if |message| - i < 16 then |message| - i else 16;
      var block := LoadBlock(message[i..i + n]);
      AbsorbChunk(message, i, n, r, Value(h0, h1, h2, h3, h4));
      h0, h1, h2, h3, h4 := Step(h0, h1, h2, h3, h4, r0, r1, r2, r3, r4, block);
      LooseIsNat(h0, h1, h2, h3, h4);
      i := i + n;
    }
    assert message[i..] == [];
    h0, h1, h2, h3, h4 := Normalize(h0, h1, h2, h3, h4);
    h0, h1, h2, h3, h4 := SubtractPrime(h0, h1, h2, h3, h4);
  }

  /** Absorbing one chunk into an accumulator that is not reduced. */
  lemma AbsorbChunk(message: seq<Byte>, i: nat, n: nat, r: nat, value: nat)
    requires i < |message| && n == if |message| - i < 16 then |message| - i else 16
    ensures Absorb(message[i..], r, value % PRIME) ==
            Absorb(message[i + n..], r, ((value + LittleEndian(message[i..i + n] + [1])) * r) % PRIME)
  {
    hide LittleEndian;
    var rest := message[i..];
    assert rest[..n] == message[i..i + n] && rest[n..] == message[i + n..];
    AbsorbStep(value, LittleEndian(rest[..n] + [1]), r);
  }

  /** The whole computation: the tag is the MAC of section 2.5 of RFC 8439 for every message and key. */
  method Mac(message: seq<Byte>, key: seq<Byte>) returns (tag: seq<Byte>)
    requires |key| == 32
    ensures |tag| == 16
    ensures LittleEndian(tag) == Tag(message, key)
  {
    hide Value, LittleEndian, Absorb;
    var clamped := Clamp(key);
    PaddingIsZero(clamped, 1);
    assert clamped + seq(1, _ => 0) == clamped + [0];
    var r0, r1, r2, r3, r4 := LoadLimbs(clamped + [0]);
    var h0, h1, h2, h3, h4 := Accumulate(message, r0, r1, r2, r3, r4, LittleEndian(clamped));
    ghost var acc := Value(h0, h1, h2, h3, h4);
    var s0 := LoadWord(key[16..24]);
    var s1 := LoadWord(key[24..32]);
    Joined(key[16..24], key[24..32]);
    FixedPowers();
    assert key[16..] == key[16..24] + key[24..32];
    var low, high := Pack(h0, h1, h2, h3, h4);
    low, high := Add(low, high, s0, s1);
    Wrapped(acc, s0 + W64 * s1);
    tag := TagBytes(low, high);
  }

  lemma Wrapped(a: int, b: int)
    ensures (a % W128 + b) % W128 == (a + b) % W128
  {
    assert a + b == (a % W128 + b) + W128 * (a / W128);
    Shift(a % W128 + b, a / W128, W128);
  }

  lemma ZeroValue()
    ensures Value(0, 0, 0, 0, 0) == 0
  {
  }

  lemma LooseIsNat(h0: int, h1: int, h2: int, h3: int, h4: int)
    requires Loose(h0, h1, h2, h3, h4)
    ensures Value(h0, h1, h2, h3, h4) >= 0
  {
  }

  // ---------- the closed form ----------

  /** The numbers of the blocks of a message, each with a one byte appended. */
  function Blocks(message: seq<Byte>): seq<nat>
    decreases |message|
  {
    if message == [] then []
    else
      var n := if |message| < 16 then |message| else 16;
      [LittleEndian(message[..n] + [1])] + Blocks(message[n..])
  }

  function Exp(r: nat, n: nat): nat {
    if n == 0 then 1 else r * Exp(r, n - 1)
  }

  /** c[0] * r^q + c[1] * r^(q-1) + ... + c[q-1] * r, where q is the number of coefficients. */
  function Polynomial(c: seq<nat>, r: nat): nat {
    if c == [] then 0 else c[0] * Exp(r, |c|) + Polynomial(c[1..], r)
  }

  lemma {:induction false} AbsorbIsPolynomial(message: seq<Byte>, r: nat, acc: nat)
    requires acc < PRIME
    ensures Absorb(message, r, acc) == (acc * Exp(r, |Blocks(message)|) + Polynomial(Blocks(message), r)) % PRIME
    decreases |message|
  {
    var c := Blocks(message);
    if message != [] {
      var n := if |message| < 16 then |message| else 16;
      assert c[1..] == Blocks(message[n..]);
      var a := (acc + c[0]) * r;
      AbsorbIsPolynomial(message[n..], r, a % PRIME);
      var e, rest := Exp(r, |c| - 1), Polynomial(c[1..], r);
      CongruentProduct(a % PRIME, a, e, PRIME);
      SameSum((a % PRIME) * e, a * e, rest);
      Regroup(acc, c[0], r, e);
    }
  }

  lemma SameSum(a: int, b: int, c: int)
    requires a % PRIME == b % PRIME
    ensures (a + c) % PRIME == (b + c) % PRIME
  {
    assert a + c == (b + c) + PRIME * (a / PRIME - b / PRIME);
    Shift(b + c, a / PRIME - b / PRIME, PRIME);
  }

  lemma Regroup(acc: int, c: int, r: int, e: int)
    ensures ((acc + c) * r) * e == acc * (r * e) + c * (r * e)
  {
    assert ((acc + c) * r) * e == (acc + c) * (r * e);
  }

  /** The tag is a polynomial in the clamped r over the padded blocks, reduced, plus s. */
  lemma TagIsPolynomial(message: seq<Byte>, key: seq<Byte>)
    requires |key| == 32
    ensures Tag(message, key) ==
            (Polynomial(Blocks(message), And(LittleEndian(key[..16]), CLAMP)) % PRIME + LittleEndian(key[16..])) % W128
  {
    hide And;
    AbsorbIsPolynomial(message, And(LittleEndian(key[..16]), CLAMP), 0);
  }
}
