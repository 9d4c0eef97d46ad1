/** Single bits of a 64-bit word. */
module Bits {

  /** 1 shifted left by i, one place at a time. */
  function Mask(i: nat): bv64 {
    if i == 0 then 1 else Doubled(Mask(i - 1))
  }

  function Doubled(m: bv64): bv64 {
    m << 1
  }

  predicate Apart(m: bv64, n: bv64) {
    m & n == 0
  }

  predicate Meets(w: bv64, m: bv64) {
    w & m != 0
  }

  function Join(w: bv64, m: bv64): bv64 {
    w | m
  }

  function Both(v: bv64, w: bv64): bv64 {
    v & w
  }

  function Remove(w: bv64, m: bv64): bv64 {
    w & !m
  }

  lemma WordFacts(w: bv64, m: bv64)
    ensures m != 0 ==> Meets(Join(w, m), m)
    ensures !Meets(Remove(w, m), m)
  {
  }

  lemma JoinFrame(w: bv64, m: bv64, n: bv64)
    requires Apart(m, n)
    ensures Meets(Join(w, m), n) == Meets(w, n)
  {
  }

  lemma RemoveFrame(w: bv64, m: bv64, n: bv64)
    requires Apart(m, n)
    ensures Meets(Remove(w, m), n) == Meets(w, n)
  {
  }

  lemma ApartFacts(x: bv64, y: bv64)
    ensures Apart(1, Doubled(x))
    ensures Apart(x, y) ==> Apart(Doubled(x), Doubled(y)) && Apart(y, x)
  {
  }

  lemma {:induction false} MaskApart(i: nat, j: nat)
    requires i < j
    ensures Apart(Mask(i), Mask(j)) && Apart(Mask(j), Mask(i))
  {
    hide Apart, Doubled;
    if i == 0 {
      ApartFacts(Mask(j - 1), 0);
    } else {
      MaskApart(i - 1, j - 1);
      ApartFacts(Mask(i - 1), Mask(j - 1));
    }
    ApartFacts(Mask(i), Mask(j));
  }

  /** Doubling keeps the top bit of a word away until the 63rd time. */
  lemma {:induction false} MaskValue(i: nat)
    requires i < 64
    ensures Mask(i) != 0
    decreases 64 - i
  {
    hide Doubled;
    if i == 63 {
      TopMask();
    } else {
      MaskValue(i + 1);
      DoubledZero();
    }
  }

  lemma DoubledZero()
    ensures Doubled(0) == 0
  {
  }

  lemma TopMask()
    ensures Mask(63) != 0
  {
    assert Mask(0) == 1;
    assert Mask(8) == 0x100;
    assert Mask(16) == 0x1_0000;
    assert Mask(24) == 0x100_0000;
    assert Mask(32) == 0x1_0000_0000;
    assert Mask(40) == 0x100_0000_0000;
    assert Mask(48) == 0x1_0000_0000_0000;
    assert Mask(56) == 0x100_0000_0000_0000;
  }

  predicate BitOf(w: bv64, i: nat) {
    Meets(w, Mask(i))
  }

  function WithBit(w: bv64, i: nat, on: bool): (v: bv64)
    requires i < 64
    ensures forall j: nat :: j < 64 ==> BitOf(v, j) == if j == i then on else BitOf(w, j)
  {
    var v := if on then Join(w, Mask(i)) else Remove(w, Mask(i));
    WithBitSound(w, i, on, v);
    v
  }

  lemma WithBitSound(w: bv64, i: nat, on: bool, v: bv64)
    requires i < 64 && v == if on then Join(w, Mask(i)) else Remove(w, Mask(i))
    ensures forall j: nat :: j < 64 ==> BitOf(v, j) == if j == i then on else BitOf(w, j)
  {
    hide Mask, Meets, Join, Remove, Apart;
    MaskValue(i);
    WordFacts(w, Mask(i));
    forall j: nat | j < 64 ensures BitOf(v, j) == if j == i then on else BitOf(w, j) {
      if j < i {
        MaskApart(j, i);
        JoinFrame(w, Mask(i), Mask(j));
        RemoveFrame(w, Mask(i), Mask(j));
      } else if i < j {
        MaskApart(i, j);
        JoinFrame(w, Mask(i), Mask(j));
        RemoveFrame(w, Mask(i), Mask(j));
      }
    }
  }

  lemma NoBits(i: nat)
    ensures !BitOf(0, i)
  {
    NoBitsWord(Mask(i));
    hide Meets;
  }

  lemma NoBitsWord(m: bv64)
    ensures !Meets(0, m)
  {
  }

  /** The n low bits. */
  function Low(n: nat): bv64 {
    if n == 0 then 0 else Join(Low(n - 1), Mask(n - 1))
  }

  lemma {:induction false} NoneBelow(w: bv64, n: nat)
    requires forall i: nat :: i < n ==> !BitOf(w, i)
    ensures !Meets(w, Low(n))
  {
    hide Meets, Join;
    if n == 0 {
      NothingMeets(w);
    } else {
      NoneBelow(w, n - 1);
      assert !BitOf(w, n - 1);
      MeetsJoin(w, Low(n - 1), Mask(n - 1));
    }
  }

  lemma NothingMeets(w: bv64)
    ensures !Meets(w, 0)
  {
  }

  lemma MeetsJoin(w: bv64, m: bv64, n: bv64)
    requires !Meets(w, m) && !Meets(w, n)
    ensures !Meets(w, Join(m, n))
  {
  }

  lemma AllLow()
    ensures Low(64) == 0xFFFF_FFFF_FFFF_FFFF && Low(32) == 0xFFFF_FFFF
  {
    assert Mask(8) == 0x100;
    assert Mask(16) == 0x1_0000;
    assert Mask(24) == 0x100_0000;
    assert Mask(32) == 0x1_0000_0000;
    assert Mask(40) == 0x100_0000_0000;
    assert Mask(48) == 0x1_0000_0000_0000;
    assert Mask(56) == 0x100_0000_0000_0000;
    assert Low(8) == 0xFF;
    assert Low(16) == 0xFFFF;
    assert Low(24) == 0xFF_FFFF;
    assert Low(32) == 0xFFFF_FFFF;
    assert Low(40) == 0xFF_FFFF_FFFF;
    assert Low(48) == 0xFFFF_FFFF_FFFF;
    assert Low(56) == 0xFF_FFFF_FFFF_FFFF;
  }

  /** A word without bits is zero. */
  lemma ZeroIffNoBits(w: bv64)
    ensures w == 0 <==> forall i: nat :: i < 64 ==> !BitOf(w, i)
  {
    if w == 0 {
      forall i: nat | i < 64 ensures !BitOf(w, i) {
        NoBits(i);
      }
    }
    if forall i: nat :: i < 64 ==> !BitOf(w, i) {
      hide Low, BitOf;
      NoneBelow(w, 64);
      AllLow();
      MeetsAll(w);
    }
  }

  /** The same for words of 32 bits. */
  lemma ZeroIffNoLowBits(w: bv64)
    requires w <= 0xFFFF_FFFF
    ensures w == 0 <==> forall i: nat :: i < 32 ==> !BitOf(w, i)
  {
    hide Low, BitOf;
    if w == 0 {
      ZeroIffNoBits(w);
    } else if forall i: nat :: i < 32 ==> !BitOf(w, i) {
      NoneBelow(w, 32);
      AllLow();
      MeetsHalf(w);
    }
  }

  lemma MeetsAll(w: bv64)
    ensures Meets(w, 0xFFFF_FFFF_FFFF_FFFF) <==> w != 0
  {
  }

  lemma MeetsHalf(w: bv64)
    requires w <= 0xFFFF_FFFF
    ensures Meets(w, 0xFFFF_FFFF) <==> w != 0
  {
  }

  /** A mask has one bit: a word that meets it holds all of it. */
  lemma {:induction false} OneBit(i: nat)
    ensures Single(Mask(i))
  {
    hide Single, Doubled;
    if i == 0 {
      SingleOne();
    } else {
      OneBit(i - 1);
      SingleDoubled(Mask(i - 1));
    }
  }

  predicate Single(m: bv64) {
    m & (m - 1) == 0
  }

  lemma SingleOne()
    ensures Single(1)
  {
  }

  lemma SingleDoubled(m: bv64)
    requires Single(m)
    ensures Single(Doubled(m))
  {
  }

  /** What bit i of a combination is. */
  lemma BitwiseAt(v: bv64, w: bv64, i: nat)
    ensures BitOf(Both(v, w), i) <==> BitOf(v, i) && BitOf(w, i)
    ensures BitOf(Join(v, w), i) <==> BitOf(v, i) || BitOf(w, i)
    ensures BitOf(Remove(v, w), i) <==> BitOf(v, i) && !BitOf(w, i)
  {
    hide Mask, Meets, Single, Both, Join, Remove;
    OneBit(i);
    BitwiseMask(v, w, Mask(i));
  }

  lemma BitwiseMask(v: bv64, w: bv64, m: bv64)
    requires Single(m)
    ensures Meets(Both(v, w), m) <==> Meets(v, m) && Meets(w, m)
    ensures Meets(Join(v, w), m) <==> Meets(v, m) || Meets(w, m)
    ensures Meets(Remove(v, w), m) <==> Meets(v, m) && !Meets(w, m)
  {
    hide Single, Meets, Both, Join, Remove;
    WholeMask(v, m);
    WholeMask(w, m);
    BothMask(v, w, m);
    OnlyMask(v, w, m);
    EitherMask(v, w, m);
  }

  lemma WholeMask(w: bv64, m: bv64)
    requires Single(m)
    ensures w & m == 0 || w & m == m
  {
  }

  lemma BothMask(v: bv64, w: bv64, m: bv64)
    requires (v & m == 0 || v & m == m) && (w & m == 0 || w & m == m)
    ensures Meets(Both(v, w), m) <==> Meets(v, m) && Meets(w, m)
  {
    assert (v & w) & m == (v & m) & (w & m);
  }

  lemma OnlyMask(v: bv64, w: bv64, m: bv64)
    requires (v & m == 0 || v & m == m) && (w & m == 0 || w & m == m)
    ensures Meets(Remove(v, w), m) <==> Meets(v, m) && !Meets(w, m)
  {
    assert (v & !w) & m == (v & m) & !(w & m);
  }

  lemma EitherMask(v: bv64, w: bv64, m: bv64)
    requires (v & m == 0 || v & m == m) && (w & m == 0 || w & m == m)
    ensures Meets(Join(v, w), m) <==> Meets(v, m) || Meets(w, m)
  {
    assert (v | w) & m == (v & m) | (w & m);
  }
}
