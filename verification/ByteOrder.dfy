/** Bytes and the little-endian numbers they spell. */
module ByteOrder {

  type Byte = x: int | 0 <= x < 256

  /** The number a byte string denotes, least significant byte first. */
  function LittleEndian(s: seq<Byte>): nat {
    if s == [] then 0 else s[0] + 256 * LittleEndian(s[1..])
  }

  /** The n low bytes of x, least significant first. */
  function Bytes(x: nat, n: nat): (s: seq<Byte>)
    ensures |s| == n
  {
    if n == 0 then [] else [x % 256] + Bytes(x / 256, n - 1)
  }

  function Power(n: nat): int {
    if n == 0 then 1 else 256 * Power(n - 1)
  }

  lemma {:induction false} BytesDenote(x: nat, n: nat)
    requires x < Power(n)
    ensures LittleEndian(Bytes(x, n)) == x
  {
    if n > 0 {
      assert Bytes(x, n)[1..] == Bytes(x / 256, n - 1);
      BytesDenote(x / 256, n - 1);
    }
  }

  lemma {:induction false} Joined(a: seq<Byte>, b: seq<Byte>)
    ensures LittleEndian(a + b) == LittleEndian(a) + Power(|a|) * LittleEndian(b)
  {
    if a == [] {
      assert a + b == b;
    } else {
      assert (a + b)[1..] == a[1..] + b;
      Joined(a[1..], b);
      var x, p := LittleEndian(b), Power(|a| - 1);
      assert 256 * (p * x) == (256 * p) * x;
    }
  }

  lemma FixedPowers()
    ensures Power(2) == 0x1_0000 && Power(4) == 0x1_0000_0000 && Power(8) == 0x1_0000_0000_0000_0000
  {
    assert Power(2) == 0x1_0000;
    assert Power(4) == 0x1_0000_0000;
    assert Power(6) == 0x1_0000_0000_0000;
  }

  /** A string of n bytes spells a number below 256^n, and is that number's string. */
  lemma {:induction false} NumberDenotes(s: seq<Byte>)
    ensures LittleEndian(s) < Power(|s|) && Bytes(LittleEndian(s), |s|) == s
  {
    if s != [] {
      NumberDenotes(s[1..]);
      assert LittleEndian(s) % 256 == s[0] && LittleEndian(s) / 256 == LittleEndian(s[1..]);
      assert s == [s[0]] + s[1..];
    }
  }
}
