/**
  The two superblocks of the storage engine: their fixed on-disk layout, and recovery of the newest one
  that still passes its checksum. The checksum is an arbitrary deterministic function to 32 bytes.
*/
module Superblocks {

  import opened ByteOrder
  import opened Codecs
  import opened Common
  import opened ObjectHeaders

  const MAGIC: nat := 0x4741_5846_535F_5342

  datatype Superblock = Superblock(
    magic: nat,
    generation: nat,
    blockSize: nat,
    totalBlocks: nat,
    rootObject: seq<Byte>,
    journalStart: nat,
    journalCount: nat,
    checksum: seq<Byte>)

  /** What the field types of the source guarantee. */
  predicate Typed(sb: Superblock) {
    && sb.magic < Power(8) && sb.generation < Power(8) && sb.blockSize < Power(4) && sb.totalBlocks < Power(8)
    && |sb.rootObject| == 16 && sb.journalStart < Power(8) && sb.journalCount < Power(4)
  }

  /** The 56 bytes the checksum covers. */
  function Fields(sb: Superblock): (s: seq<Byte>)
    ensures |s| == 40 + |sb.rootObject|
  {
    Bytes(sb.magic, 8) + (Bytes(sb.generation, 8) + (Bytes(sb.blockSize, 4) + (Bytes(sb.totalBlocks, 8)
      + (sb.rootObject + (Bytes(sb.journalStart, 8) + Bytes(sb.journalCount, 4))))))
  }

  /** A new superblock carries the checksum of its fields. */
  function New(generation: nat, blockSize: nat, totalBlocks: nat, root: seq<Byte>, start: nat, count: nat, sum: Checksum)
    : (sb: Superblock)
    ensures sb == Superblock(MAGIC, generation, blockSize, totalBlocks, root, start, count, sum(Fields(sb)))
  {
    var sb := Superblock(MAGIC, generation, blockSize, totalBlocks, root, start, count, []);
    sb.(checksum := sum(Fields(sb)))
  }

  /** The block image: fields, checksum, zeros. */
  function Encoded(sb: Superblock, n: nat, sum: Checksum): seq<Byte>
    requires |Fields(sb)| + |sum(Fields(sb))| <= n
  {
    var f := Fields(sb);
    f + sum(f) + Zeros(n - |f| - |sum(f)|)
  }

  function Zeros(n: nat): (s: seq<Byte>)
    ensures |s| == n && forall i :: 0 <= i < n ==> s[i] == 0
  {
    seq(n, _ => 0)
  }

  function Decode(buf: seq<Byte>, sum: Checksum): Result<Superblock, CodecError> {
    if |buf| < 512 then Err(OutOfBounds)
    else if LittleEndian(buf[0..8]) != MAGIC then Err(ChecksumMismatch)
    else if sum(buf[0..56]) != buf[56..88] then Err(ChecksumMismatch)
    else Ok(Superblock(LittleEndian(buf[0..8]), LittleEndian(buf[8..16]), LittleEndian(buf[16..20]),
                       LittleEndian(buf[20..28]), buf[28..44], LittleEndian(buf[44..52]),
                       LittleEndian(buf[52..56]), buf[56..88]))
  }

  lemma FieldSlices(sb: Superblock)
    requires Typed(sb)
    ensures var f := Fields(sb);
      && f[0..8] == Bytes(sb.magic, 8) && f[8..16] == Bytes(sb.generation, 8) && f[16..20] == Bytes(sb.blockSize, 4)
      && f[20..28] == Bytes(sb.totalBlocks, 8) && f[28..44] == sb.rootObject
      && f[44..52] == Bytes(sb.journalStart, 8) && f[52..56] == Bytes(sb.journalCount, 4)
  {
    hide Bytes, Power;
    var a, b, c, d, e, f, g := Bytes(sb.magic, 8), Bytes(sb.generation, 8), Bytes(sb.blockSize, 4),
      Bytes(sb.totalBlocks, 8), sb.rootObject, Bytes(sb.journalStart, 8), Bytes(sb.journalCount, 4);
    SevenSlices(a, b, c, d, e, f, g);
  }

  lemma SevenSlices(a: seq<Byte>, b: seq<Byte>, c: seq<Byte>, d: seq<Byte>, e: seq<Byte>, f: seq<Byte>, g: seq<Byte>)
    requires |a| == 8 && |b| == 8 && |c| == 4 && |d| == 8 && |e| == 16 && |f| == 8 && |g| == 4
    ensures var s := a + (b + (c + (d + (e + (f + g)))));
      s[0..8] == a && s[8..16] == b && s[16..20] == c && s[20..28] == d && s[28..44] == e && s[44..52] == f && s[52..56] == g
  {
  }

  /** Reading a superblock that was written gives it back, with the checksum of its fields. */
  lemma RoundTrip(sb: Superblock, n: nat, sum: Checksum)
    requires Typed(sb) && sb.magic == MAGIC && n >= 512 && Digest(sum)
    ensures Decode(Encoded(sb, n, sum), sum) == Ok(sb.(checksum := sum(Fields(sb))))
  {
    FieldSlices(sb);
    BytesDenote(sb.magic, 8);
    BytesDenote(sb.generation, 8);
    BytesDenote(sb.blockSize, 4);
    BytesDenote(sb.totalBlocks, 8);
    BytesDenote(sb.journalStart, 8);
    BytesDenote(sb.journalCount, 4);
    hide Bytes, Power, LittleEndian, Fields;
    var f, buf := Fields(sb), Encoded(sb, n, sum);
    var rest := sum(f) + Zeros(n - 88);
    assert buf == f + rest;
    assert buf[0..56] == f && buf[56..88] == sum(f);
    InPrefix(f, rest, 0, 8);
    InPrefix(f, rest, 8, 16);
    InPrefix(f, rest, 16, 20);
    InPrefix(f, rest, 20, 28);
    InPrefix(f, rest, 28, 44);
    InPrefix(f, rest, 44, 52);
    InPrefix(f, rest, 52, 56);
  }

  lemma NewRoundTrip(sb: Superblock, n: nat, sum: Checksum)
    requires Typed(sb) && sb.magic == MAGIC && sb.checksum == sum(Fields(sb)) && n >= 512 && Digest(sum)
    ensures Decode(Encoded(sb, n, sum), sum) == Ok(sb)
  {
    RoundTrip(sb, n, sum);
  }

  lemma InPrefix(f: seq<Byte>, rest: seq<Byte>, i: nat, j: nat)
    requires i <= j <= |f|
    ensures (f + rest)[i..j] == f[i..j]
  {
  }

  /** Nothing is accepted but the fields of what is returned and their checksum. */
  lemma DecodedIsWritten(buf: seq<Byte>, sum: Checksum)
    requires Decode(buf, sum).Ok?
    ensures var sb := Decode(buf, sum).value;
      Typed(sb) && buf[0..56] == Fields(sb) && sb.checksum == sum(Fields(sb)) == buf[56..88]
  {
    NumberDenotes(buf[0..8]);
    NumberDenotes(buf[8..16]);
    NumberDenotes(buf[16..20]);
    NumberDenotes(buf[20..28]);
    NumberDenotes(buf[44..52]);
    NumberDenotes(buf[52..56]);
    hide Bytes, Power, LittleEndian;
    Rejoin(buf);
  }

  lemma Rejoin(s: seq<Byte>)
    requires |s| >= 56
    ensures s[0..56] == s[0..8] + (s[8..16] + (s[16..20] + (s[20..28] + (s[28..44] + (s[44..52] + s[52..56])))))
  {
    assert s[44..56] == s[44..52] + s[52..56];
    assert s[28..56] == s[28..44] + s[44..56];
    assert s[20..56] == s[20..28] + s[28..56];
    assert s[16..56] == s[16..20] + s[20..56];
    assert s[8..56] == s[8..16] + s[16..56];
  }

  // ---------- the code ----------

  /** Copy bytes into a zeroed buffer after the part already filled. */
  method CopyInto(buf: array<Byte>, ghost filled: seq<Byte>, from: nat, bytes: seq<Byte>)
    requires from == |filled| && from + |bytes| <= buf.Length
    requires buf[..] == filled + Zeros(buf.Length - from)
    modifies buf
    ensures buf[..] == filled + bytes + Zeros(buf.Length - from - |bytes|)
  {
    forall i | 0 <= i < |bytes| {
      buf[from + i] := bytes[i];
    }
  }

  method Serialize(sb: Superblock, buf: array<Byte>, sum: Checksum)
    requires buf.Length >= 512 && |sb.rootObject| == 16 && Digest(sum)
    modifies buf
    ensures buf[..] == Encoded(sb, buf.Length, sum)
  {
    hide Bytes, Zeros;
    forall i | 0 <= i < buf.Length {
      buf[i] := 0;
    }
    assert buf[..] == [] + Zeros(buf.Length);
    var a, b, c, d := Bytes(sb.magic, 8), Bytes(sb.generation, 8), Bytes(sb.blockSize, 4), Bytes(sb.totalBlocks, 8);
    var e, f, g := sb.rootObject, Bytes(sb.journalStart, 8), Bytes(sb.journalCount, 4);
    CopyInto(buf, [], 0, a);
    CopyInto(buf, [] + a, 8, b);
    CopyInto(buf, [] + a + b, 16, c);
    CopyInto(buf, [] + a + b + c, 20, d);
    CopyInto(buf, [] + a + b + c + d, 28, e);
    CopyInto(buf, [] + a + b + c + d + e, 44, f);
    CopyInto(buf, [] + a + b + c + d + e + f, 52, g);
    Associate(a, b, c, d, e, f, g);
    assert buf[..56] == Fields(sb);
    CopyInto(buf, Fields(sb), 56, sum(buf[..56]));
  }

  lemma Associate(a: seq<Byte>, b: seq<Byte>, c: seq<Byte>, d: seq<Byte>, e: seq<Byte>, f: seq<Byte>, g: seq<Byte>)
    ensures [] + a + b + c + d + e + f + g == a + (b + (c + (d + (e + (f + g)))))
  {
    assert [] + a == a;
    assert a + b + c == a + (b + c);
    assert a + (b + c) + d == a + (b + (c + d));
    assert a + (b + (c + d)) + e == a + (b + (c + (d + e)));
    assert a + (b + (c + (d + e))) + f == a + (b + (c + (d + (e + f))));
    assert a + (b + (c + (d + (e + f)))) + g == a + (b + (c + (d + (e + (f + g)))));
  }

  datatype Manager = Manager(active: Superblock, index: nat)

  /** The newest superblock that decodes; block 0 wins a tie. */
  function RecoverActive(buf0: seq<Byte>, buf1: seq<Byte>, sum: Checksum): (r: Result<Manager, CodecError>)
    ensures r.Err? <==> Decode(buf0, sum).Err? && Decode(buf1, sum).Err?
    ensures r.Ok? ==> r.value.index < 2 && Ok(r.value.active) == Decode(if r.value.index == 0 then buf0 else buf1, sum)
    ensures r.Ok? && Decode(buf0, sum).Ok? ==> Decode(buf0, sum).value.generation <= r.value.active.generation
    ensures r.Ok? && Decode(buf1, sum).Ok? ==> Decode(buf1, sum).value.generation <= r.value.active.generation
    ensures r.Ok? && r.value.index == 1 && Decode(buf0, sum).Ok? ==>
              Decode(buf0, sum).value.generation < r.value.active.generation
  {
    match (Decode(buf0, sum), Decode(buf1, sum))
    case (Ok(sb0), Ok(sb1)) => if sb1.generation > sb0.generation then Ok(Manager(sb1, 1)) else Ok(Manager(sb0, 0))
    case (Ok(sb0), Err(_)) => Ok(Manager(sb0, 0))
    case (Err(_), Ok(sb1)) => Ok(Manager(sb1, 1))
    case (Err(_), Err(_)) => Err(ChecksumMismatch)
  }
}
