/**
  The storage engine over a block device. Device calls may fail at any point: a failed write leaves each
  block it was given unchanged, written, or torn, where a torn block does not decode as a superblock. A
  crash is a call that fails and is followed by a mount, so what holds after every failed call is what
  recovery finds. What a write leaves behind is what the next reads see, flushed or not: losing unflushed
  writes is not modelled, but a commit that succeeds has flushed everything before it.
*/
module Storage {

  import opened Arithmetic
  import opened ByteOrder
  import opened Codecs
  import opened Common
  import opened Extents
  import opened ObjectHeaders
  import Superblocks

  type Block = seq<Byte>

  /** Generations of a superblock are 64-bit numbers. */
  const GENERATIONS: nat := 0x1_0000_0000_0000_0000

  // ---------- blocks and bytes ----------

  function Flatten(bs: seq<Block>): seq<Byte> {
    if bs == [] then [] else bs[0] + Flatten(bs[1..])
  }

  /** data cut into blocks of `size` bytes; a shorter tail is dropped. */
  function Cut(data: seq<Byte>, size: nat): (bs: seq<Block>)
    requires size > 0
    ensures forall b :: b in bs ==> |b| == size
    decreases |data|
  {
    if |data| < size then [] else [data[..size]] + Cut(data[size..], size)
  }

  lemma {:induction false} CutFlatten(data: seq<Byte>, size: nat, n: nat)
    requires size > 0 && |data| == n * size
    ensures |Cut(data, size)| == n && Flatten(Cut(data, size)) == data
    decreases n
  {
    if n > 0 {
      assert n * size == (n - 1) * size + size;
      CutFlatten(data[size..], size, n - 1);
      assert Cut(data, size)[1..] == Cut(data[size..], size);
      assert data == data[..size] + data[size..];
    }
  }

  /** Number of blocks needed for n bytes, before the count is cut to 32 bits. */
  function CeilDiv(n: nat, size: nat): nat
    requires size > 0
  {
    (n + size - 1) / size
  }

  lemma CeilDivBounds(n: nat, size: nat)
    requires size > 0
    ensures n <= CeilDiv(n, size) * size < n + size
  {
    var q, r := (n + size - 1) / size, (n + size - 1) % size;
    assert n + size - 1 == size * q + r;
    assert q * size == size * q;
  }

  /** The count kept in 32 bits. */
  function Blocks(n: nat, size: nat): nat
    requires size > 0
  {
    CeilDiv(n, size) % U32_SPAN
  }

  /** Extend with zeros or truncate to n bytes. */
  function Resize(data: seq<Byte>, n: nat): (r: seq<Byte>)
    ensures |r| == n
    ensures forall i :: 0 <= i < n ==> r[i] == if i < |data| then data[i] else 0
  {
    if |data| < n then data + seq(n - |data|, _ => 0) else data[..n]
  }

  /** The n blocks' worth of bytes that are written for some data. */
  function Image(data: seq<Byte>, n: nat, size: nat): (r: seq<Byte>)
    ensures |r| == n * size
  {
    Resize(data, n * size)
  }

  function Take(data: seq<Byte>, n: nat): (r: seq<Byte>)
    ensures |r| <= n && r <= data
  {
    if |data| <= n then data else data[..n]
  }

  /** The part of a payload that reaches the device: all of it unless the block count overflows 32 bits. */
  function Kept(payload: seq<Byte>, size: nat): seq<Byte>
    requires size > 0
  {
    Take(payload, Blocks(|payload|, size) * size)
  }

  lemma KeptIffCounted(payload: seq<Byte>, size: nat)
    requires size > 0
    ensures Kept(payload, size) == payload <==> CeilDiv(|payload|, size) < U32_SPAN
  {
    var c, n := CeilDiv(|payload|, size), Blocks(|payload|, size);
    CeilDivBounds(|payload|, size);
    if c < U32_SPAN {
      assert n == c;
    } else {
      assert n <= c - 1;
      MultipleMonotone(size, n, c - 1);
      assert size * (c - 1) == c * size - size;
      assert n * size == size * n;
    }
  }

  /** Writing the resized payload and reading it back truncated gives the part that was kept. */
  lemma KeptReadBack(payload: seq<Byte>, size: nat)
    requires size > 0
    ensures Take(Image(payload, Blocks(|payload|, size), size), |payload|) == Kept(payload, size)
  {
  }

  // ---------- the device ----------

  /** One block after a failed write: as before, as intended, or torn. */
  predicate Torn(before: Block, intended: Block, after: Block, sum: Checksum) {
    after == before || after == intended || Superblocks.Decode(after, sum).Err?
  }

  /** What a write of `data` at `start` may leave behind. */
  ghost predicate AfterWrite(before: seq<Block>, after: seq<Block>, start: nat, data: seq<Block>, ok: bool, sum: Checksum) {
    && |after| == |before| && start + |data| <= |before|
    && (forall b :: 0 <= b < |before| && !(start <= b < start + |data|) ==> after[b] == before[b])
    && (forall i :: 0 <= i < |data| ==>
          if ok then after[start + i] == data[i] else Torn(before[start + i], data[i], after[start + i], sum))
  }

  class Device {

    const blockSize: nat
    const totalBlocks: nat
    const reliable: bool   // no call in range fails
    var blocks: seq<Block>
    ghost var durable: seq<Block>   // what the last flush that succeeded left on the device

    ghost predicate Valid()
      reads this`blocks
    {
      && blockSize < Power(4) && totalBlocks < Power(8)
      && |blocks| == totalBlocks && forall b :: 0 <= b < |blocks| ==> |blocks[b]| == blockSize
    }

    /** Read n blocks, unless they are out of range or the device fails. */
    method ReadBlocks(start: nat, n: nat) returns (r: Result<seq<Byte>, CodecError>)
      requires Valid()
      ensures r.Ok? ==> start + n <= totalBlocks && r.value == Flatten(blocks[start..start + n])
      ensures reliable && start + n <= totalBlocks ==> r.Ok?
    {
      var failed: bool := *;
      if (failed && !reliable) || start + n > totalBlocks {
        return Err(OutOfBounds);
      }
      r := Ok(Flatten(blocks[start..start + n]));
    }

    /** Write whole blocks, or fail half-way through. */
    method WriteBlocks(start: nat, data: seq<Block>, sum: Checksum) returns (ok: bool)
      requires Valid() && forall d :: d in data ==> |d| == blockSize
      modifies this`blocks
      ensures Valid()
      ensures start + |data| > totalBlocks ==> !ok && blocks == old(blocks)
      ensures start + |data| <= totalBlocks ==> AfterWrite(old(blocks), blocks, start, data, ok, sum)
      ensures reliable && start + |data| <= totalBlocks ==> ok
    {
      if start + |data| > totalBlocks {
        return false;
      }
      ok := *;
      ok := ok || reliable;
      var i := 0;
      while i < |data|
        invariant 0 <= i <= |data| && |blocks| == totalBlocks
        invariant forall b :: 0 <= b < |blocks| ==> |blocks[b]| == blockSize
        invariant forall b :: 0 <= b < |blocks| && !(start <= b < start + i) ==> blocks[b] == old(blocks)[b]
        invariant forall k :: 0 <= k < i ==>
          if ok then blocks[start + k] == data[k] else Torn(old(blocks)[start + k], data[k], blocks[start + k], sum)
      {
        var reached: bool, noise: Block := *, *;
        if ok || reached {
          blocks := blocks[start + i := data[i]];
        } else if |noise| == blockSize && Superblocks.Decode(noise, sum).Err? {
          blocks := blocks[start + i := noise];
        }
        i := i + 1;
      }
    }

    /** Flush: success means that everything written so far is durable. */
    method FlushCache() returns (ok: bool)
      modifies this`durable
      ensures durable == (if ok then blocks else old(durable)) && (reliable ==> ok)
    {
      ok := *;
      ok := ok || reliable;
      if ok {
        durable := blocks;
      }
    }
  }

  // ---------- objects ----------

  datatype Stored = Stored(header: Header, payload: seq<Byte>)

  function Gather(blocks: seq<Block>, es: seq<Extent>): seq<Byte> {
    if es == [] then []
    else (if es[0].startBlock + es[0].numBlocks <= |blocks|
          then Flatten(blocks[es[0].startBlock..es[0].startBlock + es[0].numBlocks]) else [])
         + Gather(blocks, es[1..])
  }

  ghost predicate OnDevice(es: seq<Extent>, total: nat) {
    forall e :: e in es ==> e.startBlock + e.numBlocks <= total
  }

  /** What reading an object yields on a given device. */
  function Contents(blocks: seq<Block>, h: Header): seq<Byte> {
    Take(Gather(blocks, h.extents), h.payloadSize)
  }

  /** Every block of the extent exists and is marked allocated. */
  ghost predicate Owned(e: Extent, words: seq<bv64>, total: nat) {
    e.startBlock + e.numBlocks <= total &&
    forall b: nat :: e.startBlock <= b < e.startBlock + e.numBlocks ==> Marked(words, b)
  }

  predicate DisjointExtents(d: Extent, e: Extent) {
    d.startBlock + d.numBlocks <= e.startBlock || e.startBlock + e.numBlocks <= d.startBlock
  }

  ghost predicate ObjectOk(o: Stored, blocks: seq<Block>, words: seq<bv64>) {
    && (forall e :: e in o.header.extents ==> e.startBlock >= 2 && Owned(e, words, |blocks|))
    && Contents(blocks, o.header) == o.payload
  }

  lemma GatherNothing(blocks: seq<Block>)
    ensures Gather(blocks, []) == []
  {
  }

  lemma GatherNext(blocks: seq<Block>, es: seq<Extent>, i: nat)
    requires i < |es| && es[i].startBlock + es[i].numBlocks <= |blocks|
    ensures Gather(blocks, es[i..]) ==
      Flatten(blocks[es[i].startBlock..es[i].startBlock + es[i].numBlocks]) + Gather(blocks, es[i + 1..])
  {
    hide Flatten, Gather;
    GatherFirst(blocks, es[i..]);
    assert es[i..][1..] == es[i + 1..];
  }

  lemma GatherFirst(blocks: seq<Block>, es: seq<Extent>)
    requires es != [] && es[0].startBlock + es[0].numBlocks <= |blocks|
    ensures Gather(blocks, es) ==
      Flatten(blocks[es[0].startBlock..es[0].startBlock + es[0].numBlocks]) + Gather(blocks, es[1..])
  {
    hide Flatten;
  }

  lemma StoredReadable(objects: seq<Stored>, blocks: seq<Block>, words: seq<bv64>)
    requires forall o :: o in objects ==> ObjectOk(o, blocks, words)
    ensures forall o :: o in objects ==> OnDevice(o.header.extents, |blocks|) && Contents(blocks, o.header) == o.payload
  {
    hide Marked, Contents;
    forall o | o in objects ensures OnDevice(o.header.extents, |blocks|) {
      assert ObjectOk(o, blocks, words);
      assert forall e :: e in o.header.extents ==> Owned(e, words, |blocks|);
    }
  }

  lemma {:induction false} GatherSame(before: seq<Block>, after: seq<Block>, es: seq<Extent>)
    requires |before| == |after|
    requires forall e, b :: e in es && e.startBlock <= b < e.startBlock + e.numBlocks && 0 <= b < |before| ==> before[b] == after[b]
    ensures Gather(before, es) == Gather(after, es)
  {
    if es != [] {
      GatherSame(before, after, es[1..]);
      var e := es[0];
      if e.startBlock + e.numBlocks <= |before| {
        assert before[e.startBlock..e.startBlock + e.numBlocks] == after[e.startBlock..e.startBlock + e.numBlocks];
      }
    }
  }

  /** Marks may grow and unmarked blocks may change: a stored object stays readable. */
  lemma ObjectKept(o: Stored, before: seq<Block>, after: seq<Block>, words: seq<bv64>, marked: seq<bv64>)
    requires ObjectOk(o, before, words) && |before| == |after|
    requires forall b: nat :: Marked(words, b) ==> Marked(marked, b)
    requires forall b: nat :: b < |before| && Marked(words, b) ==> after[b] == before[b]
    ensures ObjectOk(o, after, marked)
  {
    hide Marked;
    forall e | e in o.header.extents ensures Owned(e, marked, |after|) {
      assert Owned(e, words, |before|);
    }
    forall e, b: nat | e in o.header.extents && e.startBlock <= b < e.startBlock + e.numBlocks && b < |before|
      ensures before[b] == after[b]
    {
      assert Owned(e, words, |before|);
    }
    GatherSame(before, after, o.header.extents);
  }

  // ---------- superblocks on the device ----------

  /** sb loses to the active superblock in recovery. */
  predicate Older(sb: Superblocks.Superblock, m: Superblocks.Manager) {
    sb.generation < m.active.generation || (m.index == 0 && sb.generation == m.active.generation)
  }

  /**
    The active superblock is on the device. The other block does not decode, holds an older superblock, or
    holds the next generation from a commit that reached the device and then reported failure.
  */
  predicate SuperOk(b0: Block, b1: Block, m: Superblocks.Manager, pending: Option<Superblocks.Superblock>, sum: Checksum) {
    && m.index < 2
    && Superblocks.Decode(if m.index == 0 then b0 else b1, sum) == Ok(m.active)
    && match Superblocks.Decode(if m.index == 0 then b1 else b0, sum)
       case Err(_) => true
       case Ok(sb) => Older(sb, m) || (pending == Some(sb) && sb.generation == m.active.generation + 1)
  }

  /** Recovery finds the last committed generation, or the next one if its commit was cut short after reaching the device. */
  lemma RecoveredIsKnown(b0: Block, b1: Block, m: Superblocks.Manager, pending: Option<Superblocks.Superblock>, sum: Checksum)
    requires SuperOk(b0, b1, m, pending, sum)
    ensures Superblocks.RecoverActive(b0, b1, sum).Ok?
    ensures var r := Superblocks.RecoverActive(b0, b1, sum).value;
      || r == m
      || (pending == Some(r.active) && r.active.generation == m.active.generation + 1 && r.index == 1 - m.index)
  {
  }

  lemma RecoveredIsOk(b0: Block, b1: Block, sum: Checksum)
    requires Superblocks.RecoverActive(b0, b1, sum).Ok?
    ensures SuperOk(b0, b1, Superblocks.RecoverActive(b0, b1, sum).value, None, sum)
  {
  }

  // ---------- the engine ----------

  ghost predicate ExtentsOk(es: seq<Extent>, words: seq<bv64>, total: nat) {
    && (forall e :: e in es ==> Owned(e, words, total) && e.startBlock >= 2 && e.numBlocks > 0)
    && (forall i, j :: 0 <= i < j < |es| ==> DisjointExtents(es[i], es[j]))
  }

  /** A run that was free is apart from everything marked. */
  lemma FreshExtent(es: seq<Extent>, words: seq<bv64>, marked: seq<bv64>, total: nat, a: nat, n: nat)
    requires ExtentsOk(es, words, total) && n > 0
    requires FreeRun(words, total, a, n) && Changed(words, marked, a, n, true)
    requires Marked(words, 0) && Marked(words, 1)
    ensures ExtentsOk(es + [Extent(a, n)], marked, total)
  {
    hide Marked;
    var e := Extent(a, n);
    forall d | d in es ensures DisjointExtents(d, e) && Owned(d, marked, total) {
      assert Owned(d, words, total);
      assert d.startBlock <= a < d.startBlock + d.numBlocks ==> Marked(words, a);
      assert Marked(words, d.startBlock);
    }
  }

  /** Exactly the first n blocks are marked. */
  ghost predicate FirstMarked(words: seq<bv64>, total: nat, n: nat) {
    forall b: nat :: b < total ==> (Marked(words, b) <==> b < n)
  }

  /** a is the lowest aligned run of n free blocks. */
  ghost predicate LowestRun(words: seq<bv64>, total: nat, a: nat, n: nat) {
    a % 8 == 0 && FreeRun(words, total, a, n) && forall s: nat :: s < a && s % 8 == 0 ==> !FreeRun(words, total, s, n)
  }

  /** What one request takes from the allocator: the lowest aligned free run, marked and nothing else, or nothing. */
  ghost predicate Granted(words: seq<bv64>, marked: seq<bv64>, total: nat, e: Extent) {
    if e.numBlocks == 0 then e == Extent(0, 0) && marked == words
    else LowestRun(words, total, e.startBlock, e.numBlocks) && Changed(words, marked, e.startBlock, e.numBlocks, true)
  }

  /** Block b belongs to one of the extents. */
  predicate InRuns(es: seq<Extent>, b: nat) {
    exists e :: e in es && e.startBlock <= b < e.startBlock + e.numBlocks
  }

  /** No block outside the extents has changed. */
  ghost predicate Confined(before: seq<Block>, after: seq<Block>, es: seq<Extent>) {
    |after| == |before| && forall b: nat :: b < |before| && !InRuns(es, b) ==> after[b] == before[b]
  }

  lemma ConfinedTwice(a: seq<Block>, b: seq<Block>, c: seq<Block>, es: seq<Extent>, fs: seq<Extent>, gs: seq<Extent>)
    requires Confined(a, b, es) && Confined(b, c, fs)
    requires forall e :: e in es || e in fs ==> e in gs
    ensures Confined(a, c, gs)
  {
    hide InRuns;
    forall x: nat | x < |a| && !InRuns(gs, x) ensures a[x] == c[x] {
      FewerRuns(es, gs, x);
      FewerRuns(fs, gs, x);
    }
  }

  lemma FewerRuns(es: seq<Extent>, gs: seq<Extent>, b: nat)
    requires forall e :: e in es ==> e in gs
    ensures InRuns(es, b) ==> InRuns(gs, b)
  {
  }

  lemma WriteConfined(before: seq<Block>, after: seq<Block>, e: Extent, data: seq<Block>, ok: bool, sum: Checksum)
    requires AfterWrite(before, after, e.startBlock, data, ok, sum) && e.numBlocks == |data|
    ensures Confined(before, after, [e])
  {
    hide Torn;
    forall b: nat | b < |before| && !InRuns([e], b) ensures after[b] == before[b] {
      assert e in [e];
    }
  }

  lemma SameConfined(blocks: seq<Block>, es: seq<Extent>)
    ensures Confined(blocks, blocks, es)
  {
  }

  /** The runs of one object write, and the bitmap between the two grants. */
  datatype Grants = Grants(payload: Extent, header: Extent, middle: seq<bv64>)

  /** All blocks an object write may touch: its two runs and the superblock that is not active. */
  function Runs(g: Grants, target: nat): seq<Extent> {
    [g.payload, g.header, Extent(target, 1)]
  }

  /** The payload's n blocks are granted first if they fit, then the header's m; nothing else is marked. */
  ghost predicate Placed(words: seq<bv64>, marked: seq<bv64>, total: nat, g: Grants, n: nat, m: nat) {
    && Granted(words, g.middle, total, g.payload) && Granted(g.middle, marked, total, g.header)
    && g.payload.numBlocks == (if NoRun(words, total, n) then 0 else n)
    && (g.header.numBlocks == 0 || g.header.numBlocks == m)
  }

  lemma GrantIs(words: seq<bv64>, marked: seq<bv64>, total: nat, n: nat, r: Result<Extent, nat>, align: nat)
    requires align == 8
    requires r.Ok? ==> n > 0 && r.value.numBlocks == n && r.value.startBlock % align == 0
    requires r.Ok? ==> FreeRun(words, total, r.value.startBlock, n) && Changed(words, marked, r.value.startBlock, n, true)
    requires r.Ok? ==> forall s: nat :: s < r.value.startBlock && s % align == 0 ==> !FreeRun(words, total, s, n)
    requires r.Err? ==> marked == words && (n == 0 || forall s: nat :: s % align == 0 ==> !FreeRun(words, total, s, n))
    ensures Granted(words, marked, total, if r.Ok? then r.value else Extent(0, 0))
    ensures NoRun(words, total, n) <==> n > 0 && r.Err?
  {
    hide Marked, Changed;
    if n == 0 {
      assert FreeRun(words, total, 0, 0);
    }
  }

  lemma NothingGranted(words: seq<bv64>, total: nat)
    ensures Granted(words, words, total, Extent(0, 0)) && !NoRun(words, total, 0)
  {
    assert FreeRun(words, total, 0, 0);
  }

  /** The blocks that n blocks' worth of some data are written as. */
  function Fill(data: seq<Byte>, n: nat, size: nat): (r: seq<Block>)
    requires size > 0
    ensures |r| == n
  {
    CutFlatten(Image(data, n, size), size, n);
    Cut(Image(data, n, size), size)
  }

  function Overwrite(blocks: seq<Block>, start: nat, data: seq<Block>): (r: seq<Block>)
    requires start + |data| <= |blocks|
    ensures |r| == |blocks|
  {
    blocks[..start] + data + blocks[start + |data|..]
  }

  ghost predicate IsOverwritten(before: seq<Block>, after: seq<Block>, start: nat, data: seq<Block>) {
    start + |data| <= |before| && after == Overwrite(before, start, data)
  }

  lemma SameOverwritten(blocks: seq<Block>)
    ensures IsOverwritten(blocks, blocks, 0, [])
  {
  }

  lemma FillFlatten(data: seq<Byte>, n: nat, size: nat)
    requires size > 0
    ensures Flatten(Fill(data, n, size)) == Image(data, n, size)
    ensures forall b :: b in Fill(data, n, size) ==> |b| == size
  {
    CutFlatten(Image(data, n, size), size, n);
  }

  lemma NoFill(data: seq<Byte>, size: nat)
    requires size > 0
    ensures Fill(data, 0, size) == []
  {
  }

  lemma SuperOverwritten(before: seq<Block>, after: seq<Block>, target: nat)
    requires target < 2 <= |before| && Confined(before, after, [Extent(target, 1)])
    ensures IsOverwritten(before, after, target, [after[target]])
  {
    forall b: nat | b < |before| && b != target ensures after[b] == before[b] {
      assert !InRuns([Extent(target, 1)], b);
    }
  }

  /** The device after an object write: payload, header and superblock replace what stood in their blocks. */
  function Outcome(before: seq<Block>, g: Grants, target: nat, payload: seq<Block>, header: seq<Block>, image: Block): (r: seq<Block>)
    requires g.payload.startBlock + |payload| <= |before| && g.header.startBlock + |header| <= |before| && target < |before|
    ensures |r| == |before|
  {
    Overwrite(Overwrite(Overwrite(before, g.payload.startBlock, payload), g.header.startBlock, header), target, [image])
  }

  ghost predicate Written(before: seq<Block>, after: seq<Block>, g: Grants, target: nat, payload: seq<Block>, header: seq<Block>) {
    && g.payload.startBlock + |payload| <= |before| && g.header.startBlock + |header| <= |before| && target < |before| == |after|
    && after == Outcome(before, g, target, payload, header, after[target])
  }

  /** Payload and header are on the device, and nothing else has changed. */
  ghost predicate BothWritten(before: seq<Block>, after: seq<Block>, g: Grants, payload: seq<Block>, header: seq<Block>) {
    && g.payload.startBlock + |payload| <= |before| && g.header.startBlock + |header| <= |before|
    && after == Overwrite(Overwrite(before, g.payload.startBlock, payload), g.header.startBlock, header)
  }

  lemma AllWritten(a: seq<Block>, b: seq<Block>, c: seq<Block>, g: Grants, target: nat, payload: seq<Block>, header: seq<Block>)
    requires BothWritten(a, b, g, payload, header)
    requires target < 2 <= |b| && Confined(b, c, [Extent(target, 1)])
    ensures Written(a, c, g, target, payload, header)
  {
    hide Confined;
    SuperOverwritten(b, c, target);
  }

  lemma RunsAre(g: Grants, target: nat)
    ensures g.payload in Runs(g, target) && g.header in Runs(g, target) && Extent(target, 1) in Runs(g, target)
  {
  }

  /** The number of blocks the header of a new object takes. */
  function HeaderBlocks(length: nat, attributes: seq<Attribute>, size: nat): nat
    requires size > 0
  {
    Blocks(HeaderLength(if Blocks(length, size) == 0 then 0 else 1, attributes), size)
  }

  lemma HeaderBlocksAre(h: Header, sum: Checksum, size: nat)
    requires Digest(sum) && size > 0 && |h.objectId| == 16 && h.relationships == []
    requires |h.extents| == if Blocks(h.payloadSize, size) == 0 then 0 else 1
    ensures Blocks(|Encode(h, sum)|, size) == HeaderBlocks(h.payloadSize, h.attributes, size)
  {
    hide Blocks, Encode, HeaderLength;
    EncodedLength(h, sum);
  }

  /** After a mount of at least 66 blocks the first run handed out starts at block 72. */
  lemma FirstRunAt72(words: seq<bv64>, total: nat, a: nat, n: nat)
    requires FirstMarked(words, total, 66) && n > 0 && LowestRun(words, total, a, n)
    ensures a == 72
  {
    hide Marked;
    assert !Marked(words, a) && a >= 72;
    assert FreeRun(words, total, 72, n);
  }

  /** No aligned run of n free blocks is left. */
  ghost predicate NoRun(words: seq<bv64>, total: nat, n: nat) {
    forall s: nat :: s % 8 == 0 ==> !FreeRun(words, total, s, n)
  }

  /** The next superblock describes the same device, keeps the place of the journal and carries its own checksum. */
  ghost predicate Continues(before: Superblocks.Superblock, after: Superblocks.Superblock, size: nat, total: nat, sum: Checksum) {
    && after.blockSize == size && after.totalBlocks == total && after.magic == Superblocks.MAGIC
    && after.journalStart == before.journalStart && after.journalCount == before.journalCount
    && after.checksum == sum(Superblocks.Fields(after))
  }

  class Engine {

    const device: Device
    const allocator: ExtentAllocator
    const sum: Checksum
    var manager: Superblocks.Manager
    ghost var objects: seq<Stored>
    ghost var extents: seq<Extent>
    ghost var pending: Option<Superblocks.Superblock>

    /** Blocks 0 and 1 are kept out of the allocator's hands. */
    ghost predicate Reserved()
      reads allocator, allocator.bitmap
    {
      Marked(allocator.bitmap[..], 0) && Marked(allocator.bitmap[..], 1)
    }

    /** Device, allocator and objects agree. */
    ghost predicate Stocked()
      reads this`objects, this`extents, device`blocks, allocator, allocator.bitmap
    {
      && device.Valid() && allocator.Valid() && Digest(sum)
      && device.blockSize >= 512 && allocator.totalBlocks == device.totalBlocks >= 2 && allocator.eraseBlockAlign == 8
      && (forall o :: o in objects ==> ObjectOk(o, device.blocks, allocator.bitmap[..]))
      && ExtentsOk(extents, allocator.bitmap[..], device.totalBlocks)
    }

    ghost predicate Consistent()
      reads this, device`blocks, allocator, allocator.bitmap
    {
      Stocked() && |device.blocks| >= 2 && SuperOk(device.blocks[0], device.blocks[1], manager, pending, sum)
    }

    ghost predicate Valid()
      reads this, device`blocks, allocator, allocator.bitmap
    {
      Consistent() && Reserved()
    }

    constructor (d: Device, a: ExtentAllocator, m: Superblocks.Manager, digest: Checksum)
      ensures device == d && allocator == a && manager == m && sum == digest
      ensures objects == [] && extents == [] && pending == None
    {
      device, allocator, manager, sum := d, a, m, digest;
      objects, extents, pending := [], [], None;
    }

    /**
      Allocate n blocks and fill them with the bytes. Exactly the lowest aligned free run is marked, whether
      or not the device then takes the bytes, and no block outside it is touched.
    */
    method StoreBytes(bytes: seq<Byte>, n: nat) returns (r: Result<Extent, CodecError>, ghost run: Extent)
      requires Valid()
      modifies this`extents, device, allocator.bitmap
      ensures Valid()
      ensures Granted(old(allocator.bitmap[..]), allocator.bitmap[..], device.totalBlocks, run)
      ensures run.numBlocks == if NoRun(old(allocator.bitmap[..]), device.totalBlocks, n) then 0 else n
      ensures r.Ok? ==> r.value == run && run.numBlocks == n > 0
      ensures device.reliable ==> (r.Ok? <==> run.numBlocks > 0)
      ensures r.Err? ==> extents == old(extents)
      ensures r.Ok? ==>
        && extents == old(extents) + [r.value]
        && Owned(r.value, allocator.bitmap[..], device.totalBlocks) && r.value.startBlock >= 2
        && Gather(device.blocks, [r.value]) == Image(bytes, n, device.blockSize)
        && IsOverwritten(old(device.blocks), device.blocks, r.value.startBlock, Fill(bytes, n, device.blockSize))
      ensures Confined(old(device.blocks), device.blocks, [run])
    {
      hide Cut, Flatten, Image, ObjectOk, ExtentsOk, SuperOk, Marked, FreeRun, Changed, AfterWrite, Owned, Digest, Confined, IsOverwritten;
      hide Granted, NoRun, LowestRun, Fill, Power, Gather;
      ghost var words, blocks := allocator.bitmap[..], device.blocks;
      var grant := allocator.AllocateExtent(n);
      run := if grant.Ok? then grant.value else Extent(0, 0);
      GrantIs(words, allocator.bitmap[..], device.totalBlocks, n, grant, 8);
      if grant.Err? {
        SameConfined(blocks, [run]);
        return Err(OutOfBounds), run;
      }
      var e := grant.value;
      ghost var marked := allocator.bitmap[..];
      GrantFacts(words, marked, device.totalBlocks, e.startBlock, n);
      FreshExtent(extents, words, marked, device.totalBlocks, e.startBlock, n);
      var data := Fill(bytes, n, device.blockSize);
      FillFlatten(bytes, n, device.blockSize);
      var ok := device.WriteBlocks(e.startBlock, data, sum);
      WriteKeeps(objects, blocks, device.blocks, words, marked, e.startBlock, data, ok, sum);
      WriteConfined(blocks, device.blocks, e, data, ok, sum);
      if !ok {
        ExtentsPrefix(extents, e, marked, device.totalBlocks);
        return Err(OutOfBounds), run;
      }
      extents := extents + [e];
      WrittenBlocks(blocks, device.blocks, e, data, sum);
      r := Ok(e);
    }

    /** Store a payload in as many blocks as it needs; an empty one needs none. */
    method StorePayload(payload: seq<Byte>) returns (r: Result<seq<Extent>, CodecError>, ghost run: Extent)
      requires Valid()
      modifies this`extents, device, allocator.bitmap
      ensures Valid()
      ensures Granted(old(allocator.bitmap[..]), allocator.bitmap[..], device.totalBlocks, run)
      ensures var n := Blocks(|payload|, device.blockSize);
        && run.numBlocks == (if NoRun(old(allocator.bitmap[..]), device.totalBlocks, n) then 0 else n)
        && (r.Ok? ==> run.numBlocks == n)
        && (device.reliable ==> (r.Ok? <==> !NoRun(old(allocator.bitmap[..]), device.totalBlocks, n)))
      ensures r.Ok? ==>
        && IsOverwritten(old(device.blocks), device.blocks, run.startBlock, Fill(payload, run.numBlocks, device.blockSize))
        && r.value == (if run.numBlocks == 0 then [] else [run])
        && (run.numBlocks > 0 ==>
              && Owned(run, allocator.bitmap[..], device.totalBlocks) && run.startBlock >= 2
              && Gather(device.blocks, [run]) == Image(payload, run.numBlocks, device.blockSize))
      ensures Confined(old(device.blocks), device.blocks, [run])
    {
      hide ObjectOk, ExtentsOk, Marked, SuperOk, Owned, Digest, Gather, Image, Fill, Blocks, NoRun, Confined, IsOverwritten, Granted;
      var n := Blocks(|payload|, device.blockSize);
      if n == 0 {
        run := Extent(0, 0);
        NothingGranted(allocator.bitmap[..], device.totalBlocks);
        SameOverwritten(device.blocks);
        SameConfined(device.blocks, [run]);
        NoFill(payload, device.blockSize);
        return Ok([]), run;
      }
      var stored;
      stored, run := StoreBytes(payload, n);
      r := if stored.Ok? then Ok([stored.value]) else Err(stored.error);
    }

    /** Write a superblock. No object and no other block is touched. */
    method PutSuperblock(sb: Superblocks.Superblock, target: nat) returns (ok: bool, image: Block)
      requires Valid() && target < 2 && Superblocks.Typed(sb) && |sb.rootObject| == 16 && sb.magic == Superblocks.MAGIC
      requires sb.checksum == sum(Superblocks.Fields(sb))
      modifies device
      ensures Stocked() && AfterWrite(old(device.blocks), device.blocks, target, [image], ok, sum)
      ensures Superblocks.Decode(image, sum) == Ok(sb) && (device.reliable ==> ok)
      ensures Confined(old(device.blocks), device.blocks, [Extent(target, 1)])
    {
      hide ObjectOk, ExtentsOk, Marked, SuperOk, AfterWrite, Power, Confined;
      hide Superblocks.Decode, Superblocks.Encoded, Superblocks.New, Superblocks.Fields, Superblocks.Typed;
      var buf := new Byte[device.blockSize];
      Superblocks.Serialize(sb, buf, sum);
      Superblocks.NewRoundTrip(sb, device.blockSize, sum);
      image := buf[..];
      ghost var blocks := device.blocks;
      ok := device.WriteBlocks(target, [image], sum);
      SuperblockWriteKeeps(objects, blocks, device.blocks, allocator.bitmap[..], target, [image], ok, sum);
      WriteConfined(blocks, device.blocks, Extent(target, 1), [image], ok, sum);
    }

    /** Write a superblock of the next generation into the block that is not active, and make it the active one. */
    method Publish(sb: Superblocks.Superblock) returns (ok: bool)
      requires Valid() && Superblocks.Typed(sb) && |sb.rootObject| == 16 && sb.magic == Superblocks.MAGIC
      requires sb.checksum == sum(Superblocks.Fields(sb)) && sb.generation == manager.active.generation + 1
      modifies this`manager, this`pending, device
      ensures Valid() && (device.reliable ==> ok)
      ensures ok ==> pending == None && manager == Superblocks.Manager(sb, 1 - old(manager.index))
      ensures ok ==> device.durable == device.blocks
      ensures !ok ==> manager == old(manager) && (pending == old(pending) || pending == Some(sb))
      ensures old(manager.index) < 2 && Confined(old(device.blocks), device.blocks, [Extent(1 - old(manager.index), 1)])
    {
      hide Stocked, Reserved, SuperOk, AfterWrite, Confined, Superblocks.Typed, Superblocks.Fields;
      SuperFacts(device.blocks[0], device.blocks[1], manager, pending, sum);
      var target := if manager.index == 0 then 1 else 0;
      ghost var blocks := device.blocks;
      var image;
      ok, image := PutSuperblock(sb, target);
      CommitOutcome(blocks, device.blocks, manager, pending, sb, [image], ok, sum);
      if ok {
        ok := device.FlushCache();
      }
      if ok {
        manager := Superblocks.Manager(sb, target);
        pending := None;
      } else if device.blocks[target] == image {
        pending := Some(sb);
      }
    }

    /** Write the next superblock into the block that is not active. */
    method CommitGeneration(root: seq<Byte>) returns (r: Result<(), CodecError>)
      requires Valid() && |root| == 16
      modifies this`manager, this`pending, device
      ensures Valid()
      ensures r.Ok? ==> pending == None && manager.index == 1 - old(manager.index)
      ensures r.Ok? ==> manager.active.generation == old(manager.active.generation) + 1 && manager.active.rootObject == root
      ensures r.Ok? ==> device.durable == device.blocks
      ensures r.Ok? ==> Continues(old(manager.active), manager.active, device.blockSize, device.totalBlocks, sum)
      ensures r.Err? ==> manager == old(manager) && (pending == old(pending) || (pending.Some? && pending.value.rootObject == root))
      ensures device.reliable ==> (r.Ok? <==> old(manager.active.generation) + 1 < GENERATIONS)
      ensures old(manager.index) < 2 && Confined(old(device.blocks), device.blocks, [Extent(1 - old(manager.index), 1)])
    {
      hide Reserved, SuperOk, AfterWrite, Power, Confined, ObjectOk, ExtentsOk, Digest;
      hide Superblocks.Decode, Superblocks.Encoded, Superblocks.Fields, Superblocks.Typed;
      SuperFacts(device.blocks[0], device.blocks[1], manager, pending, sum);
      var next := manager.active.generation + 1;
      if next >= GENERATIONS {
        SameConfined(device.blocks, [Extent(1 - manager.index, 1)]);
        return Err(Panic);
      }
      var sb := Superblocks.New(next, device.blockSize, device.totalBlocks, root,
                                manager.active.journalStart, manager.active.journalCount, sum);
      NextIsTyped(manager, device.blocks[manager.index], sb, sum);
      var ok := Publish(sb);
      r := if ok then Ok(()) else Err(OutOfBounds);
    }

    /** Store payload and header; the superblock is left to the commit. */
    method StoreObject(id: seq<Byte>, payload: seq<Byte>, attributes: seq<Attribute>)
      returns (r: Result<Header, CodecError>, ghost g: Grants)
      requires Valid() && |id| == 16
      modifies this`objects, this`extents, device, allocator.bitmap
      ensures Valid()
      ensures objects == if r.Ok? then old(objects) + [Stored(r.value, Kept(payload, device.blockSize))] else old(objects)
      ensures r.Ok? ==> r.value.objectId == id && r.value.payloadSize == |payload| && r.value.attributes == attributes
      ensures r.Ok? ==> r.value.checksum == sum(Body(r.value)) && r.value.relationships == []
      ensures r.Ok? ==> r.value.extents == if g.payload.numBlocks == 0 then [] else [g.payload]
      ensures Placed(old(allocator.bitmap[..]), allocator.bitmap[..], device.totalBlocks, g,
                     Blocks(|payload|, device.blockSize), HeaderBlocks(|payload|, attributes, device.blockSize))
      ensures r.Ok? ==> g.payload.numBlocks == Blocks(|payload|, device.blockSize) && g.header.numBlocks > 0
      ensures device.reliable ==>
        var n, m := Blocks(|payload|, device.blockSize), HeaderBlocks(|payload|, attributes, device.blockSize);
        (r.Ok? <==> !NoRun(old(allocator.bitmap[..]), device.totalBlocks, n) && m > 0 && !NoRun(g.middle, device.totalBlocks, m))
      ensures Confined(old(device.blocks), device.blocks, [g.payload, g.header])
      ensures r.Ok? ==> BothWritten(old(device.blocks), device.blocks, g, Fill(payload, g.payload.numBlocks, device.blockSize),
                                    Fill(Encode(r.value, sum), g.header.numBlocks, device.blockSize))
    {
      hide ObjectOk, ExtentsOk, Marked, SuperOk, Owned, Digest, Body, Gather, Image, Fill, Blocks, NoRun, Encode;
      hide Confined, Overwrite, Granted, HeaderBlocks, Power, Reserved, Kept;
      ghost var before, blocks := objects, device.blocks;
      var stored;
      ghost var run;
      stored, run := StorePayload(payload);
      ghost var middle, blocks1 := allocator.bitmap[..], device.blocks;
      g := Grants(run, Extent(0, 0), middle);
      NothingGranted(middle, device.totalBlocks);
      SameConfined(blocks1, []);
      ConfinedTwice(blocks, blocks1, blocks1, [run], [], [g.payload, g.header]);
      if stored.Err? {
        return Err(stored.error), g;
      }
      var header := Header(id, |payload|, stored.value, attributes, [], []);
      header := header.(checksum := sum(Body(header)));
      SameBody(header);
      NewObject(header, payload, run.numBlocks, device.blocks, middle, device.blockSize);
      objects := objects + [Stored(header, Kept(payload, device.blockSize))];
      var bytes := ObjectHeaders.Serialize(header, sum);
      HeaderBlocksAre(header, sum, device.blockSize);
      var headerStored;
      headerStored, run := StoreBytes(bytes, Blocks(|bytes|, device.blockSize));
      g := g.(header := run);
      ConfinedTwice(blocks, blocks1, device.blocks, [g.payload], [run], [g.payload, g.header]);
      if headerStored.Err? {
        objects := before;
        return Err(headerStored.error), g;
      }
      r := Ok(header);
    }

    /**
      Write an object: payload, header, superblock. Success stores it and commits the next generation; a
      failure anywhere leaves every object written before and the committed generation as they were.
      Whatever happens, exactly the granted runs are marked and nothing outside them and the inactive
      superblock is touched; where they lie follows from the bitmap and the lengths alone.
    */
    method WriteObject(id: seq<Byte>, payload: seq<Byte>, attributes: seq<Attribute>)
      returns (r: Result<Header, CodecError>, ghost g: Grants)
      requires Valid() && |id| == 16
      modifies this, device, allocator.bitmap
      ensures Valid()
      ensures r.Ok? ==> objects == old(objects) + [Stored(r.value, Kept(payload, device.blockSize))]
      ensures r.Ok? ==> r.value.objectId == id && r.value.payloadSize == |payload| && r.value.attributes == attributes
      ensures r.Ok? ==> r.value.checksum == sum(Body(r.value)) && r.value.relationships == []
      ensures r.Ok? ==> r.value.extents == if g.payload.numBlocks == 0 then [] else [g.payload]
      ensures r.Ok? ==> pending == None && manager.index == 1 - old(manager.index)
      ensures r.Ok? ==> manager.active.generation == old(manager.active.generation) + 1 && manager.active.rootObject == id
      ensures r.Ok? ==> device.durable == device.blocks
      ensures r.Ok? ==> Continues(old(manager.active), manager.active, device.blockSize, device.totalBlocks, sum)
      ensures r.Err? ==> objects == old(objects) && manager == old(manager)
      ensures r.Err? ==> pending == old(pending) || (pending.Some? && pending.value.rootObject == id)
      ensures Placed(old(allocator.bitmap[..]), allocator.bitmap[..], device.totalBlocks, g,
                     Blocks(|payload|, device.blockSize), HeaderBlocks(|payload|, attributes, device.blockSize))
      ensures r.Ok? ==> g.payload.numBlocks == Blocks(|payload|, device.blockSize) && g.header.numBlocks > 0
      ensures device.reliable ==>
        var n, m := Blocks(|payload|, device.blockSize), HeaderBlocks(|payload|, attributes, device.blockSize);
        (r.Ok? <==> !NoRun(old(allocator.bitmap[..]), device.totalBlocks, n)
                    && m > 0 && !NoRun(g.middle, device.totalBlocks, m)
                    && old(manager.active.generation) + 1 < GENERATIONS)
      ensures old(manager.index) < 2 && Confined(old(device.blocks), device.blocks, Runs(g, 1 - old(manager.index)))
      ensures r.Ok? ==> Written(old(device.blocks), device.blocks, g, 1 - old(manager.index),
                                Fill(payload, g.payload.numBlocks, device.blockSize),
                                Fill(Encode(r.value, sum), g.header.numBlocks, device.blockSize))
    {
      hide ObjectOk, ExtentsOk, Marked, SuperOk, Owned, Digest, Body, Image, Fill, Blocks, NoRun, Encode;
      hide Confined, IsOverwritten, Granted, HeaderBlocks, Power, Reserved, Runs, Kept, Written, Placed;
      SuperFacts(device.blocks[0], device.blocks[1], manager, pending, sum);
      ghost var before, blocks, target := objects, device.blocks, 1 - manager.index;
      r, g := StoreObject(id, payload, attributes);
      ghost var stored := device.blocks;
      RunsAre(g, target);
      SameConfined(stored, []);
      ConfinedTwice(blocks, stored, stored, [g.payload, g.header], [], Runs(g, target));
      if r.Err? {
        return;
      }
      var committed := CommitGeneration(id);
      ConfinedTwice(blocks, stored, device.blocks, Runs(g, target), [Extent(target, 1)], Runs(g, target));
      if committed.Err? {
        objects := before;
        return Err(committed.error), g;
      }
      AllWritten(blocks, stored, device.blocks, g, target, Fill(payload, g.payload.numBlocks, device.blockSize),
                 Fill(Encode(r.value, sum), g.header.numBlocks, device.blockSize));
    }

    /** Read an object back through its header. */
    method ReadObject(h: Header) returns (r: Result<seq<Byte>, CodecError>)
      requires Valid()
      ensures r.Ok? ==> r.value == Contents(device.blocks, h)
      ensures forall o :: o in objects && o.header == h && r.Ok? ==> r.value == o.payload
      ensures r.Ok? ==> OnDevice(h.extents, device.totalBlocks)
      ensures device.reliable ==> (r.Ok? <==> OnDevice(h.extents, device.totalBlocks))
      ensures forall o :: o in objects && o.header == h ==> OnDevice(h.extents, device.totalBlocks)
    {
      hide ExtentsOk, Marked, SuperOk, Digest, Flatten, Gather, ObjectOk, Power;
      StoredReadable(objects, device.blocks, allocator.bitmap[..]);
      var payload: seq<Byte> := [];
      var i := 0;
      assert h.extents[0..] == h.extents;
      while i < |h.extents|
        invariant 0 <= i <= |h.extents|
        invariant payload + Gather(device.blocks, h.extents[i..]) == Gather(device.blocks, h.extents)
        invariant forall k :: 0 <= k < i ==> h.extents[k].startBlock + h.extents[k].numBlocks <= device.totalBlocks
      {
        var e := h.extents[i];
        var read := device.ReadBlocks(e.startBlock, e.numBlocks);
        if read.Err? {
          return Err(read.error);
        }
        GatherNext(device.blocks, h.extents, i);
        assert payload + Gather(device.blocks, h.extents[i..]) == (payload + read.value) + Gather(device.blocks, h.extents[i + 1..]);
        payload := payload + read.value;
        i := i + 1;
      }
      GatherNothing(device.blocks);
      assert h.extents[i..] == [] && payload + [] == payload;
      r := Ok(Take(payload, h.payloadSize));
    }

    /**
      Mount a device: recover the newest superblock and reserve the first 66 blocks. The reservation fails
      silently on a smaller device, and then the superblocks are not protected.
    */
    static method Mount(device: Device, sum: Checksum) returns (r: Result<Engine, CodecError>)
      requires device.Valid() && Digest(sum)
      ensures r.Ok? ==> fresh(r.value) && fresh(r.value.allocator) && fresh(r.value.allocator.bitmap)
      ensures r.Ok? ==> r.value.device == device && r.value.sum == sum && r.value.Consistent()
      ensures r.Ok? ==> r.value.objects == [] && device.totalBlocks >= 2
      ensures r.Ok? ==> Superblocks.RecoverActive(device.blocks[0], device.blocks[1], sum) == Ok(r.value.manager)
      ensures r.Ok? ==> (r.value.Valid() <==> device.totalBlocks >= 66)
      ensures r.Ok? && device.totalBlocks >= 66 ==> FirstMarked(r.value.allocator.bitmap[..], device.totalBlocks, 66)
      ensures device.reliable ==>
        (r.Ok? <==> device.totalBlocks >= 2 && Superblocks.RecoverActive(device.blocks[0], device.blocks[1], sum).Ok?)
    {
      hide Marked, SuperOk, Superblocks.Decode;
      var b0 := device.ReadBlocks(0, 1);
      var b1 := device.ReadBlocks(1, 1);
      if b0.Err? || b1.Err? {
        return Err(OutOfBounds);
      }
      OneBlock(device.blocks[0..1]);
      OneBlock(device.blocks[1..2]);
      var m := Superblocks.RecoverActive(b0.value, b1.value, sum);
      if m.Err? {
        return Err(ChecksumMismatch);
      }
      LongEnough(b0.value, sum);
      LongEnough(b1.value, sum);
      RecoveredIsOk(b0.value, b1.value, sum);
      var allocator := new ExtentAllocator(device.totalBlocks, 8);
      ghost var words := allocator.bitmap[..];
      var reserved := allocator.AllocateExtent(2 + 64);
      ReservedIff(words, allocator.bitmap[..], device.totalBlocks, reserved, 8);
      var engine := new Engine(device, allocator, m.value, sum);
      r := Ok(engine);
    }

    /** Mounting the device again, at any moment or after any failed call, finds the last commit or the one under way. */
    method Remount() returns (r: Result<Engine, CodecError>)
      requires Valid()
      ensures device.reliable ==> r.Ok?
      ensures r.Ok? ==> fresh(r.value) && fresh(r.value.allocator) && fresh(r.value.allocator.bitmap)
      ensures r.Ok? ==> r.value.device == device && r.value.sum == sum && r.value.Consistent() && r.value.objects == []
      ensures r.Ok? ==> (r.value.Valid() <==> device.totalBlocks >= 66)
      ensures r.Ok? && device.totalBlocks >= 66 ==> FirstMarked(r.value.allocator.bitmap[..], device.totalBlocks, 66)
      ensures r.Ok? ==>
        || r.value.manager == manager
        || (pending == Some(r.value.manager.active) && r.value.manager.active.generation == manager.active.generation + 1)
    {
      hide SuperOk, ObjectOk, ExtentsOk, Marked;
      RecoveredIsKnown(device.blocks[0], device.blocks[1], manager, pending, sum);
      r := Mount(device, sum);
    }

    /**
      Format a device: two equal superblocks of generation 1 and an empty allocator. Blocks 0 and 1 are
      left free, so an engine used without mounting again hands them out.
    */
    static method Format(device: Device, root: seq<Byte>, sum: Checksum) returns (r: Result<Engine, CodecError>)
      requires device.Valid() && Digest(sum) && |root| == 16 && device.blockSize >= 512
      modifies device
      ensures device.Valid()
      ensures device.totalBlocks < 128 ==> r.Err? && device.blocks == old(device.blocks)
      ensures device.reliable && device.totalBlocks >= 128 ==> r.Ok?
      ensures r.Ok? ==> r.value.device == device && r.value.sum == sum && r.value.pending == None
      ensures r.Ok? ==> r.value.Consistent() && !r.value.Valid()
      ensures r.Ok? ==> r.value.manager.active.generation == 1 && r.value.manager.index == 0
      ensures r.Ok? ==> r.value.manager.active.rootObject == root && device.durable == device.blocks
      ensures r.Ok? ==> var sb := r.value.manager.active;
        sb.blockSize == device.blockSize && sb.totalBlocks == device.totalBlocks && sb.journalStart == 2 && sb.journalCount == 64
      ensures r.Ok? ==> forall n: nat :: n <= device.totalBlocks ==>
          FreeRun(r.value.allocator.bitmap[..], device.totalBlocks, 0, n)
    {
      hide Marked, SuperOk, AfterWrite, Superblocks.Decode, Superblocks.Encoded, Superblocks.New, Superblocks.Fields, Superblocks.Typed, Power;
      if device.totalBlocks < 128 {
        return Err(OutOfBounds);
      }
      var sb := Superblocks.New(1, device.blockSize, device.totalBlocks, root, 2, 64, sum);
      FirstIsTyped(sb);
      var buf := new Byte[device.blockSize];
      Superblocks.Serialize(sb, buf, sum);
      Superblocks.NewRoundTrip(sb, device.blockSize, sum);
      var image := buf[..];
      ghost var b0 := device.blocks;
      var ok := device.WriteBlocks(0, [image], sum);
      if !ok {
        return Err(OutOfBounds);
      }
      ghost var b1 := device.blocks;
      OneWritten(b0, b1, 0, image, sum);
      ok := device.WriteBlocks(1, [image], sum);
      if !ok {
        return Err(OutOfBounds);
      }
      OneWritten(b1, device.blocks, 1, image, sum);
      ok := device.FlushCache();
      if !ok {
        return Err(OutOfBounds);
      }
      var m := Superblocks.RecoverActive(image, image, sum);
      RecoveredIsOk(image, image, sum);
      var allocator := new ExtentAllocator(device.totalBlocks, 8);
      var engine := new Engine(device, allocator, m.value, sum);
      r := Ok(engine);
    }
  }

  lemma FirstIsTyped(sb: Superblocks.Superblock)
    requires sb.magic == Superblocks.MAGIC && sb.generation == 1 && sb.journalStart == 2 && sb.journalCount == 64
    requires sb.blockSize < Power(4) && sb.totalBlocks < Power(8) && |sb.rootObject| == 16
    ensures Superblocks.Typed(sb)
  {
    FixedPowers();
  }

  lemma OneWritten(before: seq<Block>, after: seq<Block>, at: nat, image: Block, sum: Checksum)
    requires AfterWrite(before, after, at, [image], true, sum)
    ensures |after| == |before| > at && after == before[at := image]
  {
    assert after[at + 0] == [image][0];
  }

  lemma SameBody(h: Header)
    ensures Body(h.(checksum := [])) == Body(h)
  {
  }

  lemma OneBlock(bs: seq<Block>)
    requires |bs| == 1
    ensures Flatten(bs) == bs[0]
  {
    assert bs[0] + [] == bs[0];
  }

  lemma LongEnough(b: Block, sum: Checksum)
    ensures Superblocks.Decode(b, sum).Ok? ==> |b| >= 512
  {
  }

  lemma ReservedIff(words: seq<bv64>, marked: seq<bv64>, total: nat, r: Result<Extent, nat>, align: nat)
    requires align == 8 && total >= 2 && forall b: nat :: b < total ==> !Marked(words, b)
    requires r.Ok? ==> FreeRun(words, total, r.value.startBlock, 66) && Changed(words, marked, r.value.startBlock, 66, true)
    requires r.Ok? ==> forall s: nat :: s < r.value.startBlock && s % align == 0 ==> !FreeRun(words, total, s, 66)
    requires r.Err? ==> marked == words && forall s: nat :: s % align == 0 ==> !FreeRun(words, total, s, 66)
    ensures Marked(marked, 0) && Marked(marked, 1) <==> total >= 66
    ensures total >= 66 ==> FirstMarked(marked, total, 66)
  {
    hide Marked;
    if total >= 66 {
      assert FreeRun(words, total, 0, 66);
      assert 0 % align == 0;
      assert r.value.startBlock == 0;
    }
  }

  /** A payload just stored reads back as the part of it that was kept. */
  lemma NewObject(h: Header, payload: seq<Byte>, n: nat, blocks: seq<Block>, words: seq<bv64>, size: nat)
    requires size > 0 && n == Blocks(|payload|, size) && h.payloadSize == |payload|
    requires n == 0 ==> h.extents == []
    requires n > 0 ==> |h.extents| == 1 && Owned(h.extents[0], words, |blocks|) && h.extents[0].startBlock >= 2
    requires n > 0 ==> Gather(blocks, h.extents) == Image(payload, n, size)
    ensures ObjectOk(Stored(h, Kept(payload, size)), blocks, words)
  {
    KeptReadBack(payload, size);
    if n == 0 {
      assert Gather(blocks, h.extents) == [];
    }
  }

  lemma SuperFacts(b0: Block, b1: Block, m: Superblocks.Manager, pending: Option<Superblocks.Superblock>, sum: Checksum)
    requires SuperOk(b0, b1, m, pending, sum)
    ensures m.index < 2 && Superblocks.Decode(if m.index == 0 then b0 else b1, sum) == Ok(m.active)
  {
  }

  lemma NextIsTyped(m: Superblocks.Manager, b: Block, sb: Superblocks.Superblock, sum: Checksum)
    requires Superblocks.Decode(b, sum) == Ok(m.active)
    requires sb.magic == Superblocks.MAGIC && sb.generation < GENERATIONS
    requires sb.blockSize < Power(4) && sb.totalBlocks < Power(8) && |sb.rootObject| == 16
    requires sb.journalStart == m.active.journalStart && sb.journalCount == m.active.journalCount
    ensures Superblocks.Typed(sb)
  {
    FixedPowers();
    Superblocks.DecodedIsWritten(b, sum);
  }

  /** What the two superblocks say after a commit's write, however it ended. */
  lemma CommitOutcome(before: seq<Block>, after: seq<Block>, m: Superblocks.Manager, pending: Option<Superblocks.Superblock>,
                      sb: Superblocks.Superblock, data: seq<Block>, ok: bool, sum: Checksum)
    requires |before| >= 2 && SuperOk(before[0], before[1], m, pending, sum)
    requires |data| == 1 && Superblocks.Decode(data[0], sum) == Ok(sb) && sb.generation == m.active.generation + 1
    requires AfterWrite(before, after, 1 - m.index, data, ok, sum)
    ensures |after| == |before| && (ok ==> after[1 - m.index] == data[0])
    ensures after[1 - m.index] == data[0] ==> SuperOk(after[0], after[1], m, Some(sb), sum)
    ensures after[1 - m.index] == data[0] ==> SuperOk(after[0], after[1], Superblocks.Manager(sb, 1 - m.index), None, sum)
    ensures after[1 - m.index] != data[0] ==> SuperOk(after[0], after[1], m, pending, sum)
  {
    hide Superblocks.Decode;
    var t := 1 - m.index;
    assert after[m.index] == before[m.index];
    assert if ok then after[t + 0] == data[0] else Torn(before[t + 0], data[0], after[t + 0], sum);
  }

  lemma GrantFacts(words: seq<bv64>, marked: seq<bv64>, total: nat, a: nat, n: nat)
    requires FreeRun(words, total, a, n) && Changed(words, marked, a, n, true) && n > 0
    requires Marked(words, 0) && Marked(words, 1)
    ensures 2 <= a && a + n <= total && Marked(marked, 0) && Marked(marked, 1) && Owned(Extent(a, n), marked, total)
  {
    hide Marked;
    assert !Marked(words, a);
    if n > 1 {
      assert !Marked(words, a + 1);
    }
  }

  lemma Overwritten(before: seq<Block>, after: seq<Block>, start: nat, data: seq<Block>, sum: Checksum)
    requires AfterWrite(before, after, start, data, true, sum)
    ensures IsOverwritten(before, after, start, data)
  {
    var expected := Overwrite(before, start, data);
    forall b | 0 <= b < |before| ensures after[b] == expected[b] {
      if start <= b < start + |data| {
        assert after[start + (b - start)] == data[b - start];
      }
    }
  }

  lemma WrittenBlocks(before: seq<Block>, after: seq<Block>, e: Extent, data: seq<Block>, sum: Checksum)
    requires AfterWrite(before, after, e.startBlock, data, true, sum) && e.numBlocks == |data|
    ensures Gather(after, [e]) == Flatten(data) && IsOverwritten(before, after, e.startBlock, data)
  {
    hide Flatten;
    Overwritten(before, after, e.startBlock, data, sum);
    assert after[e.startBlock..e.startBlock + |data|] == data;
    assert Gather(after, [e]) == Flatten(data) + [];
  }

  lemma ExtentsPrefix(es: seq<Extent>, e: Extent, words: seq<bv64>, total: nat)
    requires ExtentsOk(es + [e], words, total)
    ensures ExtentsOk(es, words, total)
  {
    forall i, j | 0 <= i < j < |es| ensures DisjointExtents(es[i], es[j]) {
      assert DisjointExtents((es + [e])[i], (es + [e])[j]);
    }
    forall d | d in es ensures Owned(d, words, total) && d.startBlock >= 2 && d.numBlocks > 0 {
      assert d in es + [e];
    }
  }

  /** A write into a run that was free keeps every stored object. */
  lemma WriteKeeps(objects: seq<Stored>, before: seq<Block>, after: seq<Block>, words: seq<bv64>, marked: seq<bv64>,
                   start: nat, data: seq<Block>, ok: bool, sum: Checksum)
    requires forall o :: o in objects ==> ObjectOk(o, before, words)
    requires FreeRun(words, |before|, start, |data|) && Changed(words, marked, start, |data|, true)
    requires AfterWrite(before, after, start, data, ok, sum)
    ensures forall o :: o in objects ==> ObjectOk(o, after, marked)
    requires |before| >= 2 && Marked(words, 0) && Marked(words, 1)
    ensures |after| == |before| && after[0] == before[0] && after[1] == before[1]
  {
    hide Marked, ObjectOk, Torn;
    forall o | o in objects ensures ObjectOk(o, after, marked) {
      ObjectKept(o, before, after, words, marked);
    }
  }

  /** A write to a superblock keeps every stored object: no object owns blocks 0 and 1. */
  lemma SuperblockWriteKeeps(objects: seq<Stored>, before: seq<Block>, after: seq<Block>, words: seq<bv64>,
                             target: nat, data: seq<Block>, ok: bool, sum: Checksum)
    requires forall o :: o in objects ==> ObjectOk(o, before, words)
    requires target < 2 && |data| == 1 && AfterWrite(before, after, target, data, ok, sum)
    ensures forall o :: o in objects ==> ObjectOk(o, after, words)
  {
    hide Marked, Torn;
    forall o | o in objects ensures ObjectOk(o, after, words) {
      forall e, b: nat | e in o.header.extents && e.startBlock <= b < e.startBlock + e.numBlocks && b < |before|
        ensures before[b] == after[b]
      {
      }
      GatherSame(before, after, o.header.extents);
    }
  }
}
