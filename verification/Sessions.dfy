/**
  Objects across sessions. A mount marks only the first 66 blocks, so a write may land on blocks that an
  object of an earlier session still names. Which blocks it will land on follows from the bitmap and the
  lengths before the call; the object survives exactly if it reads none of them.
*/
module Sessions {

  import opened Arithmetic
  import opened ByteOrder
  import opened Codecs
  import opened Common
  import opened Extents
  import opened ObjectHeaders
  import opened Storage
  import Superblocks

  // ---------- which blocks a reader sees ----------

  ghost predicate Sized(blocks: seq<Block>, size: nat) {
    forall b :: 0 <= b < |blocks| ==> |blocks[b]| == size
  }

  function Span(e: Extent): (s: seq<nat>)
    ensures |s| == e.numBlocks && forall i :: 0 <= i < |s| ==> s[i] == e.startBlock + i
  {
    seq(e.numBlocks, i => e.startBlock + i)
  }

  /** The blocks of the extents in reading order. */
  function Places(es: seq<Extent>): seq<nat> {
    if es == [] then [] else Span(es[0]) + Places(es[1..])
  }

  function Picked(blocks: seq<Block>, places: seq<nat>): (s: seq<Block>)
    requires forall k :: 0 <= k < |places| ==> places[k] < |blocks|
    ensures |s| == |places| && forall k :: 0 <= k < |s| ==> s[k] == blocks[places[k]]
  {
    seq(|places|, k requires 0 <= k < |places| => blocks[places[k]])
  }

  /** The k-th block in reading order is b, and the size of the object reaches it. */
  predicate ReadAt(h: Header, size: nat, b: nat, k: nat) {
    k < |Places(h.extents)| && Places(h.extents)[k] == b && k * size < h.payloadSize
  }

  /** Reading the object takes bytes from block b. */
  ghost predicate Reads(h: Header, size: nat, b: nat) {
    exists k: nat :: ReadAt(h, size, b, k)
  }

  /** The object is read from none of the blocks of the extents. */
  ghost predicate Misses(h: Header, size: nat, es: seq<Extent>) {
    forall b: nat :: Reads(h, size, b) ==> !InRuns(es, b)
  }

  lemma {:induction false} FlattenSplit(a: seq<Block>, b: seq<Block>)
    ensures Flatten(a + b) == Flatten(a) + Flatten(b)
  {
    if a == [] {
      assert a + b == b;
    } else {
      assert (a + b)[1..] == a[1..] + b;
      FlattenSplit(a[1..], b);
    }
  }

  lemma {:induction false} FlattenLength(bs: seq<Block>, size: nat)
    requires Sized(bs, size)
    ensures |Flatten(bs)| == |bs| * size
  {
    if bs != [] {
      FlattenLength(bs[1..], size);
    }
  }

  lemma FlattenAt(bs: seq<Block>, size: nat, k: nat, j: nat)
    requires Sized(bs, size) && k < |bs| && j < size
    ensures k * size + j < |Flatten(bs)| && Flatten(bs)[k * size + j] == bs[k][j]
  {
    hide Flatten;
    var a, b := bs[..k], bs[k..];
    assert bs == a + b && b == [bs[k]] + bs[k + 1..];
    FlattenSplit(a, b);
    FlattenSplit([bs[k]], bs[k + 1..]);
    FlattenLength(a, size);
    OneBlock([bs[k]]);
  }

  lemma NothingGathered(blocks: seq<Block>)
    ensures Gather(blocks, []) == [] && Places([]) == [] && Flatten(Picked(blocks, [])) == []
  {
  }

  lemma GatherStep(blocks: seq<Block>, es: seq<Extent>)
    requires es != [] && OnDevice(es, |blocks|)
    ensures OnDevice(es[1..], |blocks|) && Places(es) == Span(es[0]) + Places(es[1..])
    ensures es[0].startBlock + es[0].numBlocks <= |blocks|
    ensures Gather(blocks, es) == Flatten(blocks[es[0].startBlock..es[0].startBlock + es[0].numBlocks]) + Gather(blocks, es[1..])
  {
    assert es[0] in es;
    hide Flatten, Span;
  }

  lemma {:induction false} PlacesWithin(es: seq<Extent>, total: nat)
    requires OnDevice(es, total)
    ensures forall k :: 0 <= k < |Places(es)| ==> Places(es)[k] < total
  {
    if es != [] {
      PlacesWithin(es[1..], total);
    }
  }

  lemma PickedSplit(blocks: seq<Block>, e: Extent, rest: seq<nat>)
    requires e.startBlock + e.numBlocks <= |blocks| && forall k :: 0 <= k < |rest| ==> rest[k] < |blocks|
    ensures forall k :: 0 <= k < |Span(e) + rest| ==> (Span(e) + rest)[k] < |blocks|
    ensures Picked(blocks, Span(e) + rest) == blocks[e.startBlock..e.startBlock + e.numBlocks] + Picked(blocks, rest)
  {
    hide Span, Picked;
  }

  lemma {:induction false} GatherPicked(blocks: seq<Block>, es: seq<Extent>)
    requires OnDevice(es, |blocks|)
    ensures (forall k :: 0 <= k < |Places(es)| ==> Places(es)[k] < |blocks|)
    ensures Gather(blocks, es) == Flatten(Picked(blocks, Places(es)))
  {
    hide Flatten, Gather, Places, Span, Picked;
    PlacesWithin(es, |blocks|);
    if es == [] {
      NothingGathered(blocks);
    } else {
      GatherStep(blocks, es);
      GatherPicked(blocks, es[1..]);
      var e, rest := es[0], Places(es[1..]);
      PickedSplit(blocks, e, rest);
      FlattenSplit(blocks[e.startBlock..e.startBlock + e.numBlocks], Picked(blocks, rest));
    }
  }

  /** The byte at offset j of the k-th block read is the byte at k * size + j of the object, as far as it reaches. */
  lemma ContentsAt(blocks: seq<Block>, h: Header, size: nat, k: nat, j: nat)
    requires Sized(blocks, size) && OnDevice(h.extents, |blocks|) && k < |Places(h.extents)| && j < size
    ensures Places(h.extents)[k] < |blocks|
    ensures k * size + j < h.payloadSize ==>
      k * size + j < |Contents(blocks, h)| && Contents(blocks, h)[k * size + j] == blocks[Places(h.extents)[k]][j]
  {
    hide Flatten, Gather, Places;
    GatherPicked(blocks, h.extents);
    FlattenAt(Picked(blocks, Places(h.extents)), size, k, j);
  }

  lemma ContentsLength(blocks: seq<Block>, h: Header, size: nat)
    requires Sized(blocks, size) && OnDevice(h.extents, |blocks|)
    ensures |Contents(blocks, h)| <= h.payloadSize
    ensures |Contents(blocks, h)| == if |Places(h.extents)| * size <= h.payloadSize then |Places(h.extents)| * size else h.payloadSize
  {
    hide Flatten, Gather, Places;
    GatherPicked(blocks, h.extents);
    FlattenLength(Picked(blocks, Places(h.extents)), size);
  }

  /** Two devices that differ in the first byte of a block the object reads give it different contents. */
  lemma ReadsDiffer(h: Header, x: seq<Block>, y: seq<Block>, size: nat, b: nat)
    requires Sized(x, size) && Sized(y, size) && |x| == |y| && size > 0 && OnDevice(h.extents, |x|)
    requires Reads(h, size, b) && b < |x| && x[b][0] != y[b][0]
    ensures Contents(x, h) != Contents(y, h)
  {
    hide Contents, Places;
    var k: nat :| ReadAt(h, size, b, k);
    ContentsAt(x, h, size, k, 0);
    ContentsAt(y, h, size, k, 0);
  }

  /** An object that misses the changed blocks reads as before. */
  lemma ReadsSame(h: Header, x: seq<Block>, y: seq<Block>, size: nat, es: seq<Extent>)
    requires Sized(x, size) && Sized(y, size) && size > 0 && OnDevice(h.extents, |x|)
    requires Confined(x, y, es) && Misses(h, size, es)
    ensures Contents(x, h) == Contents(y, h)
  {
    hide Contents, Places, InRuns, Reads;
    ContentsLength(x, h, size);
    ContentsLength(y, h, size);
    forall i: nat | i < |Contents(x, h)| ensures Contents(x, h)[i] == Contents(y, h)[i] {
      ByteSame(h, x, y, size, es, i);
    }
  }

  lemma ByteSame(h: Header, x: seq<Block>, y: seq<Block>, size: nat, es: seq<Extent>, i: nat)
    requires Sized(x, size) && Sized(y, size) && size > 0 && OnDevice(h.extents, |x|)
    requires Confined(x, y, es) && Misses(h, size, es)
    requires i < |Contents(x, h)| == |Contents(y, h)| && i < |Places(h.extents)| * size && i < h.payloadSize
    ensures Contents(x, h)[i] == Contents(y, h)[i]
  {
    hide Contents, Places, InRuns;
    var k, j := i / size, i % size;
    DivMod(i, size, |Places(h.extents)|);
    ContentsAt(x, h, size, k, j);
    ContentsAt(y, h, size, k, j);
    var b := Places(h.extents)[k];
    assert ReadAt(h, size, b, k);
    assert Reads(h, size, b);
  }

  lemma DivMod(i: nat, size: nat, n: nat)
    requires size > 0 && i < n * size
    ensures i == (i / size) * size + i % size && i / size < n && i % size < size
  {
    var q := i / size;
    if q >= n {
      MultipleMonotone(size, n, q);
    }
  }

  // ---------- what a write does to an object of any session ----------

  /** The runs of a write lie on the device, apart from each other and from the superblocks. */
  ghost predicate WellApart(g: Grants, target: nat, total: nat) {
    && target < 2 <= total && DisjointExtents(g.payload, g.header)
    && OnDevice([g.payload, g.header], total)
    && (g.payload.numBlocks > 0 ==> g.payload.startBlock >= 2) && (g.header.numBlocks > 0 ==> g.header.startBlock >= 2)
  }

  /** Data for a run: whole blocks, as many as the run has. */
  ghost predicate Fits(data: seq<Block>, e: Extent, total: nat, size: nat) {
    |data| == e.numBlocks && Sized(data, size) && e.startBlock + e.numBlocks <= total
  }

  /** Data for the write of an object. */
  ghost predicate Shaped(before: seq<Block>, g: Grants, target: nat, payload: seq<Block>, header: seq<Block>, image: Block, size: nat) {
    && size > 0 && Sized(before, size) && WellApart(g, target, |before|)
    && Fits(payload, g.payload, |before|, size) && Fits(header, g.header, |before|, size) && |image| == size
  }

  lemma GrantedApart(words: seq<bv64>, marked: seq<bv64>, total: nat, e: Extent)
    requires Granted(words, marked, total, e) && Marked(words, 0) && Marked(words, 1)
    ensures e.startBlock + e.numBlocks <= total && (if e.numBlocks > 0 then e.startBlock >= 2 else e == Extent(0, 0))
    ensures Marked(marked, 0) && Marked(marked, 1)
    ensures forall b: nat :: e.startBlock <= b < e.startBlock + e.numBlocks ==> !Marked(words, b) && Marked(marked, b)
  {
    hide Marked;
    if e.numBlocks > 0 {
      assert !Marked(words, e.startBlock);
    }
  }

  lemma PlacedApart(words: seq<bv64>, marked: seq<bv64>, total: nat, g: Grants, n: nat, m: nat, target: nat)
    requires Placed(words, marked, total, g, n, m) && Marked(words, 0) && Marked(words, 1) && target < 2 <= total
    ensures WellApart(g, target, total)
  {
    hide Marked, Granted, NoRun;
    GrantedApart(words, g.middle, total, g.payload);
    GrantedApart(g.middle, marked, total, g.header);
    var p, q := g.payload, g.header;
    assert p.startBlock <= q.startBlock < p.startBlock + p.numBlocks ==> Marked(g.middle, q.startBlock);
    assert q.startBlock <= p.startBlock < q.startBlock + q.numBlocks ==> !Marked(g.middle, p.startBlock);
  }

  lemma OutcomeAt(before: seq<Block>, g: Grants, target: nat, payload: seq<Block>, header: seq<Block>, image: Block, size: nat, b: nat)
    requires Shaped(before, g, target, payload, header, image, size) && b < |before|
    ensures var after := Outcome(before, g, target, payload, header, image);
      && |after| == |before|
      && after[b] == (if b == target then image
                      else if g.payload.startBlock <= b < g.payload.startBlock + |payload| then payload[b - g.payload.startBlock]
                      else if g.header.startBlock <= b < g.header.startBlock + |header| then header[b - g.header.startBlock]
                      else before[b])
  {
    hide Overwrite;
    var x := Overwrite(before, g.payload.startBlock, payload);
    var y := Overwrite(x, g.header.startBlock, header);
    OverwriteAt(before, g.payload.startBlock, payload, b);
    OverwriteAt(x, g.header.startBlock, header, b);
    OverwriteAt(y, target, [image], b);
  }

  lemma OverwriteAt(blocks: seq<Block>, start: nat, data: seq<Block>, b: nat)
    requires start + |data| <= |blocks| && b < |blocks|
    ensures Overwrite(blocks, start, data)[b] == if start <= b < start + |data| then data[b - start] else blocks[b]
  {
  }

  lemma OutcomeSized(before: seq<Block>, g: Grants, target: nat, payload: seq<Block>, header: seq<Block>, image: Block, size: nat)
    requires Shaped(before, g, target, payload, header, image, size)
    ensures var after := Outcome(before, g, target, payload, header, image);
      Sized(after, size) && Confined(before, after, Runs(g, target))
  {
    hide Outcome, InRuns;
    var after := Outcome(before, g, target, payload, header, image);
    forall b: nat | b < |before| ensures |after[b]| == size && (!InRuns(Runs(g, target), b) ==> after[b] == before[b]) {
      OutcomeAt(before, g, target, payload, header, image, size, b);
      InThree(g, target, b);
    }
    OutcomeAt(before, g, target, payload, header, image, size, 0);
  }

  lemma InThree(g: Grants, target: nat, b: nat)
    ensures InRuns(Runs(g, target), b) <==>
      || b == target || g.payload.startBlock <= b < g.payload.startBlock + g.payload.numBlocks
      || g.header.startBlock <= b < g.header.startBlock + g.header.numBlocks
  {
    RunsAre(g, target);
    if b == target {
      assert Extent(target, 1).startBlock <= b < Extent(target, 1).startBlock + Extent(target, 1).numBlocks;
    }
  }

  /** The object reads after the write as it read before. */
  ghost predicate KeptBy(h: Header, before: seq<Block>, g: Grants, target: nat, payload: seq<Block>, header: seq<Block>, image: Block)
    requires g.payload.startBlock + |payload| <= |before| && g.header.startBlock + |header| <= |before| && target < |before|
  {
    Contents(Outcome(before, g, target, payload, header, image), h) == Contents(before, h)
  }

  lemma FillShape(payload: seq<Byte>, size: nat)
    requires size > 0
    ensures Sized(Fill(payload, Blocks(|payload|, size), size), size)
  {
    FillFlatten(payload, Blocks(|payload|, size), size);
  }

  /** The first byte of each block of a payload is a byte of the payload. */
  lemma FillStarts(payload: seq<Byte>, size: nat, i: nat)
    requires size > 0 && i < Blocks(|payload|, size)
    ensures Sized(Fill(payload, Blocks(|payload|, size), size), size) && i * size < |payload|
    ensures Fill(payload, Blocks(|payload|, size), size)[i][0] == payload[i * size]
  {
    var n := Blocks(|payload|, size);
    FillShape(payload, size);
    FillFlatten(payload, n, size);
    hide Fill, Flatten, Blocks;
    FlattenAt(Fill(payload, n, size), size, i, 0);
    BlockStarts(|payload|, size, i);
  }

  lemma BlockStarts(length: nat, size: nat, i: nat)
    requires size > 0 && i < Blocks(length, size)
    ensures i * size < length
  {
    var c := CeilDiv(length, size);
    CeilDivBounds(length, size);
    hide CeilDiv;
    assert i <= c - 1;
    MultipleMonotone(size, i, c - 1);
    assert size * (c - 1) == c * size - size && size * i == i * size;
  }

  /** Some byte other than x. */
  function Other(x: Byte): (y: Byte)
    ensures x != y
  {
    if x == 0 then 1 else 0
  }

  lemma OneRun(e: Extent, b: nat)
    ensures InRuns([e], b) <==> e.startBlock <= b < e.startBlock + e.numBlocks
  {
    assert e in [e];
  }

  lemma MissesAll(h: Header, size: nat, es: seq<Extent>, fs: seq<Extent>, gs: seq<Extent>)
    requires Misses(h, size, es) && Misses(h, size, fs) && forall e :: e in gs ==> e in es || e in fs
    ensures Misses(h, size, gs)
  {
    hide Reads;
  }

  /**
    The payload's run decides: an object that misses the header's run and the superblock keeps its contents
    under every payload of a given length exactly if it reads no block of the run that length is given.
    The header written does not depend on the bytes of the payload.
  */
  lemma PayloadRunIff(h: Header, before: seq<Block>, g: Grants, target: nat, length: nat, header: seq<Block>, image: Block, size: nat)
    requires size > 0 && Sized(before, size) && WellApart(g, target, |before|) && OnDevice(h.extents, |before|)
    requires g.payload.numBlocks == Blocks(length, size) && g.payload.startBlock + g.payload.numBlocks <= |before|
    requires Fits(header, g.header, |before|, size) && |image| == size
    requires Misses(h, size, [g.header, Extent(target, 1)])
    ensures (forall payload: seq<Byte> :: |payload| == length ==>
               KeptBy(h, before, g, target, Fill(payload, g.payload.numBlocks, size), header, image))
      <==> Misses(h, size, [g.payload])
  {
    hide Contents, Outcome, Fill, Blocks, Misses;
    if Misses(h, size, [g.payload]) {
      MissesAll(h, size, [g.payload], [g.header, Extent(target, 1)], Runs(g, target));
      forall payload: seq<Byte> | |payload| == length
        ensures KeptBy(h, before, g, target, Fill(payload, g.payload.numBlocks, size), header, image)
      {
        FillShape(payload, size);
        SurvivesAny(h, before, g, target, Fill(payload, g.payload.numBlocks, size), header, image, size);
      }
    } else {
      var b := Hit(h, size, g.payload);
      var payload := seq(length, _ => Other(before[b][0]));
      FillShape(payload, size);
      LostPayload(h, before, g, target, payload, header, image, size, b);
      assert !KeptBy(h, before, g, target, Fill(payload, g.payload.numBlocks, size), header, image);
    }
  }

  lemma Hit(h: Header, size: nat, e: Extent) returns (b: nat)
    requires !Misses(h, size, [e])
    ensures Reads(h, size, b) && e.startBlock <= b < e.startBlock + e.numBlocks
  {
    hide Reads;
    b :| Reads(h, size, b) && InRuns([e], b);
    OneRun(e, b);
  }

  /** An object that misses all blocks of a write reads as before, whatever is written. */
  lemma SurvivesAny(h: Header, before: seq<Block>, g: Grants, target: nat, payload: seq<Block>, header: seq<Block>, image: Block, size: nat)
    requires Shaped(before, g, target, payload, header, image, size) && OnDevice(h.extents, |before|)
    requires Misses(h, size, Runs(g, target))
    ensures KeptBy(h, before, g, target, payload, header, image)
  {
    hide Contents, Outcome, Misses, Runs;
    OutcomeSized(before, g, target, payload, header, image, size);
    ReadsSame(h, before, Outcome(before, g, target, payload, header, image), size, Runs(g, target));
  }

  lemma LostPayload(h: Header, before: seq<Block>, g: Grants, target: nat, payload: seq<Byte>, header: seq<Block>, image: Block, size: nat, b: nat)
    requires size > 0 && g.payload.numBlocks == Blocks(|payload|, size)
    requires Shaped(before, g, target, Fill(payload, g.payload.numBlocks, size), header, image, size)
    requires OnDevice(h.extents, |before|) && Reads(h, size, b) && g.payload.startBlock <= b < g.payload.startBlock + g.payload.numBlocks
    requires forall i :: 0 <= i < |payload| ==> payload[i] != before[b][0]
    ensures !KeptBy(h, before, g, target, Fill(payload, g.payload.numBlocks, size), header, image)
  {
    hide Contents, Outcome, Fill, Blocks, Reads;
    var data := Fill(payload, g.payload.numBlocks, size);
    var after := Outcome(before, g, target, data, header, image);
    OutcomeSized(before, g, target, data, header, image, size);
    OutcomeAt(before, g, target, data, header, image, size, b);
    FillStarts(payload, size, b - g.payload.startBlock);
    ReadsDiffer(h, before, after, size, b);
  }

  /**
    An object survives a write whatever stood in its blocks before exactly if it reads no block of the
    payload's run, of the header's run and of the superblock that is not active.
  */
  lemma SurvivesIff(h: Header, before: seq<Block>, g: Grants, target: nat, payload: seq<Block>, header: seq<Block>, image: Block, size: nat)
    requires Shaped(before, g, target, payload, header, image, size) && OnDevice(h.extents, |before|)
    ensures (forall earlier: seq<Block> :: Sized(earlier, size) && Confined(before, earlier, Runs(g, target)) ==>
               KeptBy(h, earlier, g, target, payload, header, image))
      <==> Misses(h, size, Runs(g, target))
  {
    VariedIff(h, before, g, target, payload, header, image, size, Runs(g, target), []) by {
      EmptyRuns(h, size);
    }
  }

  /**
    The header's run decides in the same way: an object that misses the payload's run and the superblock
    keeps its contents, whatever stood in the header's run before, exactly if it reads no block of that run.
  */
  lemma HeaderRunIff(h: Header, before: seq<Block>, g: Grants, target: nat, payload: seq<Block>, header: seq<Block>, image: Block, size: nat)
    requires Shaped(before, g, target, payload, header, image, size) && OnDevice(h.extents, |before|)
    requires Misses(h, size, [g.payload, Extent(target, 1)])
    ensures (forall earlier: seq<Block> :: Sized(earlier, size) && Confined(before, earlier, [g.header]) ==>
               KeptBy(h, earlier, g, target, payload, header, image))
      <==> Misses(h, size, [g.header])
  {
    VariedIff(h, before, g, target, payload, header, image, size, [g.header], [g.payload, Extent(target, 1)]);
  }

  lemma EmptyRuns(h: Header, size: nat)
    ensures Misses(h, size, [])
  {
  }

  /** Runs of the write whose former contents vary, and runs the object misses: together all of them. */
  lemma VariedIff(h: Header, before: seq<Block>, g: Grants, target: nat, payload: seq<Block>, header: seq<Block>, image: Block, size: nat,
                  es: seq<Extent>, fs: seq<Extent>)
    requires Shaped(before, g, target, payload, header, image, size) && OnDevice(h.extents, |before|)
    requires (forall e :: e in es ==> e in Runs(g, target)) && (forall e :: e in Runs(g, target) ==> e in es || e in fs)
    requires Misses(h, size, fs)
    ensures (forall earlier: seq<Block> :: Sized(earlier, size) && Confined(before, earlier, es) ==>
               KeptBy(h, earlier, g, target, payload, header, image))
      <==> Misses(h, size, es)
  {
    hide Contents, Outcome, Misses, Runs, InRuns, Sized;
    if Misses(h, size, es) {
      MissesAll(h, size, es, fs, Runs(g, target));
      forall earlier: seq<Block> | Sized(earlier, size) && Confined(before, earlier, es)
        ensures KeptBy(h, earlier, g, target, payload, header, image)
      {
        SurvivesAny(h, earlier, g, target, payload, header, image, size);
      }
    } else {
      var earlier := LostContents(h, before, g, target, payload, header, image, size, es);
      assert !KeptBy(h, earlier, g, target, payload, header, image);
    }
  }

  lemma LostContents(h: Header, before: seq<Block>, g: Grants, target: nat, payload: seq<Block>, header: seq<Block>, image: Block, size: nat,
                     es: seq<Extent>) returns (earlier: seq<Block>)
    requires Shaped(before, g, target, payload, header, image, size) && OnDevice(h.extents, |before|)
    requires (forall e :: e in es ==> e in Runs(g, target)) && !Misses(h, size, es)
    ensures Sized(earlier, size) && Confined(before, earlier, es) && |earlier| == |before|
    ensures !KeptBy(h, earlier, g, target, payload, header, image)
  {
    hide Contents, Outcome, Reads, InRuns, Runs;
    var b: nat :| Reads(h, size, b) && InRuns(es, b);
    FewerRuns(es, Runs(g, target), b);
    InThree(g, target, b);
    OutcomeSized(before, g, target, payload, header, image, size);
    var after := Outcome(before, g, target, payload, header, image);
    earlier := before[b := [Other(after[b][0])] + after[b][1..]];
    OutcomeSized(earlier, g, target, payload, header, image, size);
    OutcomeAt(before, g, target, payload, header, image, size, b);
    OutcomeAt(earlier, g, target, payload, header, image, size, b);
    ReadsDiffer(h, Outcome(earlier, g, target, payload, header, image), earlier, size, b);
  }

  /** What a successful write of an object promises is all the results above ask for. */
  lemma WriteShaped(before: seq<Block>, after: seq<Block>, words: seq<bv64>, marked: seq<bv64>, g: Grants, target: nat,
                    payload: seq<Byte>, header: seq<Byte>, n: nat, m: nat, size: nat)
    requires size > 0 && Sized(before, size) && Sized(after, size) && target < 2 <= |before|
    requires Placed(words, marked, |before|, g, n, m) && Marked(words, 0) && Marked(words, 1)
    requires Written(before, after, g, target, Fill(payload, g.payload.numBlocks, size), Fill(header, g.header.numBlocks, size))
    ensures Shaped(before, g, target, Fill(payload, g.payload.numBlocks, size), Fill(header, g.header.numBlocks, size), after[target], size)
    ensures after == Outcome(before, g, target, Fill(payload, g.payload.numBlocks, size), Fill(header, g.header.numBlocks, size), after[target])
  {
    hide Marked, Granted, NoRun, Fill, Outcome;
    PlacedApart(words, marked, |before|, g, n, m, target);
    FillFlatten(payload, g.payload.numBlocks, size);
    FillFlatten(header, g.header.numBlocks, size);
  }

  // ---------- where a write will land ----------

  /** A run is free after the payload's grant exactly if it was free before and is apart from the payload's run. */
  lemma FreeBeside(words: seq<bv64>, middle: seq<bv64>, total: nat, e: Extent, a: nat, n: nat)
    requires Granted(words, middle, total, e) && n > 0
    ensures FreeRun(middle, total, a, n) <==> FreeRun(words, total, a, n) && DisjointExtents(e, Extent(a, n))
  {
    hide Marked;
    if e.numBlocks > 0 && FreeRun(middle, total, a, n) {
      assert e.startBlock <= a < e.startBlock + e.numBlocks ==> Marked(middle, a);
      assert a <= e.startBlock < a + n ==> Marked(middle, e.startBlock);
    }
  }

  /** Before the call the bitmap and the two lengths determine both runs, whatever is written. */
  lemma RunsByLengths(words: seq<bv64>, total: nat, n: nat, m: nat, marked: seq<bv64>, g: Grants, marked': seq<bv64>, g': Grants)
    requires Placed(words, marked, total, g, n, m) && Placed(words, marked', total, g', n, m)
    ensures g.payload == g'.payload
    ensures g.header.numBlocks > 0 && g'.header.numBlocks > 0 ==> g.header == g'.header
  {
    hide Marked, NoRun, FreeRun;
    if g.header.numBlocks > 0 && g'.header.numBlocks > 0 {
      var e, a, a' := g.payload, g.header.startBlock, g'.header.startBlock;
      FreeBeside(words, g.middle, total, e, a, m);
      FreeBeside(words, g'.middle, total, e, a, m);
      FreeBeside(words, g.middle, total, e, a', m);
      FreeBeside(words, g'.middle, total, e, a', m);
    }
  }

  // ---------- a session that loses an object of the one before ----------

  /** On a freshly mounted device the payload and a one-block header fit if there is room for both. */
  lemma RoomAfterMount(words: seq<bv64>, total: nat, n: nat)
    requires FirstMarked(words, total, 66) && n > 0 && n + 80 <= total
    ensures !NoRun(words, total, n)
    ensures forall middle, e :: Granted(words, middle, total, e) && e.numBlocks == n ==> !NoRun(middle, total, 1)
  {
    hide Marked;
    assert FreeRun(words, total, 72, n);
    forall middle, e | Granted(words, middle, total, e) && e.numBlocks == n ensures !NoRun(middle, total, 1) {
      FirstRunAt72(words, total, e.startBlock, n);
      var s := (72 + n + 7) / 8 * 8;
      assert FreeRun(words, total, s, 1);
      FreeBeside(words, middle, total, e, s, 1);
    }
  }

  lemma OneBlockHeader(length: nat, size: nat)
    requires size >= 512 && 0 < CeilDiv(length, size) < U32_SPAN
    ensures HeaderBlocks(length, [], size) == 1
  {
    assert HeaderLength(1, []) == 80;
    assert CeilDiv(80, size) == 1;
  }

  /** The device holds a superblock that can be followed by another generation. */
  ghost predicate Mountable(blocks: seq<Block>, sum: Checksum, generation: nat) {
    |blocks| >= 2 && Superblocks.RecoverActive(blocks[0], blocks[1], sum).Ok? &&
    Superblocks.RecoverActive(blocks[0], blocks[1], sum).value.active.generation == generation
  }

  lemma ConsistentMountable(blocks: seq<Block>, m: Superblocks.Manager, sum: Checksum)
    requires |blocks| >= 2 && SuperOk(blocks[0], blocks[1], m, None, sum)
    ensures Mountable(blocks, sum, m.active.generation)
  {
    hide SuperOk;
    RecoveredIsKnown(blocks[0], blocks[1], m, None, sum);
  }

  lemma FirstReading(o: Stored, blocks: seq<Block>, words: seq<bv64>, payload: seq<Byte>, size: nat)
    requires size > 0 && CeilDiv(|payload|, size) < U32_SPAN && o.payload == Kept(payload, size) && ObjectOk(o, blocks, words)
    ensures Contents(blocks, o.header) == payload
  {
    KeptIffCounted(payload, size);
  }

  /** A session that mounts a device and writes one object: the object starts at block 72. */
  method FirstWrite(device: Device, sum: Checksum, id: seq<Byte>, payload: seq<Byte>, ghost generation: nat) returns (engine: Engine, h: Header)
    requires device.Valid() && device.reliable && device.blockSize >= 512 && Digest(sum) && |id| == 16
    requires 0 < CeilDiv(|payload|, device.blockSize) < U32_SPAN && CeilDiv(|payload|, device.blockSize) + 80 <= device.totalBlocks
    requires Mountable(device.blocks, sum, generation) && generation + 1 < GENERATIONS
    modifies device
    ensures fresh(engine) && engine.device == device && engine.Valid()
    ensures h.extents == [Extent(72, CeilDiv(|payload|, device.blockSize))] && h.payloadSize == |payload|
    ensures Contents(device.blocks, h) == payload && Mountable(device.blocks, sum, generation + 1)
  {
    hide SuperOk, ObjectOk, ExtentsOk, Marked, Digest, Confined, Written, Granted, NoRun, CeilDiv, FirstMarked, HeaderBlocks, Power;
    hide Continues, Runs, Fill, Encode, Body, Contents, Kept, Superblocks.Decode, Superblocks.Fields;
    var mounted := Engine.Mount(device, sum);
    engine := mounted.value;
    ghost var words, n := engine.allocator.bitmap[..], CeilDiv(|payload|, device.blockSize);
    RoomAfterMount(words, device.totalBlocks, n);
    OneBlockHeader(|payload|, device.blockSize);
    var w;
    ghost var g;
    w, g := engine.WriteObject(id, payload, []);
    h := w.value;
    GrantedAt72(words, g.middle, device.totalBlocks, g.payload);
    ConsistentMountable(device.blocks, engine.manager, sum);
    assert engine.objects[0] in engine.objects;
    FirstReading(engine.objects[0], device.blocks, engine.allocator.bitmap[..], payload, device.blockSize);
  }

  lemma GrantedAt72(words: seq<bv64>, marked: seq<bv64>, total: nat, e: Extent)
    requires FirstMarked(words, total, 66) && Granted(words, marked, total, e) && e.numBlocks > 0
    ensures e.startBlock == 72
  {
    FirstRunAt72(words, total, e.startBlock, e.numBlocks);
  }

  /**
    Format, mount, write p, read it; mount again, write q of the same length, read the first object again:
    it now reads as q.
  */
  method LostObject(device: Device, sum: Checksum, root: seq<Byte>, p: seq<Byte>, q: seq<Byte>)
    returns (first: Result<seq<Byte>, CodecError>, later: Result<seq<Byte>, CodecError>)
    requires device.Valid() && device.reliable && device.blockSize >= 512 && Digest(sum) && |root| == 16
    requires |p| == |q| && p != q && CeilDiv(|p|, device.blockSize) < U32_SPAN
    requires device.totalBlocks >= 128 && CeilDiv(|p|, device.blockSize) + 80 <= device.totalBlocks
    modifies device
    ensures first == Ok(p) && later == Ok(q)
  {
    hide SuperOk, ObjectOk, ExtentsOk, Marked, Digest, Power, Mountable, Contents, CeilDiv;
    CeilDivBounds(|p|, device.blockSize);
    var formatted := Engine.Format(device, root, sum);
    ConsistentMountable(device.blocks, formatted.value.manager, sum);
    var engine, header := FirstWrite(device, sum, root, p, 1);
    first := engine.ReadObject(header);
    var newer;
    engine, newer := FirstWrite(device, sum, root, q, 2);
    later := engine.ReadObject(header);
    SameReading(header, newer, device.blocks);
  }

  lemma SameReading(h: Header, k: Header, blocks: seq<Block>)
    requires h.extents == k.extents && h.payloadSize == k.payloadSize
    ensures Contents(blocks, h) == Contents(blocks, k)
  {
  }
}
