/**
  The user-space heap: a fixed table of block descriptors over mapped 64 KiB chunks, first fit with
  splitting, and coalescing deferred until no block fits.

  Addresses and sizes are integers; every reachable value stays far below 2^64. The kernel's answers to the
  two system calls that map a chunk are parameters.
*/
module Heap {

  import opened Arithmetic
  import opened Common

  const CHUNK_SIZE: int := 0x1_0000
  const MAX_BLOCKS: int := 1024
  const MAX_CHUNKS: int := 64
  const HEAP_START: int := 0x6000_0000_0000
  const HEAP_END: int := 0x7C00_0000_0000

  datatype BlockMeta = BlockMeta(active: bool, vaddr: nat, size: nat, isFree: bool) {
    function End(): nat { vaddr + size }
    predicate Tracked() { active && isFree }
    predicate Live() { active && !isFree }
    predicate Covers(x: int) { vaddr <= x < End() }
  }

  const EMPTY: BlockMeta := BlockMeta(false, 0, 0, false)

  // ---------- what a table of blocks means ----------

  predicate Apart(a: BlockMeta, b: BlockMeta) {
    a.End() <= b.vaddr || b.End() <= a.vaddr
  }

  /** An active block is a non-empty range inside the mapped chunks. */
  predicate Inside(b: BlockMeta, top: int) {
    b.active ==> HEAP_START <= b.vaddr && b.size > 0 && b.End() <= top
  }

  /** Active blocks are non-empty, inside the mapped chunks and pairwise disjoint. */
  ghost predicate WellPlaced(s: seq<BlockMeta>, top: int) {
    (forall i :: 0 <= i < |s| ==> Inside(s[i], top)) &&
    (forall i, j :: 0 <= i < |s| && 0 <= j < |s| && i != j && s[i].active && s[j].active ==> Apart(s[i], s[j]))
  }

  /** x belongs to a tracked free block. */
  ghost predicate FreeByte(s: seq<BlockMeta>, x: int) {
    exists i :: 0 <= i < |s| && s[i].Tracked() && s[i].Covers(x)
  }

  /** [v, v + n) has been handed out and not returned. */
  ghost predicate Allocated(s: seq<BlockMeta>, v: int, n: int) {
    exists i :: 0 <= i < |s| && s[i].Live() && s[i].vaddr == v && s[i].size == n
  }

  /** Block j starts where block i ends and both are free. */
  predicate Adjacent(s: seq<BlockMeta>, i: int, j: int)
    requires 0 <= i < |s| && 0 <= j < |s|
  {
    i != j && s[i].Tracked() && s[j].Tracked() && s[i].End() == s[j].vaddr
  }

  ghost predicate Coalesced(s: seq<BlockMeta>) {
    forall i, j :: 0 <= i < |s| && 0 <= j < |s| ==> !Adjacent(s, i, j)
  }

  ghost predicate HasInactive(s: seq<BlockMeta>) {
    exists i :: 0 <= i < |s| && !s[i].active
  }

  ghost predicate HasTwoInactive(s: seq<BlockMeta>) {
    exists i, j :: 0 <= i < |s| && 0 <= j < |s| && i != j && !s[i].active && !s[j].active
  }

  ghost predicate SameAllocations(s: seq<BlockMeta>, t: seq<BlockMeta>) {
    forall v, n :: Allocated(s, v, n) <==> Allocated(t, v, n)
  }

  ghost predicate SameFreeBytes(s: seq<BlockMeta>, t: seq<BlockMeta>) {
    forall x :: FreeByte(s, x) <==> FreeByte(t, x)
  }

  /** Some aligned run of free bytes could hold the request. */
  ghost predicate RunExists(s: seq<BlockMeta>, size: nat, align: nat)
    requires align > 0
  {
    exists a: nat :: a % align == 0 && FreeRun(s, a, size)
  }

  ghost predicate FreeRun(s: seq<BlockMeta>, a: int, n: nat) {
    forall x :: a <= x < a + n ==> FreeByte(s, x)
  }

  /** Live allocations never overlap, each other or the free bytes. */
  lemma AllocationsDisjoint(s: seq<BlockMeta>, top: int, v: int, n: int, w: int, m: int)
    requires WellPlaced(s, top) && Allocated(s, v, n) && Allocated(s, w, m)
    ensures (v == w && n == m) || v + n <= w || w + m <= v
    ensures forall x :: v <= x < v + n ==> !FreeByte(s, x)
  {
    var i :| 0 <= i < |s| && s[i].Live() && s[i].vaddr == v && s[i].size == n;
    var j :| 0 <= j < |s| && s[j].Live() && s[j].vaddr == w && s[j].size == m;
    if i != j {
      assert Apart(s[i], s[j]);
    }
    forall x | v <= x < v + n ensures !FreeByte(s, x) {
      assert forall k :: 0 <= k < |s| && s[k].Tracked() ==> Apart(s[i], s[k]);
    }
  }

  // ---------- alignment ----------

  /** Bytes to skip from v to the next multiple of align. */
  function Adjustment(v: nat, align: nat): (a: nat)
    requires align > 0
    ensures a < align && (v + a) % align == 0
    ensures forall w: nat :: w >= v && w % align == 0 ==> v + a <= w
  {
    var offset := v % align;
    var a := if offset == 0 then 0 else align - offset;
    AdjustmentAligns(v, align, a);
    a
  }

  lemma AdjustmentAligns(v: nat, align: nat, a: nat)
    requires align > 0 && a == if v % align == 0 then 0 else align - v % align
    ensures a < align && (v + a) % align == 0
    ensures forall w: nat :: w >= v && w % align == 0 ==> v + a <= w
  {
    if a != 0 {
      var q := v / align;
      assert v + a == align * (q + 1);
      NoRemainder(align, q + 1);
      forall w: nat | w >= v && w % align == 0 ensures v + a <= w {
        var k := w / align;
        assert w == align * k;
        if k <= q {
          MultipleMonotone(align, k, q);
          assert false;
        }
        MultipleMonotone(align, q + 1, k);
      }
    }
  }

  /** The test of one descriptor. */
  predicate Fits(b: BlockMeta, size: nat, align: nat)
    requires align > 0
  {
    b.Tracked() && b.size >= size && size + Adjustment(b.vaddr, align) <= U64_MAX &&
    b.size >= size + Adjustment(b.vaddr, align)
  }

  const U64_MAX: int := 0xFFFF_FFFF_FFFF_FFFF

  // ---------- a coalesced table keeps every free run in one block ----------

  lemma {:induction false} RunInOneBlock(s: seq<BlockMeta>, top: int, a: int, n: nat) returns (i: nat)
    requires WellPlaced(s, top) && Coalesced(s) && n > 0 && FreeRun(s, a, n)
    ensures i < |s| && s[i].Tracked() && s[i].vaddr <= a && a + n <= s[i].End()
    decreases n
  {
    if n == 1 {
      assert FreeByte(s, a);
      i :| 0 <= i < |s| && s[i].Tracked() && s[i].Covers(a);
    } else {
      i := RunInOneBlock(s, top, a, n - 1);
      assert FreeByte(s, a + n - 1);
      var k :| 0 <= k < |s| && s[k].Tracked() && s[k].Covers(a + n - 1);
      if k != i {
        assert Apart(s[i], s[k]);
        assert Adjacent(s, i, k);
      }
    }
  }

  /** First fit on a coalesced table fails exactly when no aligned free run can hold the request. */
  lemma NoFitIffNoRun(s: seq<BlockMeta>, top: int, size: nat, align: nat)
    requires WellPlaced(s, top) && Coalesced(s) && size > 0 && align > 0 && top <= HEAP_END
    ensures (forall i :: 0 <= i < |s| ==> !Fits(s[i], size, align)) <==> !RunExists(s, size, align)
  {
    if RunExists(s, size, align) {
      var a: nat :| a % align == 0 && FreeRun(s, a, size);
      var i := RunInOneBlock(s, top, a, size);
      assert Inside(s[i], top);
      assert Fits(s[i], size, align);
    }
    if i :| 0 <= i < |s| && Fits(s[i], size, align) {
      var a := s[i].vaddr + Adjustment(s[i].vaddr, align);
      forall x | a <= x < a + size ensures FreeByte(s, x) {
        assert s[i].Covers(x);
      }
      assert FreeRun(s, a, size);
    }
  }

  // ---------- merging ----------

  function Merged(s: seq<BlockMeta>, i: nat, j: nat): (t: seq<BlockMeta>)
    requires i < |s| && j < |s|
    ensures |t| == |s|
  {
    s[i := s[i].(size := s[i].size + s[j].size)][j := s[j].(active := false)]
  }

  lemma MergedWellPlaced(s: seq<BlockMeta>, i: nat, j: nat, top: int)
    requires i < |s| && j < |s| && Adjacent(s, i, j) && WellPlaced(s, top)
    ensures WellPlaced(Merged(s, i, j), top)
  {
    var t := Merged(s, i, j);
    forall k, l | 0 <= k < |t| && 0 <= l < |t| && k != l && t[k].active && t[l].active
      ensures Apart(t[k], t[l])
    {
      assert Apart(s[k], s[l]);
      if k == i {
        assert Apart(s[j], s[l]);
      } else if l == i {
        assert Apart(s[k], s[j]);
      }
    }
  }

  lemma MergedMeaning(s: seq<BlockMeta>, i: nat, j: nat)
    requires i < |s| && j < |s| && Adjacent(s, i, j)
    ensures SameFreeBytes(s, Merged(s, i, j)) && SameAllocations(s, Merged(s, i, j))
  {
    var t := Merged(s, i, j);
    forall x ensures FreeByte(s, x) <==> FreeByte(t, x) {
      if FreeByte(s, x) {
        var k :| 0 <= k < |s| && s[k].Tracked() && s[k].Covers(x);
        var l := if k == j then i else k;
        assert t[l].Tracked() && t[l].Covers(x);
      }
      if FreeByte(t, x) {
        var k :| 0 <= k < |t| && t[k].Tracked() && t[k].Covers(x);
        var l := if k == i && !s[i].Covers(x) then j else k;
        assert s[l].Tracked() && s[l].Covers(x);
      }
    }
    forall v, n ensures Allocated(s, v, n) <==> Allocated(t, v, n) {
      if Allocated(s, v, n) {
        var k :| 0 <= k < |s| && s[k].Live() && s[k].vaddr == v && s[k].size == n;
        assert t[k] == s[k];
      }
      if Allocated(t, v, n) {
        var k :| 0 <= k < |t| && t[k].Live() && t[k].vaddr == v && t[k].size == n;
        assert t[k] == s[k];
      }
    }
  }

  function ActiveCount(s: seq<BlockMeta>): nat {
    if s == [] then 0 else ActiveCount(s[..|s| - 1]) + if s[|s| - 1].active then 1 else 0
  }

  lemma {:induction false} ActiveCountUpdate(s: seq<BlockMeta>, i: nat, b: BlockMeta)
    requires i < |s|
    ensures ActiveCount(s[i := b]) == ActiveCount(s) - (if s[i].active then 1 else 0) + (if b.active then 1 else 0)
  {
    var t := s[i := b];
    if i == |s| - 1 {
      assert t[..|s| - 1] == s[..|s| - 1];
    } else {
      assert t[..|s| - 1] == s[..|s| - 1][i := b];
      ActiveCountUpdate(s[..|s| - 1], i, b);
    }
  }

  lemma MergedCount(s: seq<BlockMeta>, i: nat, j: nat)
    requires i < |s| && j < |s| && Adjacent(s, i, j)
    ensures ActiveCount(Merged(s, i, j)) == ActiveCount(s) - 1
  {
    var u := s[i := s[i].(size := s[i].size + s[j].size)];
    ActiveCountUpdate(s, i, u[i]);
    ActiveCountUpdate(u, j, s[j].(active := false));
  }

  // ---------- splitting ----------

  /** The table after block idx has been cut to [p, p + size): the two remainders are not tracked yet. */
  function Taken(s: seq<BlockMeta>, idx: nat, p: nat, size: nat): (t: seq<BlockMeta>)
    requires idx < |s|
    ensures |t| == |s|
  {
    s[idx := BlockMeta(s[idx].active, p, size, false)]
  }

  lemma TakenSound(s: seq<BlockMeta>, idx: nat, p: nat, size: nat, top: int)
    requires idx < |s| && WellPlaced(s, top) && s[idx].Tracked()
    requires size > 0 && s[idx].vaddr <= p && p + size <= s[idx].End()
    ensures WellPlaced(Taken(s, idx, p, size), top)
    ensures forall x :: FreeByte(Taken(s, idx, p, size), x) <==> FreeByte(s, x) && !s[idx].Covers(x)
    ensures forall v, n :: Allocated(Taken(s, idx, p, size), v, n) <==> Allocated(s, v, n) || (v == p && n == size)
  {
    var t := Taken(s, idx, p, size);
    assert Inside(s[idx], top);
    forall k, l | 0 <= k < |t| && 0 <= l < |t| && k != l && t[k].active && t[l].active
      ensures Apart(t[k], t[l])
    {
      assert Apart(s[k], s[l]);
    }
    forall x ensures FreeByte(t, x) <==> FreeByte(s, x) && !s[idx].Covers(x) {
      if FreeByte(t, x) {
        var k :| 0 <= k < |t| && t[k].Tracked() && t[k].Covers(x);
        assert t[k] == s[k];
        assert Apart(s[k], s[idx]);
      }
      if FreeByte(s, x) && !s[idx].Covers(x) {
        var k :| 0 <= k < |s| && s[k].Tracked() && s[k].Covers(x);
        assert t[k] == s[k];
      }
    }
    forall v, n ensures Allocated(t, v, n) <==> Allocated(s, v, n) || (v == p && n == size) {
      if Allocated(t, v, n) {
        var k :| 0 <= k < |t| && t[k].Live() && t[k].vaddr == v && t[k].size == n;
        if k != idx {
          assert t[k] == s[k];
        }
      }
      if Allocated(s, v, n) {
        var k :| 0 <= k < |s| && s[k].Live() && s[k].vaddr == v && s[k].size == n;
        assert t[k] == s[k];
      } else if v == p && n == size {
        assert t[idx].Live();
      }
    }
  }

  /** Recording a free range in an unused descriptor. */
  lemma RecordSound(s: seq<BlockMeta>, k: nat, v: nat, n: nat, top: int)
    requires k < |s| && !s[k].active && WellPlaced(s, top)
    requires n > 0 && HEAP_START <= v && v + n <= top
    requires forall i :: 0 <= i < |s| && s[i].active ==> Apart(s[i], BlockMeta(true, v, n, true))
    ensures WellPlaced(s[k := BlockMeta(true, v, n, true)], top)
    ensures forall x :: FreeByte(s[k := BlockMeta(true, v, n, true)], x) <==> FreeByte(s, x) || v <= x < v + n
    ensures SameAllocations(s[k := BlockMeta(true, v, n, true)], s)
  {
    var t := s[k := BlockMeta(true, v, n, true)];
    forall x ensures FreeByte(t, x) <==> FreeByte(s, x) || v <= x < v + n {
      if FreeByte(t, x) {
        var i :| 0 <= i < |t| && t[i].Tracked() && t[i].Covers(x);
        if i != k {
          assert s[i] == t[i];
        }
      }
      if FreeByte(s, x) {
        var i :| 0 <= i < |s| && s[i].Tracked() && s[i].Covers(x);
        assert t[i] == s[i];
      } else if v <= x < v + n {
        assert t[k].Covers(x);
      }
    }
    forall w, m ensures Allocated(t, w, m) <==> Allocated(s, w, m) {
      if Allocated(t, w, m) {
        var i :| 0 <= i < |t| && t[i].Live() && t[i].vaddr == w && t[i].size == m;
        assert s[i] == t[i];
      }
      if Allocated(s, w, m) {
        var i :| 0 <= i < |s| && s[i].Live() && s[i].vaddr == w && s[i].size == m;
        assert s[i] == t[i];
      }
    }
  }

  /** A piece of the block that was cut is apart from everything in the table after the cut. */
  lemma PieceApart(s: seq<BlockMeta>, idx: nat, p: nat, size: nat, top: int, v: nat, n: nat)
    requires idx < |s| && WellPlaced(s, top) && s[idx].Tracked()
    requires s[idx].vaddr <= v && v + n <= s[idx].End() && (v + n <= p || p + size <= v)
    ensures forall i :: 0 <= i < |s| && s[i].active ==> Apart(Taken(s, idx, p, size)[i], BlockMeta(true, v, n, true))
  {
    forall i | 0 <= i < |s| && s[i].active
      ensures Apart(Taken(s, idx, p, size)[i], BlockMeta(true, v, n, true))
    {
      if i != idx {
        assert Apart(s[i], s[idx]);
      }
    }
  }

  lemma {:induction false} CountBelow(s: seq<BlockMeta>)
    ensures ActiveCount(s) <= |s|
    ensures ActiveCount(s) + 1 <= |s| ==> HasInactive(s)
    ensures ActiveCount(s) + 2 <= |s| ==> HasTwoInactive(s)
  {
    if s != [] {
      var t := s[..|s| - 1];
      CountBelow(t);
      if HasInactive(t) {
        var i :| 0 <= i < |t| && !t[i].active;
        assert !s[i].active;
        if !s[|s| - 1].active {
          assert i != |s| - 1;
        } else if HasTwoInactive(t) {
          var j, k :| 0 <= j < |t| && 0 <= k < |t| && j != k && !t[j].active && !t[k].active;
          assert !s[j].active && !s[k].active;
        }
      }
    }
  }

  /** The free ranges kept when [p, p + size) is cut out of b, given which remainders found a descriptor. */
  predicate Kept(b: BlockMeta, p: nat, size: nat, before: bool, after: bool, x: int) {
    b.Covers(x) && ((before && x < p) || (after && p + size <= x))
  }

  datatype Refusal = Granted | NotInitialized | ChunkTableFull | NoAddressSpace | KernelRefused | BlockTableFull

  // ---------- the table after a call ----------

  /** The first inactive descriptor, or the length of the table. */
  function FirstIdle(s: seq<BlockMeta>): (k: nat)
    ensures k <= |s| && (forall i :: 0 <= i < k ==> s[i].active) && (k < |s| ==> !s[k].active)
  {
    if s == [] || !s[0].active then 0 else 1 + FirstIdle(s[1..])
  }

  lemma FirstIdleIs(s: seq<BlockMeta>, k: nat)
    requires k <= |s| && (forall i :: 0 <= i < k ==> s[i].active) && (k < |s| ==> !s[k].active)
    ensures FirstIdle(s) == k && (k < |s| <==> HasInactive(s))
  {
    hide FirstIdle;
  }

  /** A free block recorded in the first inactive descriptor; with none left the table stays as it is. */
  function Recorded(s: seq<BlockMeta>, v: nat, n: nat): (t: seq<BlockMeta>)
    ensures |t| == |s|
  {
    if FirstIdle(s) < |s| then s[FirstIdle(s) := BlockMeta(true, v, n, true)] else s
  }

  /** The table after a request is cut out of block idx: first the front remainder is recorded, then the back one. */
  function Split(s: seq<BlockMeta>, idx: nat, size: nat, align: nat): (t: seq<BlockMeta>)
    requires align > 0 && idx < |s| && Fits(s[idx], size, align)
    ensures |t| == |s|
  {
    var b := s[idx];
    var a := Adjustment(b.vaddr, align);
    var front := if a > 0 then Recorded(Taken(s, idx, b.vaddr + a, size), b.vaddr, a) else Taken(s, idx, b.vaddr + a, size);
    if b.size - size - a > 0 then Recorded(front, b.vaddr + a + size, b.size - size - a) else front
  }

  ghost predicate NoFit(s: seq<BlockMeta>, size: nat, align: nat)
    requires align > 0
  {
    forall j :: 0 <= j < |s| ==> !Fits(s[j], size, align)
  }

  /** Block i is the first that fits. */
  ghost predicate FirstFit(s: seq<BlockMeta>, size: nat, align: nat, i: nat)
    requires align > 0
  {
    i < |s| && Fits(s[i], size, align) && forall j :: 0 <= j < i ==> !Fits(s[j], size, align)
  }

  /** Nothing fits and nothing can be merged, but after one more chunk block i is the first that fits. */
  ghost predicate FitsGrown(s: seq<BlockMeta>, base: nat, size: nat, align: nat, i: nat)
    requires align > 0
  {
    && Coalesced(s) && HasInactive(s) && NoFit(s, size, align)
    && Coalesced(Recorded(s, base, CHUNK_SIZE)) && FirstFit(Recorded(s, base, CHUNK_SIZE), size, align, i)
  }

  class HeapArena {

    const blocks: array<BlockMeta>
    var chunkCount: nat
    var nextVaddr: nat
    var initialized: bool

    ghost predicate Valid()
      reads this, blocks
    {
      && blocks.Length == MAX_BLOCKS
      && chunkCount <= MAX_CHUNKS
      && nextVaddr == HEAP_START + CHUNK_SIZE * chunkCount
      && WellPlaced(blocks[..], nextVaddr)
    }

    constructor ()
      ensures Valid() && fresh(blocks) && !initialized && chunkCount == 0
      ensures forall i :: 0 <= i < MAX_BLOCKS ==> !blocks[i].active
    {
      blocks := new BlockMeta[MAX_BLOCKS](_ => EMPTY);
      chunkCount := 0;
      nextVaddr := HEAP_START;
      initialized := false;
    }

    method Init()
      requires Valid()
      modifies this`initialized
      ensures Valid() && initialized
    {
      initialized := true;
    }

    method FindFreeBlock(size: nat, align: nat) returns (r: Option<nat>)
      requires Valid() && align > 0
      ensures r.Some? ==> r.value < MAX_BLOCKS && Fits(blocks[r.value], size, align)
      ensures forall i :: 0 <= i < (if r.Some? then r.value else MAX_BLOCKS) ==> !Fits(blocks[..][i], size, align)
    {
      var i := 0;
      while i < MAX_BLOCKS
        invariant 0 <= i <= MAX_BLOCKS
        invariant forall k :: 0 <= k < i ==> !Fits(blocks[..][k], size, align)
      {
        if Fits(blocks[i], size, align) {
          return Some(i);
        }
        i := i + 1;
      }
      r := None;
    }

    method FindInactiveSlot() returns (r: Option<nat>)
      requires Valid()
      ensures r.Some? <==> HasInactive(blocks[..])
      ensures r.Some? ==> r.value < MAX_BLOCKS && !blocks[r.value].active
      ensures forall i :: 0 <= i < (if r.Some? then r.value else MAX_BLOCKS) ==> blocks[i].active
    {
      var i := 0;
      while i < MAX_BLOCKS
        invariant 0 <= i <= MAX_BLOCKS
        invariant forall k :: 0 <= k < i ==> blocks[k].active
      {
        if !blocks[i].active {
          assert !blocks[..][i].active;
          return Some(i);
        }
        i := i + 1;
      }
      r := None;
    }

    /** Track [v, v + n) as free if a descriptor is left. */
    method Record(v: nat, n: nat) returns (recorded: bool)
      requires Valid() && n > 0 && HEAP_START <= v && v + n <= nextVaddr
      requires forall i :: 0 <= i < MAX_BLOCKS && blocks[i].active ==> Apart(blocks[i], BlockMeta(true, v, n, true))
      modifies blocks
      ensures Valid()
      ensures recorded <==> HasInactive(old(blocks[..]))
      ensures !recorded ==> blocks[..] == old(blocks[..])
      ensures recorded ==> exists k :: 0 <= k < MAX_BLOCKS && !old(blocks[..])[k].active &&
                                       blocks[..] == old(blocks[..])[k := BlockMeta(true, v, n, true)]
      ensures blocks[..] == Recorded(old(blocks[..]), v, n)
      ensures forall x :: FreeByte(blocks[..], x) <==> FreeByte(old(blocks[..]), x) || (recorded && v <= x < v + n)
      ensures SameAllocations(blocks[..], old(blocks[..]))
    {
      ghost var s := blocks[..];
      var slot := FindInactiveSlot();
      recorded := slot.Some?;
      if slot.None? {
        FirstIdleIs(s, MAX_BLOCKS);
      } else {
        FirstIdleIs(s, slot.value);
        RecordSound(s, slot.value, v, n, nextVaddr);
        blocks[slot.value] := BlockMeta(true, v, n, true);
        assert blocks[..] == s[slot.value := BlockMeta(true, v, n, true)];
      }
    }
  
    /** Cut the request out of block idx; each remainder stays tracked exactly if a descriptor is left for it. */
    method SplitAndAllocate(idx: nat, size: nat, align: nat) returns (p: nat)
      requires Valid() && align > 0 && size > 0 && idx < MAX_BLOCKS && Fits(blocks[idx], size, align)
      modifies blocks
      ensures Valid() && p % align == 0 && p == old(blocks[idx]).vaddr + Adjustment(old(blocks[idx]).vaddr, align)
      ensures blocks[..] == Split(old(blocks[..]), idx, size, align)
      ensures old(blocks[idx]).vaddr <= p && p + size <= old(blocks[idx]).End()
      ensures forall v, n :: Allocated(blocks[..], v, n) <==> Allocated(old(blocks[..]), v, n) || (v == p && n == size)
      ensures var s := old(blocks[..]); var b := s[idx];
        var after := if p > b.vaddr then HasTwoInactive(s) else HasInactive(s);
        forall x :: FreeByte(blocks[..], x) <==>
                    (FreeByte(s, x) && !b.Covers(x)) || Kept(b, p, size, HasInactive(s), after, x)
    {
      hide Adjustment, Split, Recorded, FirstIdle, WellPlaced, FreeByte, Allocated, HasInactive, HasTwoInactive;
      ghost var s := blocks[..];
      var b := blocks[idx];
      var adjustment := Adjustment(b.vaddr, align);
      p := b.vaddr + adjustment;
      var remaining := b.size - size - adjustment;
      InsideAt(s, idx, nextVaddr);
      TakenSound(s, idx, p, size, nextVaddr);
      blocks[idx] := BlockMeta(b.active, p, size, false);
      ghost var t := blocks[..];
      assert t == Taken(s, idx, p, size);
      TakenSlots(s, idx, p, size);
      PieceApart(s, idx, p, size, nextVaddr, b.vaddr, adjustment);
      PieceApart(s, idx, p, size, nextVaddr, p + size, remaining);
      if adjustment > 0 {
        var recorded := Record(b.vaddr, adjustment);
        SlotsAfter(t, blocks[..], recorded);
      }
      SplitIs(s, idx, size, align, blocks[..]);
      if remaining > 0 {
        assert forall i :: 0 <= i < MAX_BLOCKS && blocks[i].active ==>
            Apart(blocks[i], BlockMeta(true, p + size, remaining, true)) by {
          assert forall i :: 0 <= i < MAX_BLOCKS ==> blocks[..][i] == t[i] || blocks[..][i] == BlockMeta(true, b.vaddr, adjustment, true);
        }
        var recorded := Record(p + size, remaining);
      }
    }

    /** Merge into block i the free block that starts where it ends, if there is one. */
    method MergeInto(i: nat) returns (merged: bool)
      requires Valid() && i < MAX_BLOCKS && blocks[i].Tracked()
      modifies blocks
      ensures Valid()
      ensures SameFreeBytes(old(blocks[..]), blocks[..]) && SameAllocations(old(blocks[..]), blocks[..])
      ensures merged ==> ActiveCount(blocks[..]) < ActiveCount(old(blocks[..])) && !Coalesced(old(blocks[..]))
      ensures !merged ==> blocks[..] == old(blocks[..])
      ensures !merged ==> forall j :: 0 <= j < MAX_BLOCKS ==> !Adjacent(blocks[..], i, j)
    {
      hide FreeByte, Allocated, ActiveCount;
      ghost var s := blocks[..];
      assert Inside(s[i], nextVaddr);
      var end := blocks[i].End();
      merged := false;
      var j := 0;
      while j < MAX_BLOCKS
        invariant 0 <= j <= MAX_BLOCKS && Valid() && blocks[i].Tracked()
        invariant SameFreeBytes(s, blocks[..]) && SameAllocations(s, blocks[..])
        invariant merged ==> !Coalesced(s)
        invariant merged ==> ActiveCount(blocks[..]) < ActiveCount(s) && blocks[i].vaddr <= end < blocks[i].End()
        invariant !merged ==> blocks[..] == s && forall k :: 0 <= k < j ==> !Adjacent(s, i, k)
      {
        if i != j && blocks[j].Tracked() && blocks[j].vaddr == end {
          ghost var t := blocks[..];
          assert Inside(t[j], nextVaddr) && Apart(t[i], t[j]);
          assert Adjacent(t, i, j);
          MergedWellPlaced(t, i, j, nextVaddr);
          MergedMeaning(t, i, j);
          MergedCount(t, i, j);
          blocks[i] := blocks[i].(size := blocks[i].size + blocks[j].size);
          blocks[j] := blocks[j].(active := false);
          assert blocks[..] == Merged(t, i, j);
          merged := true;
        }
        j := j + 1;
      }
    }

    /** Merge adjacent free blocks until none are left: the free bytes stay the same. */
    method Coalesce()
      requires Valid()
      modifies blocks
      ensures Valid() && Coalesced(blocks[..])
      ensures Coalesced(old(blocks[..])) ==> blocks[..] == old(blocks[..])
      ensures SameFreeBytes(old(blocks[..]), blocks[..]) && SameAllocations(old(blocks[..]), blocks[..])
      ensures ActiveCount(blocks[..]) <= ActiveCount(old(blocks[..]))
    {
      hide FreeByte, Allocated, ActiveCount, WellPlaced, Coalesced;
      ghost var s := blocks[..];
      var changed := true;
      while changed
        invariant Valid() && SameFreeBytes(s, blocks[..]) && SameAllocations(s, blocks[..])
        invariant ActiveCount(blocks[..]) <= ActiveCount(s) && (Coalesced(s) ==> blocks[..] == s)
        invariant !changed ==> Coalesced(blocks[..])
        decreases ActiveCount(blocks[..]), changed
      {
        ghost var count := ActiveCount(blocks[..]);
        changed := false;
        var i := 0;
        while i < MAX_BLOCKS
          invariant 0 <= i <= MAX_BLOCKS && Valid()
          invariant SameFreeBytes(s, blocks[..]) && SameAllocations(s, blocks[..])
          invariant Coalesced(s) ==> blocks[..] == s
          invariant ActiveCount(blocks[..]) <= count && (changed ==> ActiveCount(blocks[..]) < count)
          invariant !changed ==> forall a, j :: 0 <= a < i && 0 <= j < MAX_BLOCKS ==> !Adjacent(blocks[..], a, j)
        {
          if blocks[i].Tracked() {
            var merged := MergeInto(i);
            changed := changed || merged;
          }
          i := i + 1;
        }
        if !changed {
          NoneAdjacent(blocks[..]);
        }
      }
    }

    /** Map one more chunk; `created` and `mapped` are the answers of the two system calls. */
    method GrowHeap(created: bool, mapped: bool) returns (why: Refusal)
      requires Valid()
      modifies this`chunkCount, this`nextVaddr, blocks
      ensures Valid() && why != NotInitialized
      ensures why != Granted ==> blocks[..] == old(blocks[..]) && nextVaddr == old(nextVaddr) && chunkCount == old(chunkCount)
      ensures why == Granted ==> Coalesced(blocks[..]) && chunkCount == old(chunkCount) + 1
      ensures why == Granted ==> nextVaddr == old(nextVaddr) + CHUNK_SIZE
      ensures why == Granted && Coalesced(Recorded(old(blocks[..]), old(nextVaddr), CHUNK_SIZE)) ==>
        blocks[..] == Recorded(old(blocks[..]), old(nextVaddr), CHUNK_SIZE)
      ensures why == Granted ==> Grown(old(blocks[..]), blocks[..], old(nextVaddr), nextVaddr)
      ensures why == Granted ==> SameAllocations(old(blocks[..]), blocks[..])
      ensures why == Granted ==> ActiveCount(blocks[..]) <= ActiveCount(old(blocks[..])) + 1
      ensures why == ChunkTableFull ==> chunkCount == MAX_CHUNKS
      ensures why == NoAddressSpace ==> HEAP_END - nextVaddr < CHUNK_SIZE
      ensures why == KernelRefused ==> !created || !mapped
      ensures why == Granted ==> created && mapped
      ensures why == BlockTableFull ==> !HasInactive(blocks[..])
    {
      if chunkCount >= MAX_CHUNKS {
        return ChunkTableFull;
      }
      if nextVaddr >= HEAP_END || HEAP_END - nextVaddr < CHUNK_SIZE {
        return NoAddressSpace;
      }
      if !created || !mapped {
        return KernelRefused;
      }
      var slot := FindInactiveSlot();
      if slot.None? {
        return BlockTableFull;
      }
      ghost var s := blocks[..];
      FirstIdleIs(s, slot.value);
      Wider(s, nextVaddr, nextVaddr + CHUNK_SIZE);
      RecordSound(s, slot.value, nextVaddr, CHUNK_SIZE, nextVaddr + CHUNK_SIZE);
      ActiveCountUpdate(s, slot.value, BlockMeta(true, nextVaddr, CHUNK_SIZE, true));
      hide FreeByte, Allocated, ActiveCount, WellPlaced, Coalesced;
      blocks[slot.value] := BlockMeta(true, nextVaddr, CHUNK_SIZE, true);
      assert blocks[..] == s[slot.value := BlockMeta(true, nextVaddr, CHUNK_SIZE, true)];
      chunkCount := chunkCount + 1;
      nextVaddr := nextVaddr + CHUNK_SIZE;
      Coalesce();
      why := Granted;
    }

    /** Give a block back. Anything but the start of a live allocation changes nothing. */
    method Deallocate(p: nat)
      requires Valid()
      modifies blocks
      ensures Valid()
      ensures (forall n :: !Allocated(old(blocks[..]), p, n)) ==> blocks[..] == old(blocks[..])
      ensures forall n :: Allocated(old(blocks[..]), p, n) ==>
        && (forall v, m :: Allocated(blocks[..], v, m) <==> Allocated(old(blocks[..]), v, m) && v != p)
        && (forall x :: FreeByte(blocks[..], x) <==> FreeByte(old(blocks[..]), x) || p <= x < p + n)
    {
      ghost var s := blocks[..];
      var i := 0;
      while i < MAX_BLOCKS
        invariant 0 <= i <= MAX_BLOCKS && blocks[..] == s
        invariant forall k :: 0 <= k < i ==> !(s[k].Live() && s[k].vaddr == p)
      {
        if blocks[i].Live() && blocks[i].vaddr == p {
          ReturnedSound(s, i, nextVaddr);
          blocks[i] := blocks[i].(isFree := true);
          assert blocks[..] == s[i := s[i].(isFree := true)];
          return;
        }
        i := i + 1;
      }
    }

    /** Forget every block and chunk. */
    method Teardown()
      requires Valid()
      modifies this, blocks
      ensures Valid() && !initialized && chunkCount == 0
      ensures forall i :: 0 <= i < MAX_BLOCKS ==> !blocks[i].active
    {
      forall i | 0 <= i < blocks.Length {
        blocks[i] := EMPTY;
      }
      chunkCount := 0;
      nextVaddr := HEAP_START;
      initialized := false;
    }

    /** Why a request was turned down, in terms of the state it is turned down in and the chunks granted to it. */
    ghost predicate Explains(why: Refusal, granted: int, grants: nat)
      reads this, blocks
      requires Valid()
    {
      match why
      case Granted => false
      case NotInitialized => !initialized
      case ChunkTableFull => initialized && chunkCount == MAX_CHUNKS
      case NoAddressSpace => initialized && HEAP_END - nextVaddr < CHUNK_SIZE
      case KernelRefused => initialized && granted == grants
      case BlockTableFull => initialized && !HasInactive(blocks[..])
    }

    /** Grow a coalesced heap as long as no block fits and the kernel grants chunks. */
    method GrowToFit(size: nat, align: nat, grants: nat) returns (found: Option<nat>, ghost why: Refusal)
      requires Valid() && initialized && size > 0 && align > 0 && Coalesced(blocks[..])
      modifies this`chunkCount, this`nextVaddr, blocks
      ensures Valid()
      ensures found.Some? ==> FirstFit(blocks[..], size, align, found.value)
      ensures found.None? ==> Explains(why, chunkCount - old(chunkCount), grants) && !RunExists(blocks[..], size, align)
      ensures old(chunkCount) <= chunkCount <= old(chunkCount) + grants
      ensures ActiveCount(blocks[..]) <= ActiveCount(old(blocks[..])) + (chunkCount - old(chunkCount))
      ensures SameAllocations(old(blocks[..]), blocks[..])
      ensures Grown(old(blocks[..]), blocks[..], old(nextVaddr), nextVaddr)
      ensures forall i: nat :: FitsGrown(old(blocks[..]), old(nextVaddr), size, align, i) && old(chunkCount) < MAX_CHUNKS && grants > 0 ==>
        found == Some(i) && blocks[..] == Recorded(old(blocks[..]), old(nextVaddr), CHUNK_SIZE) && chunkCount == old(chunkCount) + 1
    {
      hide FreeByte, Allocated, ActiveCount, WellPlaced, Fits, RunExists, HasInactive, Grown, SameAllocations, SameFreeBytes, Recorded, Coalesced;
      ghost var s, base, start := blocks[..], nextVaddr, chunkCount;
      ghost var wider := Recorded(s, base, CHUNK_SIZE);
      SameBytes(s);
      NotGrown(s, s, base);
      found := FindFreeBlock(size, align);
      var left := grants;
      why := Granted;
      while found.None?
        invariant Valid() && initialized && Coalesced(blocks[..])
        invariant start <= chunkCount <= start + grants && base <= nextVaddr
        invariant left == grants - (chunkCount - start)
        invariant ActiveCount(blocks[..]) <= ActiveCount(s) + (chunkCount - start)
        invariant SameAllocations(s, blocks[..])
        invariant Grown(s, blocks[..], base, nextVaddr)
        invariant found.Some? ==> FirstFit(blocks[..], size, align, found.value)
        invariant found.None? ==> NoFit(blocks[..], size, align)
        invariant chunkCount == start ==> blocks[..] == s && nextVaddr == base
        invariant chunkCount == start + 1 && Coalesced(wider) ==> blocks[..] == wider
        invariant chunkCount > start + 1 && Coalesced(wider) ==> NoFit(wider, size, align)
        decreases MAX_CHUNKS - chunkCount, found.None?
      {
        ghost var before, middle := blocks[..], nextVaddr;
        NoFitIffNoRun(before, nextVaddr, size, align);
        var answer := GrowHeap(left > 0, left > 0);
        if answer != Granted {
          return None, answer;
        }
        GrownMore(s, before, blocks[..], base, middle, nextVaddr);
        left := left - 1;
        found := FindFreeBlock(size, align);
      }
    }

    /** Find a block that fits, coalescing and then growing as long as none does and the kernel grants chunks. */
    method FindOrGrow(size: nat, align: nat, grants: nat) returns (found: Option<nat>, ghost why: Refusal)
      requires Valid() && initialized && size > 0 && align > 0
      modifies this`chunkCount, this`nextVaddr, blocks
      ensures Valid()
      ensures found.Some? ==> FirstFit(blocks[..], size, align, found.value)
      ensures found.None? ==> Explains(why, chunkCount - old(chunkCount), grants) && !RunExists(blocks[..], size, align)
      ensures old(chunkCount) <= chunkCount <= old(chunkCount) + grants
      ensures ActiveCount(blocks[..]) <= ActiveCount(old(blocks[..])) + (chunkCount - old(chunkCount))
      ensures SameAllocations(old(blocks[..]), blocks[..])
      ensures Grown(old(blocks[..]), blocks[..], old(nextVaddr), nextVaddr)
      ensures forall i: nat :: FirstFit(old(blocks[..]), size, align, i) ==>
        found == Some(i) && blocks[..] == old(blocks[..]) && chunkCount == old(chunkCount)
      ensures forall i: nat :: FitsGrown(old(blocks[..]), old(nextVaddr), size, align, i) && old(chunkCount) < MAX_CHUNKS && grants > 0 ==>
        found == Some(i) && blocks[..] == Recorded(old(blocks[..]), old(nextVaddr), CHUNK_SIZE) && chunkCount == old(chunkCount) + 1
    {
      hide FreeByte, Allocated, ActiveCount, WellPlaced, Fits, RunExists, HasInactive, Grown, SameAllocations, SameFreeBytes, Recorded, Coalesced;
      why := Granted;
      ghost var s, base := blocks[..], nextVaddr;
      SameBytes(s);
      NotGrown(s, s, base);
      found := FindFreeBlock(size, align);
      if found.Some? {
        return;
      }
      Coalesce();
      NotGrown(s, blocks[..], base);
      ghost var t := blocks[..];
      found, why := GrowToFit(size, align, grants);
      GrownMore(s, t, blocks[..], base, base, nextVaddr);
    }

    /**
      Hand out an aligned block of the larger of the size and the alignment. The bytes handed out were free
      or are newly mapped, everything else keeps its meaning, and an initialized heap says no only when
      growth is refused and no aligned run of tracked free bytes is long enough. `grants` is the number of
      chunks the kernel is willing to map during the call.
    */
    method Allocate(layoutSize: nat, align: nat, grants: nat) returns (p: Option<nat>, ghost why: Refusal)
      requires Valid() && align > 0
      modifies this`chunkCount, this`nextVaddr, blocks
      ensures Valid()
      ensures p.None? ==> Explains(why, chunkCount - old(chunkCount), grants)
      ensures old(chunkCount) <= chunkCount <= old(chunkCount) + grants
      ensures p.None? && initialized ==> !RunExists(blocks[..], if layoutSize < align then align else layoutSize, align)
      ensures p.None? ==> SameAllocations(old(blocks[..]), blocks[..])
      ensures p.None? ==> Grown(old(blocks[..]), blocks[..], old(nextVaddr), nextVaddr)
      ensures p.Some? ==> p.value % align == 0
      ensures p.Some? ==> var size := if layoutSize < align then align else layoutSize;
        && (forall v, n :: Allocated(blocks[..], v, n) <==>
             Allocated(old(blocks[..]), v, n) || (v == p.value && n == size))
        && (forall x :: p.value <= x < p.value + size ==>
             FreeByte(old(blocks[..]), x) || old(nextVaddr) <= x < nextVaddr)
        && (forall x :: FreeByte(blocks[..], x) ==>
             (FreeByte(old(blocks[..]), x) || old(nextVaddr) <= x < nextVaddr) && !(p.value <= x < p.value + size))
        && (ActiveCount(old(blocks[..])) + (chunkCount - old(chunkCount)) + 2 <= MAX_BLOCKS ==>
             forall x :: ((FreeByte(old(blocks[..]), x) || old(nextVaddr) <= x < nextVaddr) && !(p.value <= x < p.value + size)) ==>
               FreeByte(blocks[..], x))
      ensures initialized ==> forall i: nat :: FirstFit(old(blocks[..]), Larger(layoutSize, align), align, i) ==>
        p.Some? && blocks[..] == Split(old(blocks[..]), i, Larger(layoutSize, align), align) && chunkCount == old(chunkCount)
      ensures initialized && old(chunkCount) < MAX_CHUNKS && grants > 0 ==>
        forall i: nat :: FitsGrown(old(blocks[..]), old(nextVaddr), Larger(layoutSize, align), align, i) ==>
          p.Some? && chunkCount == old(chunkCount) + 1
          && blocks[..] == Split(Recorded(old(blocks[..]), old(nextVaddr), CHUNK_SIZE), i, Larger(layoutSize, align), align)
    {
      hide FreeByte, Allocated, ActiveCount, WellPlaced, RunExists, HasInactive, HasTwoInactive, Recorded, Split;
      if !initialized {
        return None, NotInitialized;
      }
      var size := Larger(layoutSize, align);
      var found: Option<nat>;
      found, why := FindOrGrow(size, align, grants);
      if found.None? {
        return None, why;
      }
      BlockBytes(blocks[..], found.value);
      CountBelow(blocks[..]);
      var q := SplitAndAllocate(found.value, size, align);
      p := Some(q);
    }
  }

  lemma NoneAdjacent(s: seq<BlockMeta>)
    requires |s| == MAX_BLOCKS && forall i, j :: 0 <= i < MAX_BLOCKS && 0 <= j < MAX_BLOCKS ==> !Adjacent(s, i, j)
    ensures Coalesced(s)
  {
  }

  /** The free bytes of t are those of s and the bytes of [base, top). */
  ghost predicate Grown(s: seq<BlockMeta>, t: seq<BlockMeta>, base: int, top: int) {
    forall x :: FreeByte(t, x) <==> FreeByte(s, x) || base <= x < top
  }

  lemma InsideAt(s: seq<BlockMeta>, i: nat, top: int)
    requires i < |s| && WellPlaced(s, top)
    ensures Inside(s[i], top)
  {
  }

  lemma SplitIs(s: seq<BlockMeta>, idx: nat, size: nat, align: nat, front: seq<BlockMeta>)
    requires align > 0 && idx < |s| && Fits(s[idx], size, align)
    requires var b, a := s[idx], Adjustment(s[idx].vaddr, align);
      front == if a > 0 then Recorded(Taken(s, idx, b.vaddr + a, size), b.vaddr, a) else Taken(s, idx, b.vaddr + a, size)
    ensures var b, a := s[idx], Adjustment(s[idx].vaddr, align);
      Split(s, idx, size, align) ==
        if b.size - size - a > 0 then Recorded(front, b.vaddr + a + size, b.size - size - a) else front
  {
  }

  lemma SameBytes(s: seq<BlockMeta>)
    ensures SameFreeBytes(s, s) && SameAllocations(s, s)
  {
  }

  lemma NotGrown(s: seq<BlockMeta>, t: seq<BlockMeta>, base: int)
    requires SameFreeBytes(s, t)
    ensures Grown(s, t, base, base)
  {
  }

  lemma GrownMore(s: seq<BlockMeta>, t: seq<BlockMeta>, u: seq<BlockMeta>, base: int, middle: int, top: int)
    requires Grown(s, t, base, middle) && Grown(t, u, middle, top) && base <= middle <= top
    requires SameAllocations(s, t) && SameAllocations(t, u)
    ensures Grown(s, u, base, top) && SameAllocations(s, u)
  {
    hide FreeByte, Allocated;
  }

  function Larger(a: nat, b: nat): (c: nat)
    ensures c >= a && c >= b && (c == a || c == b)
  {
    if a < b then b else a
  }

  lemma Wider(s: seq<BlockMeta>, top: int, wider: int)
    requires WellPlaced(s, top) && top <= wider
    ensures WellPlaced(s, wider)
    ensures forall v: nat, n: nat, i :: 0 <= i < |s| && s[i].active && top <= v ==> Apart(s[i], BlockMeta(true, v, n, true))
  {
    forall i | 0 <= i < |s| ensures Inside(s[i], wider) {
      assert Inside(s[i], top);
    }
    forall v: nat, n: nat, i | 0 <= i < |s| && s[i].active && top <= v
      ensures Apart(s[i], BlockMeta(true, v, n, true))
    {
      assert Inside(s[i], top);
    }
  }

  lemma BlockBytes(s: seq<BlockMeta>, i: nat)
    requires i < |s| && s[i].Tracked()
    ensures forall x :: s[i].Covers(x) ==> FreeByte(s, x)
  {
  }

  /** Freeing a live block turns exactly its bytes free. */
  lemma ReturnedSound(s: seq<BlockMeta>, i: nat, top: int)
    requires i < |s| && WellPlaced(s, top) && s[i].Live()
    ensures var t := s[i := s[i].(isFree := true)];
      && WellPlaced(t, top)
      && (forall n :: Allocated(s, s[i].vaddr, n) ==> n == s[i].size)
      && Allocated(s, s[i].vaddr, s[i].size)
      && (forall v, m :: Allocated(t, v, m) <==> Allocated(s, v, m) && v != s[i].vaddr)
      && (forall x :: FreeByte(t, x) <==> FreeByte(s, x) || s[i].Covers(x))
  {
    var t := s[i := s[i].(isFree := true)];
    forall k, l | 0 <= k < |t| && 0 <= l < |t| && k != l && t[k].active && t[l].active
      ensures Apart(t[k], t[l])
    {
      assert Apart(s[k], s[l]);
    }
    assert Inside(s[i], top);
    assert forall k :: 0 <= k < |s| && k != i && s[k].active ==> Apart(s[k], s[i]);
    forall k | 0 <= k < |s| && s[k].Live() && s[k].vaddr == s[i].vaddr ensures k == i {
      assert Inside(s[k], top);
    }
    forall v, m ensures Allocated(t, v, m) <==> Allocated(s, v, m) && v != s[i].vaddr {
      if Allocated(t, v, m) {
        var k :| 0 <= k < |t| && t[k].Live() && t[k].vaddr == v && t[k].size == m;
        assert s[k] == t[k];
      }
      if Allocated(s, v, m) && v != s[i].vaddr {
        var k :| 0 <= k < |s| && s[k].Live() && s[k].vaddr == v && s[k].size == m;
        assert s[k] == t[k];
      }
    }
    forall x ensures FreeByte(t, x) <==> FreeByte(s, x) || s[i].Covers(x) {
      if FreeByte(t, x) {
        var k :| 0 <= k < |t| && t[k].Tracked() && t[k].Covers(x);
        if k != i {
          assert s[k] == t[k];
        }
      }
      if FreeByte(s, x) {
        var k :| 0 <= k < |s| && s[k].Tracked() && s[k].Covers(x);
        assert s[k] == t[k];
      } else if s[i].Covers(x) {
        assert t[i].Covers(x);
      }
    }
  }

  lemma TakenSlots(s: seq<BlockMeta>, idx: nat, p: nat, size: nat)
    requires idx < |s| && s[idx].active
    ensures HasInactive(Taken(s, idx, p, size)) <==> HasInactive(s)
    ensures HasTwoInactive(Taken(s, idx, p, size)) <==> HasTwoInactive(s)
  {
    var t := Taken(s, idx, p, size);
    assert forall i :: 0 <= i < |s| ==> s[i].active == t[i].active;
  }

  lemma SlotsAfter(s: seq<BlockMeta>, t: seq<BlockMeta>, recorded: bool)
    requires recorded <==> HasInactive(s)
    requires !recorded ==> t == s
    requires recorded ==> exists k, b: BlockMeta :: 0 <= k < |s| && !s[k].active && b.active && t == s[k := b]
    ensures HasInactive(t) <==> HasTwoInactive(s)
  {
    if recorded {
      var k, b: BlockMeta :| 0 <= k < |s| && !s[k].active && b.active && t == s[k := b];
      if HasInactive(t) {
        var i :| 0 <= i < |t| && !t[i].active;
        assert i != k && !s[i].active;
      }
      if HasTwoInactive(s) {
        var i, j :| 0 <= i < |s| && 0 <= j < |s| && i != j && !s[i].active && !s[j].active;
        var l := if i == k then j else i;
        assert !t[l].active;
      }
    }
  }

  // ---------- a lost remainder ----------

  /** A chunk with k blocks of 64 bytes handed out in order, and the rest of it free. */
  ghost predicate CutUp(s: seq<BlockMeta>, k: nat) {
    && |s| == MAX_BLOCKS && k < MAX_BLOCKS
    && (forall i :: 0 <= i < k ==> s[i] == BlockMeta(true, HEAP_START + 64 * i, 64, false))
    && s[k] == BlockMeta(true, HEAP_START + 64 * k, CHUNK_SIZE - 64 * k, true)
    && (forall i :: k < i < MAX_BLOCKS ==> !s[i].active)
  }

  lemma AlreadyAligned(k: nat)
    ensures Adjustment(HEAP_START + 64 * k, 8) == 0
  {
  }

  /** The first chunk of an empty heap goes to the first descriptor. */
  lemma FirstChunk(s: seq<BlockMeta>)
    requires |s| == MAX_BLOCKS && forall i :: 0 <= i < |s| ==> !s[i].active
    ensures FitsGrown(s, HEAP_START, 64, 8, 0) && CutUp(Recorded(s, HEAP_START, CHUNK_SIZE), 0)
  {
    FirstIdleIs(s, 0);
    AlreadyAligned(0);
    hide Adjustment, FirstIdle;
  }

  lemma FitsAt(s: seq<BlockMeta>, k: nat, size: nat)
    requires CutUp(s, k) && 0 < size <= 64
    ensures FirstFit(s, size, 8, k)
  {
    AlreadyAligned(k);
    hide Adjustment;
  }

  /** Each request for 64 bytes takes the next block, as long as there is a descriptor for the rest. */
  lemma NextCut(s: seq<BlockMeta>, k: nat)
    requires CutUp(s, k) && k + 1 < MAX_BLOCKS && FirstFit(s, 64, 8, k)
    ensures CutUp(Split(s, k, 64, 8), k + 1)
  {
    AlreadyAligned(k);
    hide Adjustment, FirstIdle;
    FirstIdleIs(Taken(s, k, HEAP_START + 64 * k, 64), k + 1);
  }

  /** With every descriptor in use the rest of the last block is dropped. */
  lemma LastCut(s: seq<BlockMeta>, k: nat)
    requires CutUp(s, k) && k + 1 == MAX_BLOCKS && FirstFit(s, 32, 8, k)
    ensures Split(s, k, 32, 8) == s[k := BlockMeta(true, HEAP_START + 64 * k, 32, false)]
    ensures forall x :: FreeByte(s, x) <==> HEAP_START + 64 * k <= x < HEAP_START + CHUNK_SIZE
    ensures forall x :: !FreeByte(Split(s, k, 32, 8), x)
  {
    AlreadyAligned(k);
    hide Adjustment, FirstIdle;
    FirstIdleIs(Taken(s, k, HEAP_START + 64 * k, 32), MAX_BLOCKS);
    forall x | HEAP_START + 64 * k <= x < HEAP_START + CHUNK_SIZE ensures FreeByte(s, x) {
      assert s[k].Tracked() && s[k].Covers(x);
    }
  }

  /**
    A new heap hands out 64 bytes 1023 times and then 32 bytes. The other half of the last block was free
    before that request and is not free afterwards, and belongs to nobody.
  */
  method LostRemainder() returns (arena: HeapArena, p: Option<nat>, ghost before: seq<BlockMeta>)
    ensures arena.Valid() && p.Some? && |before| == MAX_BLOCKS
    ensures forall v, n :: Allocated(arena.blocks[..], v, n) <==> Allocated(before, v, n) || (v == p.value && n == 32)
    ensures forall x :: FreeByte(before, x) <==> HEAP_START + CHUNK_SIZE - 64 <= x < HEAP_START + CHUNK_SIZE
    ensures forall x :: !FreeByte(arena.blocks[..], x)
  {
    hide Split, Recorded, FirstFit, FitsGrown, FreeByte, Allocated, WellPlaced, ActiveCount, CutUp;
    arena := new HeapArena();
    arena.Init();
    assert Larger(64, 8) == 64 && Larger(32, 8) == 32;
    assert arena.nextVaddr == HEAP_START;
    FirstChunk(arena.blocks[..]);
    ghost var s, why := Recorded(arena.blocks[..], HEAP_START, CHUNK_SIZE), Granted;
    FitsAt(s, 0, 64);
    NextCut(s, 0);
    p, why := arena.Allocate(64, 8, 1);
    var k := 1;
    while k + 1 < MAX_BLOCKS
      invariant 1 <= k < MAX_BLOCKS && arena.Valid() && arena.initialized && fresh(arena) && fresh(arena.blocks)
      invariant CutUp(arena.blocks[..], k)
      modifies arena, arena.blocks
    {
      FitsAt(arena.blocks[..], k, 64);
      NextCut(arena.blocks[..], k);
      p, why := arena.Allocate(64, 8, 0);
      k := k + 1;
    }
    before := arena.blocks[..];
    FitsAt(before, k, 32);
    LastCut(before, k);
    p, why := arena.Allocate(32, 8, 0);
  }
}
