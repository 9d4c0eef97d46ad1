/**
  The bitmap extent allocator of the storage engine: first fit over 64-bit words with a scan that skips
  past the first allocated block it meets. Block numbers are integers: a bitmap that fits in memory keeps
  every sum the scan forms far below 2^64.
*/
module Extents {

  import opened Arithmetic
  import opened Bits
  import opened Common

  datatype Extent = Extent(startBlock: nat, numBlocks: nat)

  /** Block b is marked allocated in a bitmap; blocks past its end count as allocated. */
  predicate Marked(words: seq<bv64>, b: nat) {
    b / 64 < |words| ==> BitOf(words[b / 64], b % 64)
  }

  lemma MarkOne(words: seq<bv64>, b: nat, on: bool)
    requires b / 64 < |words|
    ensures var t := words[b / 64 := WithBit(words[b / 64], b % 64, on)];
      forall c: nat :: Marked(t, c) == if c == b then on else Marked(words, c)
  {
    hide BitOf, WithBit;
    var t := words[b / 64 := WithBit(words[b / 64], b % 64, on)];
    forall c: nat ensures Marked(t, c) == if c == b then on else Marked(words, c) {
      if c / 64 == b / 64 {
        assert c % 64 == b % 64 ==> c == b;
      }
    }
  }

  // ---------- what the allocator promises ----------

  /** The n blocks from a on exist and are free. */
  ghost predicate FreeRun(words: seq<bv64>, total: nat, a: nat, n: nat) {
    a + n <= total && forall b: nat :: a <= b < a + n ==> !Marked(words, b)
  }

  /** Exactly the blocks of [a, a + n) changed, to `on`. */
  ghost predicate Changed(before: seq<bv64>, after: seq<bv64>, a: nat, n: nat, on: bool) {
    |before| == |after| &&
    forall b: nat :: Marked(after, b) == if a <= b < a + n then on else Marked(before, b)
  }

  /** The next multiple of align after c. */
  lemma NextMultiple(c: nat, align: nat)
    requires align > 0 && c % align != 0
    ensures var d := (c / align + 1) * align; d > c && forall s: nat :: c <= s < d ==> s % align != 0
  {
    var q := c / align;
    var d := (q + 1) * align;
    assert d == align * q + align;
    forall s: nat | c <= s < d ensures s % align != 0 {
      Remainder(s, q, s - align * q, align);
    }
  }

  class ExtentAllocator {

    const totalBlocks: nat
    const eraseBlockAlign: nat
    const bitmap: array<bv64>

    ghost predicate Valid()
      reads this
    {
      totalBlocks <= 64 * bitmap.Length
    }

    constructor (total: nat, align: nat)
      ensures Valid() && fresh(bitmap) && totalBlocks == total && eraseBlockAlign == align
      ensures forall b: nat :: b < total ==> !Marked(bitmap[..], b)
    {
      totalBlocks := total;
      eraseBlockAlign := align;
      bitmap := new bv64[(total + 63) / 64](_ => 0);
      new;
      forall b: nat | b < total ensures !Marked(bitmap[..], b) {
        NoBits(b % 64);
      }
    }

    function Alignment(): (a: nat)
      ensures a > 0 && (eraseBlockAlign > 0 ==> a == eraseBlockAlign) && (eraseBlockAlign == 0 ==> a == 1)
    {
      if eraseBlockAlign < 1 then 1 else eraseBlockAlign
    }

    predicate IsBlockAllocated(b: nat)
      reads this, bitmap
      requires b / 64 < bitmap.Length
      ensures IsBlockAllocated(b) == Marked(bitmap[..], b)
    {
      BitOf(bitmap[b / 64], b % 64)
    }

    method SetBlockAllocated(b: nat, on: bool)
      requires b / 64 < bitmap.Length
      modifies bitmap
      ensures Changed(old(bitmap[..]), bitmap[..], b, 1, on)
    {
      MarkOne(bitmap[..], b, on);
      bitmap[b / 64] := WithBit(bitmap[b / 64], b % 64, on);
      assert bitmap[..] == old(bitmap[..])[b / 64 := bitmap[b / 64]];
    }

    /** Find the first allocated block of [from, from + n). */
    method FirstAllocated(from: nat, n: nat) returns (r: Option<nat>)
      requires Valid() && from + n <= totalBlocks
      ensures r.None? ==> FreeRun(bitmap[..], totalBlocks, from, n)
      ensures r.Some? ==> from <= r.value < from + n && Marked(bitmap[..], r.value)
    {
      var b := from;
      while b < from + n
        invariant from <= b <= from + n
        invariant forall c: nat :: from <= c < b ==> !Marked(bitmap[..], c)
      {
        if IsBlockAllocated(b) {
          return Some(b);
        }
        b := b + 1;
      }
      r := None;
    }

    method MarkRange(from: nat, n: nat, on: bool)
      requires Valid()
      modifies bitmap
      ensures Changed(old(bitmap[..]), bitmap[..], from, (if from + n <= totalBlocks then n else if from <= totalBlocks then totalBlocks - from else 0), on)
    {
      hide Marked;
      ghost var s := bitmap[..];
      var b := from;
      while b < from + n
        invariant from <= b <= from + n
        invariant Changed(s, bitmap[..], from, (if b <= totalBlocks then b - from else if from <= totalBlocks then totalBlocks - from else 0), on)
      {
        if b < totalBlocks {
          SetBlockAllocated(b, on);
        }
        b := b + 1;
      }
    }

    /**
      Allocate the lowest aligned run of free blocks, marking exactly those; a nonzero request fails
      exactly when there is no such run.
    */
    method AllocateExtent(requested: nat) returns (r: Result<Extent, nat>)
      requires Valid()
      modifies bitmap
      ensures r.Ok? ==>
        && requested > 0 && r.value.numBlocks == requested && r.value.startBlock % Alignment() == 0
        && FreeRun(old(bitmap[..]), totalBlocks, r.value.startBlock, requested)
        && (forall s: nat :: s < r.value.startBlock && s % Alignment() == 0 ==>
              !FreeRun(old(bitmap[..]), totalBlocks, s, requested))
        && Changed(old(bitmap[..]), bitmap[..], r.value.startBlock, requested, true)
      ensures r.Err? ==> r.error == requested && bitmap[..] == old(bitmap[..])
      ensures r.Err? <==> (requested == 0 ||
        forall s: nat :: s % Alignment() == 0 ==> !FreeRun(old(bitmap[..]), totalBlocks, s, requested))
    {
      if requested == 0 {
        return Err(0);
      }
      hide Marked, Changed;
      var align := Alignment();
      var current := 0;
      while current + requested <= totalBlocks
        invariant forall s: nat :: s < current && s % align == 0 ==> !FreeRun(bitmap[..], totalBlocks, s, requested)
        invariant bitmap[..] == old(bitmap[..])
        decreases totalBlocks - current
      {
        if current % align != 0 {
          NextMultiple(current, align);
          current := (current / align + 1) * align;
        } else {
          var blocked := FirstAllocated(current, requested);
          if blocked.Some? {
            Skip(bitmap[..], totalBlocks, current, requested, blocked.value);
            current := blocked.value + 1;
          } else {
            MarkRange(current, requested, true);
            return Ok(Extent(current, requested));
          }
        }
      }
      r := Err(requested);
    }

    /** Give a range of blocks back; blocks past the device are ignored. */
    method FreeExtent(e: Extent)
      requires Valid()
      modifies bitmap
      ensures |bitmap[..]| == |old(bitmap[..])|
      ensures forall b: nat :: Marked(bitmap[..], b) <==>
        Marked(old(bitmap[..]), b) && !(e.startBlock <= b < e.startBlock + e.numBlocks && b < totalBlocks)
    {
      MarkRange(e.startBlock, e.numBlocks, false);
    }
  }

  /** No run that starts at or before an allocated block it would cover is free. */
  lemma Skip(words: seq<bv64>, total: nat, current: nat, n: nat, b: nat)
    requires current <= b < current + n && Marked(words, b)
    ensures forall s: nat :: current <= s <= b ==> !FreeRun(words, total, s, n)
  {
  }

  /** What was allocated and then freed is free again, and every other block is as it was. */
  lemma FreeUndoesAllocate(s: seq<bv64>, t: seq<bv64>, u: seq<bv64>, total: nat, a: nat, n: nat)
    requires FreeRun(s, total, a, n) && Changed(s, t, a, n, true) && Changed(t, u, a, n, false)
    ensures forall b: nat :: Marked(u, b) == Marked(s, b)
  {
  }
}
