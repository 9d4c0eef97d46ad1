/**
  The kernel's slab cache: fixed-size slots in 4 KiB frames, with each page's free list threaded through
  the first 16 bits of its free slots. `words[i]` is that halfword of slot i. Clients own the slots that
  are out and may write them between calls; they do not write free ones.
*/
module Slab {

  import opened Arithmetic
  import opened Common

  const PAGE_SIZE: nat := 4096

  datatype SlabError = FrameAllocationFailed | InvalidPointer

  /** Size rounded up to the alignment, at least a machine word. */
  function SlotSize(size: nat, align: nat): (s: nat)
    requires align > 0
    ensures s >= 8 && s >= size && s % align == 0
    ensures forall t: nat :: t >= 8 && t >= size && t % align == 0 ==> s <= t
  {
    var m := if size < 8 then 8 else size;
    RoundUp(m, align);
    (m + align - 1) / align * align
  }

  lemma RoundUp(m: nat, align: nat)
    requires align > 0
    ensures m <= (m + align - 1) / align * align < m + align
    ensures ((m + align - 1) / align * align) % align == 0
    ensures forall t: nat :: t >= m && t % align == 0 ==> (m + align - 1) / align * align <= t
  {
    var q, r := (m + align - 1) / align, (m + align - 1) % align;
    assert m + align - 1 == align * q + r;
    assert q * align == align * q;
    Remainder(q * align, q, 0, align);
    forall t: nat | t >= m && t % align == 0 ensures q * align <= t {
      var u := t / align;
      assert t == align * u && align * (q - 1) == align * q - align;
      if u < q {
        MultipleMonotone(align, u, q - 1);
      }
    }
  }

  datatype SlabPage = SlabPage(frame: nat, freeHead: Option<nat>, count: nat, words: seq<nat>)

  /** The halfword stored in position j of a free list. */
  function Link(list: seq<nat>, j: nat): nat
    requires j < |list|
  {
    match After(list, j)
    case None => U16_MAX
    case Some(x) => x
  }

  predicate LinkAt(words: seq<nat>, list: seq<nat>, j: nat)
    requires j < |list|
  {
    list[j] < |words| && words[list[j]] == Link(list, j)
  }

  /** The page's free slots are exactly `list`, linked in that order. */
  ghost predicate PageOk(p: SlabPage, list: seq<nat>, total: nat) {
    && 0 < total < U16_MAX && |p.words| == total && p.frame % PAGE_SIZE == 0
    && Distinct(list) && |list| <= total && p.count == total - |list|
    && p.freeHead == First(list)
    && (forall j :: 0 <= j < |list| ==> list[j] < total)
    && (forall j {:trigger LinkAt(p.words, list, j)} :: 0 <= j < |list| ==> LinkAt(p.words, list, j))
  }

  /** Taking the head of the free list. */
  function Popped(p: SlabPage): SlabPage
    requires p.freeHead.Some? && p.freeHead.value < |p.words|
  {
    var next := p.words[p.freeHead.value];
    p.(freeHead := if next == U16_MAX then None else Some(next), count := p.count + 1)
  }

  lemma PoppedOk(p: SlabPage, list: seq<nat>, total: nat)
    requires PageOk(p, list, total) && list != []
    ensures p.freeHead == Some(list[0]) && list[0] < total && PageOk(Popped(p), list[1..], total)
    ensures list[0] !in list[1..]
  {
    assert LinkAt(p.words, list, 0);
    var q, rest := Popped(p), list[1..];
    forall j | 0 <= j < |rest| ensures LinkAt(q.words, rest, j) {
      assert LinkAt(p.words, list, j + 1);
    }
  }

  /** Putting a slot back at the head of the free list. */
  function Pushed(p: SlabPage, i: nat): SlabPage
    requires i < |p.words| && p.count > 0
  {
    p.(words := p.words[i := match p.freeHead case None => U16_MAX case Some(x) => x],
       freeHead := Some(i), count := p.count - 1)
  }

  lemma PushedOk(p: SlabPage, list: seq<nat>, total: nat, i: nat)
    requires PageOk(p, list, total) && i < total && i !in list
    ensures p.count > 0 && PageOk(Pushed(p, i), [i] + list, total)
  {
    DistinctCons(i, list);
    MissingOne(list, i, total);
    var q, longer := Pushed(p, i), [i] + list;
    forall j | 0 <= j < |longer| ensures LinkAt(q.words, longer, j) {
      if j > 0 {
        assert LinkAt(p.words, list, j - 1);
        assert list[j - 1] != i;
      }
    }
  }

  /** A list of distinct slots that misses one is shorter than the page. */
  lemma MissingOne(list: seq<nat>, i: nat, total: nat)
    requires Distinct(list) && i < total && i !in list && forall j :: 0 <= j < |list| ==> list[j] < total
    ensures |list| < total
  {
    DistinctWithin(list, UpTo(total) - {i});
  }

  ghost function UpTo(n: nat): (s: set<nat>)
    ensures |s| == n && forall k: nat :: k in s <==> k < n
  {
    if n == 0 then {} else UpTo(n - 1) + {n - 1}
  }

  // ---------- addresses ----------

  function Address(frame: nat, i: nat, slotSize: nat): nat {
    frame + i * slotSize
  }

  /** A slot's address tells its frame and its index. */
  lemma AddressParts(frame: nat, i: nat, slotSize: nat)
    requires frame % PAGE_SIZE == 0 && slotSize > 0 && i < PAGE_SIZE / slotSize
    ensures var a := Address(frame, i, slotSize); var offset := a % PAGE_SIZE;
      a - offset == frame && offset == i * slotSize && offset % slotSize == 0 && offset / slotSize == i
  {
    var q := PAGE_SIZE / slotSize;
    MultipleMonotone(slotSize, i + 1, q);
    assert slotSize * (i + 1) == i * slotSize + slotSize;
    assert slotSize * q <= PAGE_SIZE;
    Remainder(frame + i * slotSize, frame / PAGE_SIZE, i * slotSize, PAGE_SIZE);
    Remainder(i * slotSize, i, 0, slotSize);
  }

  /** An address whose offset is a multiple of the slot size is the address of that slot. */
  lemma AddressOf(a: nat, slotSize: nat)
    requires slotSize > 0 && a % PAGE_SIZE % slotSize == 0
    ensures (a - a % PAGE_SIZE) % PAGE_SIZE == 0
    ensures Address(a - a % PAGE_SIZE, a % PAGE_SIZE / slotSize, slotSize) == a
  {
    var offset := a % PAGE_SIZE;
    assert offset == slotSize * (offset / slotSize);
    Shift(0, a / PAGE_SIZE, PAGE_SIZE);
    assert a - offset == 0 + PAGE_SIZE * (a / PAGE_SIZE);
  }

  /** The start of the frame an address lies in. */
  function FrameOf(a: nat): nat {
    a - a % PAGE_SIZE
  }

  // ---------- the cache ----------

  /** Slot i of page k is out. */
  ghost predicate OutAt(lists: seq<seq<nat>>, total: nat, k: nat, i: nat) {
    k < |lists| && i < total && i !in lists[k]
  }

  /** The slot at address a is out. */
  ghost predicate Out(pages: seq<SlabPage>, lists: seq<seq<nat>>, total: nat, slotSize: nat, a: nat) {
    exists k: nat, i: nat :: k < |pages| && OutAt(lists, total, k, i) && a == Address(pages[k].frame, i, slotSize)
  }

  ghost predicate PagesOk(pages: seq<SlabPage>, lists: seq<seq<nat>>, total: nat) {
    && |lists| == |pages|
    && (forall k :: 0 <= k < |pages| ==> PageOk(pages[k], lists[k], total))
    && (forall k, l :: 0 <= k < l < |pages| ==> pages[k].frame != pages[l].frame)
  }

  /** In a well-formed cache an address names at most one slot. */
  lemma OutIs(pages: seq<SlabPage>, lists: seq<seq<nat>>, total: nat, slotSize: nat, k: nat, i: nat)
    requires PagesOk(pages, lists, total) && slotSize > 0 && total == PAGE_SIZE / slotSize
    requires k < |pages| && i < total
    ensures Out(pages, lists, total, slotSize, Address(pages[k].frame, i, slotSize)) <==> i !in lists[k]
  {
    hide Address;
    var a := Address(pages[k].frame, i, slotSize);
    assert PageOk(pages[k], lists[k], total);
    AddressParts(pages[k].frame, i, slotSize);
    if Out(pages, lists, total, slotSize, a) {
      var l: nat, j: nat :| l < |pages| && OutAt(lists, total, l, j) && a == Address(pages[l].frame, j, slotSize);
      assert PageOk(pages[l], lists[l], total);
      AddressParts(pages[l].frame, j, slotSize);
      assert pages[l].frame == pages[k].frame && i == j;
    }
    if i !in lists[k] {
      assert OutAt(lists, total, k, i);
    }
  }

  ghost function Frames(pages: seq<SlabPage>): set<nat> {
    set k | 0 <= k < |pages| :: pages[k].frame
  }

  /** A slot that is out lies within one of the frames. */
  lemma OutWithin(pages: seq<SlabPage>, lists: seq<seq<nat>>, total: nat, slotSize: nat, a: nat)
    requires PagesOk(pages, lists, total) && slotSize > 0 && total == PAGE_SIZE / slotSize
    requires Out(pages, lists, total, slotSize, a)
    ensures FrameOf(a) in Frames(pages) && a % PAGE_SIZE + slotSize <= PAGE_SIZE && a % PAGE_SIZE % slotSize == 0
  {
    hide Address;
    var k: nat, i: nat :| k < |pages| && OutAt(lists, total, k, i) && a == Address(pages[k].frame, i, slotSize);
    assert PageOk(pages[k], lists[k], total);
    AddressParts(pages[k].frame, i, slotSize);
    SlotEnds(i, slotSize);
  }

  lemma SlotEnds(i: nat, slotSize: nat)
    requires slotSize > 0 && i < PAGE_SIZE / slotSize
    ensures i * slotSize + slotSize <= PAGE_SIZE
  {
    var q := PAGE_SIZE / slotSize;
    MultipleMonotone(slotSize, i + 1, q);
    assert slotSize * (i + 1) == i * slotSize + slotSize;
    assert slotSize * q <= PAGE_SIZE;
  }

  /** Two slots that are out share no byte. */
  lemma OutDisjoint(pages: seq<SlabPage>, lists: seq<seq<nat>>, total: nat, slotSize: nat, a: nat, b: nat)
    requires PagesOk(pages, lists, total) && slotSize > 0 && total == PAGE_SIZE / slotSize
    requires Out(pages, lists, total, slotSize, a) && Out(pages, lists, total, slotSize, b) && a < b
    ensures a + slotSize <= b
  {
    hide Out, PagesOk;
    OutWithin(pages, lists, total, slotSize, a);
    OutWithin(pages, lists, total, slotSize, b);
    if FrameOf(a) == FrameOf(b) {
      MultiplesApart(a % PAGE_SIZE, b % PAGE_SIZE, slotSize);
    } else {
      FramesApart(a, b);
    }
  }

  lemma FramesApart(a: nat, b: nat)
    requires a < b && FrameOf(a) != FrameOf(b)
    ensures FrameOf(a) + PAGE_SIZE <= FrameOf(b)
  {
  }

  /** A frame is in use exactly when one of its slots is out. */
  lemma FrameInUse(pages: seq<SlabPage>, lists: seq<seq<nat>>, total: nat, slotSize: nat, k: nat)
    requires PagesOk(pages, lists, total) && slotSize > 0 && total == PAGE_SIZE / slotSize && k < |pages|
    ensures pages[k].count > 0 <==> exists a: nat :: Out(pages, lists, total, slotSize, a) && FrameOf(a) == pages[k].frame
  {
    hide Address;
    assert PageOk(pages[k], lists[k], total);
    InUseIff(pages[k], lists[k], total);
    if pages[k].count > 0 {
      var i: nat :| i < total && i !in lists[k];
      AddressParts(pages[k].frame, i, slotSize);
      OutIs(pages, lists, total, slotSize, k, i);
      assert Out(pages, lists, total, slotSize, Address(pages[k].frame, i, slotSize));
    }
    if a: nat :| Out(pages, lists, total, slotSize, a) && FrameOf(a) == pages[k].frame {
      var l: nat, j: nat :| l < |pages| && OutAt(lists, total, l, j) && a == Address(pages[l].frame, j, slotSize);
      assert PageOk(pages[l], lists[l], total);
      AddressParts(pages[l].frame, j, slotSize);
      assert l == k;
    }
  }

  /** Changing one slot of one page changes what is out at that slot's address only. */
  lemma OneSlotChanges(pages: seq<SlabPage>, lists: seq<seq<nat>>, after: seq<SlabPage>, later: seq<seq<nat>>,
                       total: nat, slotSize: nat, k: nat, i: nat)
    requires |pages| == |lists| == |after| == |later| && k < |pages| && i < total
    requires PagesOk(pages, lists, total) && PagesOk(after, later, total) && slotSize > 0 && total == PAGE_SIZE / slotSize
    requires forall l :: 0 <= l < |pages| ==> after[l].frame == pages[l].frame && (l != k ==> later[l] == lists[l])
    requires forall j :: j in later[k] || j in lists[k] ==> j == i || (j in later[k] && j in lists[k])
    ensures forall a: nat :: a != Address(pages[k].frame, i, slotSize) ==>
      (Out(after, later, total, slotSize, a) <==> Out(pages, lists, total, slotSize, a))
  {
    hide Address, PagesOk;
    forall a: nat | a != Address(pages[k].frame, i, slotSize)
      ensures Out(after, later, total, slotSize, a) <==> Out(pages, lists, total, slotSize, a)
    {
      if Out(pages, lists, total, slotSize, a) {
        var l: nat, j: nat :| l < |pages| && OutAt(lists, total, l, j) && a == Address(pages[l].frame, j, slotSize);
        assert OutAt(later, total, l, j) && a == Address(after[l].frame, j, slotSize);
      }
      if Out(after, later, total, slotSize, a) {
        var l: nat, j: nat :| l < |after| && OutAt(later, total, l, j) && a == Address(after[l].frame, j, slotSize);
        assert OutAt(lists, total, l, j) && a == Address(pages[l].frame, j, slotSize);
      }
    }
  }

  /** The free list of a fresh page runs through all slots in order. */
  ghost function InOrder(from: nat, total: nat): (s: seq<nat>)
    requires from <= total
    ensures |s| == total - from && forall j :: 0 <= j < |s| ==> s[j] == from + j
    decreases total - from
  {
    if from == total then [] else [from] + InOrder(from + 1, total)
  }

  lemma FreshOk(p: SlabPage, total: nat)
    requires 0 < total < U16_MAX && |p.words| == total && p.frame % PAGE_SIZE == 0 && p.count == 0 && p.freeHead == Some(0)
    requires forall i :: 0 <= i < total ==> p.words[i] == if i + 1 < total then i + 1 else U16_MAX
    ensures PageOk(p, InOrder(0, total), total)
  {
  }

  /** Everything is free on a page whose count is zero. */
  lemma EmptyPage(p: SlabPage, list: seq<nat>, total: nat, i: nat)
    requires PageOk(p, list, total) && p.count == 0 && i < total
    ensures i in list
  {
    if i !in list {
      MissingOne(list, i, total);
    }
  }

  /** The count is positive exactly when some slot is out: kept pages are those in use. */
  lemma InUseIff(p: SlabPage, list: seq<nat>, total: nat)
    requires PageOk(p, list, total)
    ensures p.count > 0 <==> exists i: nat :: i < total && i !in list
  {
    if p.count == 0 {
      forall i: nat | i < total ensures i in list {
        EmptyPage(p, list, total, i);
      }
    } else if forall i: nat :: i < total ==> i in list {
      ElementsBound(list);
      assert UpTo(total) <= Elements(list);
      SubsetSize(UpTo(total), Elements(list));
    }
  }

  /** Dropping a page with nothing out changes nothing else. */
  lemma PageDropped(pages: seq<SlabPage>, lists: seq<seq<nat>>, total: nat, slotSize: nat, k: nat)
    requires PagesOk(pages, lists, total) && k < |pages| && pages[k].count == 0
    ensures PagesOk(Without(pages, k), Without(lists, k), total)
    ensures forall a: nat :: Out(Without(pages, k), Without(lists, k), total, slotSize, a) <==>
                             Out(pages, lists, total, slotSize, a)
  {
    hide Address, PageOk;
    var fewer, rest := Without(pages, k), Without(lists, k);
    forall a: nat ensures Out(fewer, rest, total, slotSize, a) <==> Out(pages, lists, total, slotSize, a) {
      if Out(pages, lists, total, slotSize, a) {
        var l: nat, j: nat :| l < |pages| && OutAt(lists, total, l, j) && a == Address(pages[l].frame, j, slotSize);
        if l == k {
          EmptyPage(pages[k], lists[k], total, j);
        }
        var m := if l < k then l else l - 1;
        assert OutAt(rest, total, m, j) && fewer[m] == pages[l];
      }
      if Out(fewer, rest, total, slotSize, a) {
        var l: nat, j: nat :| l < |fewer| && OutAt(rest, total, l, j) && a == Address(fewer[l].frame, j, slotSize);
        var m := if l < k then l else l + 1;
        assert OutAt(lists, total, m, j) && pages[m] == fewer[l];
      }
    }
  }

  /** Adding a page with nothing out changes nothing. */
  lemma PageAdded(pages: seq<SlabPage>, lists: seq<seq<nat>>, total: nat, slotSize: nat, p: SlabPage, list: seq<nat>)
    requires PagesOk(pages, lists, total) && PageOk(p, list, total) && p.count == 0
    requires forall k :: 0 <= k < |pages| ==> pages[k].frame != p.frame
    ensures PagesOk(pages + [p], lists + [list], total)
    ensures forall a: nat :: Out(pages + [p], lists + [list], total, slotSize, a) <==> Out(pages, lists, total, slotSize, a)
  {
    var more, longer := pages + [p], lists + [list];
    PagesPlus(pages, lists, total, p, list);
    PageDropped(more, longer, total, slotSize, |pages|);
    assert Without(more, |pages|) == pages && Without(longer, |pages|) == lists;
  }

  lemma PagesPlus(pages: seq<SlabPage>, lists: seq<seq<nat>>, total: nat, p: SlabPage, list: seq<nat>)
    requires PagesOk(pages, lists, total) && PageOk(p, list, total)
    requires forall k :: 0 <= k < |pages| ==> pages[k].frame != p.frame
    ensures PagesOk(pages + [p], lists + [list], total)
  {
    hide PageOk;
  }

  lemma PageUpdated(pages: seq<SlabPage>, lists: seq<seq<nat>>, total: nat, k: nat, p: SlabPage, list: seq<nat>)
    requires PagesOk(pages, lists, total) && k < |pages| && PageOk(p, list, total) && p.frame == pages[k].frame
    ensures PagesOk(pages[k := p], lists[k := list], total)
  {
    hide PageOk;
  }

  /** A slot starts at a multiple of an alignment that divides the page and the slot size. */
  lemma SlotAligned(p: SlabPage, list: seq<nat>, total: nat, i: nat, slot: nat, align: nat)
    requires PageOk(p, list, total) && align > 0 && slot % align == 0
    ensures PAGE_SIZE % align == 0 ==> Address(p.frame, i, slot) % align == 0
  {
    if PAGE_SIZE % align == 0 {
      var f, c, s := p.frame / PAGE_SIZE, PAGE_SIZE / align, slot / align;
      assert PAGE_SIZE == align * c && p.frame == PAGE_SIZE * f && slot == align * s;
      Regrouped(align, c, f);
      Regrouped(align, s, i);
      assert align * (c * f) + align * (s * i) == align * (c * f + s * i);
      Remainder(Address(p.frame, i, slot), c * f + s * i, 0, align);
    }
  }

  lemma Regrouped(a: int, b: int, c: int)
    ensures (a * b) * c == a * (b * c)
  {
  }

  class SlabCache {

    const size: nat
    const align: nat
    var pages: seq<SlabPage>
    ghost var lists: seq<seq<nat>>
    ghost var owned: set<nat>

    function Slot(): (s: nat)
      requires align > 0
      ensures s >= 8 && s >= size && s % align == 0
    {
      SlotSize(size, align)
    }

    function Slots(): (n: nat)
      requires align > 0
      ensures n <= 512 && n * Slot() <= PAGE_SIZE < n * Slot() + Slot()
    {
      FewSlots(Slot());
      PAGE_SIZE / Slot()
    }

    /** Zero-sized types and types larger than a page are turned away. */
    predicate Unsupported()
      requires align > 0
      ensures Unsupported() <==> size == 0 || Slot() > PAGE_SIZE
    {
      size == 0 || Slots() == 0 || Slot() > PAGE_SIZE
    }

    ghost predicate Valid()
      reads this
    {
      && align > 0
      && PagesOk(pages, lists, Slots())
      && (forall k :: 0 <= k < |pages| ==> pages[k].count > 0)
      && (Unsupported() ==> pages == [])
      && owned == Frames(pages)
    }

    /** The slot at this address has been handed out and not given back. */
    ghost predicate IsOut(a: nat)
      reads this
      requires align > 0
    {
      Out(pages, lists, Slots(), Slot(), a)
    }

    constructor (typeSize: nat, typeAlign: nat)
      requires typeAlign > 0
      ensures Valid() && size == typeSize && align == typeAlign && pages == [] && owned == {} && forall a: nat :: !IsOut(a)
    {
      size, align := typeSize, typeAlign;
      pages, lists, owned := [], [], {};
    }

    /** The first page that is not full, if any. */
    method FindRoom() returns (r: Option<nat>)
      requires Valid()
      ensures r.Some? ==> r.value < |pages| && pages[r.value].count < Slots()
      ensures r.None? ==> forall k :: 0 <= k < |pages| ==> pages[k].count == Slots()
    {
      var k := 0;
      while k < |pages|
        invariant 0 <= k <= |pages|
        invariant forall l :: 0 <= l < k ==> pages[l].count == Slots()
      {
        assert PageOk(pages[k], lists[k], Slots());
        if pages[k].count < Slots() {
          return Some(k);
        }
        k := k + 1;
      }
      r := None;
    }

    /** Thread a fresh frame into a page with every slot free. */
    method NewPage(frame: nat) returns (p: SlabPage)
      requires Valid() && !Unsupported() && frame % PAGE_SIZE == 0
      ensures p.frame == frame && p.count == 0 && p.freeHead == Some(0) && PageOk(p, InOrder(0, Slots()), Slots())
    {
      var words: seq<nat> := [];
      var i := 0;
      while i < Slots()
        invariant 0 <= i <= Slots() && |words| == i
        invariant forall k :: 0 <= k < i ==> words[k] == if k + 1 < Slots() then k + 1 else U16_MAX
      {
        words := words + [if i + 1 < Slots() then i + 1 else U16_MAX];
        i := i + 1;
      }
      p := SlabPage(frame, Some(0), 0, words);
      FreshOk(p, Slots());
    }

    /**
      Hand out a free slot. `frame` is what the frame allocator answers if asked. A slot that is out is
      never handed out again; the one slot whose address is null is taken out of circulation unreturned.
    */
    method Allocate(frame: Option<nat>) returns (r: Result<nat, SlabError>, consumed: bool)
      requires Valid()
      requires frame.Some? ==> frame.value % PAGE_SIZE == 0 && frame.value !in owned
      modifies this
      ensures Valid()
      ensures consumed ==> frame.Some?
      ensures owned == old(owned) + if consumed then {frame.value} else {}
      ensures Unsupported() ==> r == Err(InvalidPointer) && pages == old(pages) && !consumed
      ensures !Unsupported() ==> (consumed <==> frame.Some? && forall k :: 0 <= k < |old(pages)| ==> old(pages)[k].count == Slots())
      ensures consumed ==> if frame.value == 0 then r.Err? else r == Ok(frame.value)
      ensures r.Ok? ==> !old(IsOut(r.value)) && r.value > 0
      ensures r.Ok? ==> FrameOf(r.value) in owned && r.value % PAGE_SIZE + Slot() <= PAGE_SIZE
      ensures r.Ok? && PAGE_SIZE % align == 0 ==> r.value % align == 0
      ensures r.Ok? ==> forall a: nat :: IsOut(a) <==> old(IsOut(a)) || a == r.value
      ensures r.Err? && !Unsupported() ==> r.error == FrameAllocationFailed
      ensures r.Err? && !Unsupported() ==>
        || (pages == old(pages) && frame.None? && (forall k :: 0 <= k < |pages| ==> pages[k].count == Slots())
            && forall a: nat :: IsOut(a) <==> old(IsOut(a)))
        || (0 in owned && !old(IsOut(0)) && forall a: nat :: IsOut(a) <==> old(IsOut(a)) || a == 0)
    {
      consumed := false;
      if Unsupported() {
        return Err(InvalidPointer), false;
      }
      hide PagesOk, Out, SlotSize, Address, Frames;
      var found := FindRoom();
      var k: nat;
      if found.Some? {
        k := found.value;
      } else {
        if frame.None? {
          return Err(FrameAllocationFailed), false;
        }
        k := AddPage(frame.value);
        consumed := true;
      }
      var a := TakeSlot(k);
      if a == 0 {
        return Err(FrameAllocationFailed), consumed;
      }
      r := Ok(a);
    }

    /** Valid except that the last page may have nothing out yet. */
    ghost predicate AlmostValid()
      reads this
    {
      && align > 0 && !Unsupported()
      && PagesOk(pages, lists, Slots())
      && (forall k :: 0 <= k < |pages| - 1 ==> pages[k].count > 0)
      && owned == Frames(pages)
    }

    /** Add a page for a frame. */
    method AddPage(frame: nat) returns (k: nat)
      requires Valid() && !Unsupported() && frame % PAGE_SIZE == 0 && frame !in owned
      modifies this
      ensures AlmostValid() && k == |old(pages)| == |pages| - 1 && owned == old(owned) + {frame}
      ensures pages[k].frame == frame && pages[k].count == 0 && pages[k].freeHead == Some(0)
      ensures forall a: nat :: IsOut(a) <==> old(IsOut(a))
    {
      hide PageOk, Out, SlotSize, Address;
      var p := NewPage(frame);
      PageAdded(pages, lists, Slots(), Slot(), p, InOrder(0, Slots()));
      FramesPlus(pages, p);
      k := |pages|;
      pages := pages + [p];
      lists := lists + [InOrder(0, Slots())];
      owned := owned + {frame};
    }

    /** Take the head of a page's free list. */
    method TakeSlot(k: nat) returns (a: nat)
      requires AlmostValid() && k < |pages| && pages[k].count < Slots() && forall l :: 0 <= l < |pages| && l != k ==> pages[l].count > 0
      modifies this`pages, this`lists
      ensures Valid() && !old(IsOut(a)) && FrameOf(a) in owned && a % PAGE_SIZE + Slot() <= PAGE_SIZE
      ensures FrameOf(a) == old(pages[k].frame) && (old(pages[k].freeHead) == Some(0) ==> a == FrameOf(a))
      ensures PAGE_SIZE % align == 0 ==> a % align == 0
      ensures forall b: nat :: IsOut(b) <==> old(IsOut(b)) || b == a
    {
      hide PageOk, Out, SlotSize, Address;
      ghost var mid, middle, list := pages, lists, lists[k];
      HasFree(pages[k], list, Slots());
      PoppedOk(pages[k], list, Slots());
      var i := pages[k].freeHead.value;
      HeadInRange(pages[k], list, Slots());
      var q := Popped(pages[k]);
      PageUpdated(pages, lists, Slots(), k, q, list[1..]);
      pages := pages[k := q];
      lists := lists[k := list[1..]];
      a := Address(q.frame, i, Slot());
      SlotAligned(q, list[1..], Slots(), i, Slot(), align);
      OneSlotChanges(mid, middle, pages, lists, Slots(), Slot(), k, i);
      OutIs(mid, middle, Slots(), Slot(), k, i);
      OutIs(pages, lists, Slots(), Slot(), k, i);
      SameFrames(mid, pages);
      OutWithin(pages, lists, Slots(), Slot(), a);
      FramePart(q, list[1..], Slots(), i, Slot());
    }

    /** Walk the embedded free list of page k looking for a slot. */
    method OnFreeList(k: nat, slot: nat) returns (found: bool)
      requires Valid() && k < |pages|
      ensures found <==> slot in lists[k]
    {
      ghost var list, total := lists[k], Slots();
      assert PageOk(pages[k], list, total);
      var current := pages[k].freeHead;
      var steps := 0;
      while current.Some?
        invariant 0 <= steps <= |list|
        invariant current == if steps < |list| then Some(list[steps]) else None
        invariant forall j :: 0 <= j < steps ==> list[j] != slot
        decreases |list| - steps
      {
        var head := current.value;
        if head == slot {
          return true;
        }
        if head == U16_MAX || steps >= Slots() {
          break;
        }
        assert LinkAt(pages[k].words, list, steps);
        var next := pages[k].words[head];
        current := if next == U16_MAX then None else Some(next);
        steps := steps + 1;
      }
      found := false;
    }

    /** The page with this frame, if any. */
    method FindFrame(frame: nat) returns (r: Option<nat>)
      ensures r.Some? ==> r.value < |pages| && pages[r.value].frame == frame
      ensures r.None? ==> forall k :: 0 <= k < |pages| ==> pages[k].frame != frame
    {
      var k := 0;
      while k < |pages|
        invariant 0 <= k <= |pages|
        invariant forall l :: 0 <= l < k ==> pages[l].frame != frame
      {
        if pages[k].frame == frame {
          return Some(k);
        }
        k := k + 1;
      }
      r := None;
    }

    /**
      Give a slot back. It succeeds exactly for addresses of slots that are out, so double frees, interior
      and foreign pointers fail and change nothing. A page left with nothing out returns its frame.
    */
    method Deallocate(ptr: nat) returns (r: Result<(), SlabError>, freed: Option<nat>)
      requires Valid()
      modifies this
      ensures Valid()
      ensures r.Ok? <==> old(IsOut(ptr))
      ensures r.Ok? ==> forall a: nat :: IsOut(a) <==> old(IsOut(a)) && a != ptr
      ensures r.Ok? ==> (freed.Some? <==> forall a: nat :: IsOut(a) ==> FrameOf(a) != FrameOf(ptr))
      ensures freed.Some? ==> freed.value == FrameOf(ptr) && FrameOf(ptr) in old(owned)
      ensures owned == old(owned) - if freed.Some? then {FrameOf(ptr)} else {}
      ensures r.Err? ==> r.error == InvalidPointer && freed == None && pages == old(pages) && lists == old(lists)
    {
      freed := None;
      if Unsupported() {
        return Err(InvalidPointer), None;
      }
      hide PageOk, SlotSize, Address;
      ghost var before, earlier, total, slot := pages, lists, Slots(), Slot();
      var offset := ptr % PAGE_SIZE;
      var frame := ptr - offset;
      var found := FindFrame(frame);
      if found.None? || offset % Slot() != 0 || offset / Slot() >= Slots() {
        NotASlot(pages, lists, total, slot, ptr);
        return Err(InvalidPointer), None;
      }
      hide Out;
      var k, i := found.value, offset / Slot();
      AddressOf(ptr, slot);
      OutIs(pages, lists, total, slot, k, i);
      if pages[k].count == 0 {
        return Err(InvalidPointer), None;
      }
      var free := OnFreeList(k, i);
      if free {
        return Err(InvalidPointer), None;
      }
      freed := PutBack(k, i);
      r := Ok(());
    }

    /** Put slot i of page k back at the head of the free list, and drop a page left with nothing out. */
    method PutBack(k: nat, i: nat) returns (freed: Option<nat>)
      requires Valid() && !Unsupported() && k < |pages| && i < Slots() && IsOut(Address(pages[k].frame, i, Slot()))
      modifies this
      ensures Valid()
      ensures forall a: nat :: IsOut(a) <==> old(IsOut(a)) && a != old(Address(pages[k].frame, i, Slot()))
      ensures freed.Some? <==> forall a: nat :: IsOut(a) ==> FrameOf(a) != old(pages[k].frame)
      ensures freed.Some? ==> freed.value == old(pages[k].frame)
      ensures old(pages[k].frame) in old(owned) && owned == old(owned) - if freed.Some? then {old(pages[k].frame)} else {}
    {
      hide PageOk, Out, SlotSize, Address;
      freed := None;
      ghost var before, earlier, total, slot := pages, lists, Slots(), Slot();
      OutIs(pages, lists, total, slot, k, i);
      InRange(pages[k], lists[k], total);
      PushedOk(pages[k], lists[k], total, i);
      var q := Pushed(pages[k], i);
      PageUpdated(pages, lists, total, k, q, [i] + lists[k]);
      pages := pages[k := q];
      lists := lists[k := [i] + lists[k]];
      OneSlotChanges(before, earlier, pages, lists, total, slot, k, i);
      OutIs(pages, lists, total, slot, k, i);
      SameFrames(before, pages);
      FrameInUse(pages, lists, total, slot, k);
      if q.count == 0 {
        PageDropped(pages, lists, total, slot, k);
        FramesLess(pages, lists, total, k);
        freed := Some(q.frame);
        pages := Without(pages, k);
        lists := Without(lists, k);
        owned := owned - {q.frame};
      }
    }

    /** Between calls the owner of a slot that is out may write anything into it. */
    method ClientWrite(k: nat, i: nat, value: nat)
      requires Valid() && k < |pages| && i < Slots() && IsOut(Address(pages[k].frame, i, Slot()))
      modifies this`pages
      ensures Valid() && forall a: nat :: IsOut(a) <==> old(IsOut(a))
      ensures k < |pages| && i < |pages[k].words| && pages[k].words[i] == value
    {
      hide SlotSize, Address;
      ghost var before, total, slot := pages, Slots(), Slot();
      OutIs(pages, lists, total, slot, k, i);
      InRange(pages[k], lists[k], total);
      WrittenOk(pages[k], lists[k], total, i, value);
      var q := pages[k].(words := pages[k].words[i := value]);
      PageUpdated(pages, lists, total, k, q, lists[k]);
      assert lists[k := lists[k]] == lists;
      pages := pages[k := q];
      OneSlotChanges(before, lists, pages, lists, total, slot, k, i);
      OutIs(pages, lists, total, slot, k, i);
    }
  }

  lemma FramesPlus(pages: seq<SlabPage>, p: SlabPage)
    ensures Frames(pages + [p]) == Frames(pages) + {p.frame}
  {
    var more := pages + [p];
    assert more[|pages|] == p;
    forall f | f in Frames(pages)
      ensures f in Frames(more)
    {
      var k :| 0 <= k < |pages| && pages[k].frame == f;
      assert more[k].frame == f;
    }
  }

  lemma SameFrames(pages: seq<SlabPage>, after: seq<SlabPage>)
    requires |pages| == |after| && forall k :: 0 <= k < |pages| ==> after[k].frame == pages[k].frame
    ensures Frames(after) == Frames(pages)
  {
  }

  lemma FramesLess(pages: seq<SlabPage>, lists: seq<seq<nat>>, total: nat, k: nat)
    requires PagesOk(pages, lists, total) && k < |pages|
    ensures Frames(Without(pages, k)) == Frames(pages) - {pages[k].frame} && pages[k].frame in Frames(pages)
  {
    hide PageOk;
    var fewer := Without(pages, k);
    forall f | f in Frames(pages) && f != pages[k].frame
      ensures f in Frames(fewer)
    {
      var l :| 0 <= l < |pages| && pages[l].frame == f;
      assert fewer[if l < k then l else l - 1].frame == f;
    }
    forall f | f in Frames(fewer)
      ensures f in Frames(pages) && f != pages[k].frame
    {
      var l :| 0 <= l < |fewer| && fewer[l].frame == f;
      assert pages[if l < k then l else l + 1].frame == f;
    }
  }

  lemma FramePart(p: SlabPage, list: seq<nat>, total: nat, i: nat, slotSize: nat)
    requires PageOk(p, list, total) && slotSize > 0 && total == PAGE_SIZE / slotSize && i < total
    ensures FrameOf(Address(p.frame, i, slotSize)) == p.frame && (i == 0 ==> Address(p.frame, i, slotSize) == p.frame)
  {
    AddressParts(p.frame, i, slotSize);
  }

  /** A frame at address zero loses its first slot: it is taken, nobody gets it, and it cannot be given back. */
  method FrameAtZero() returns (r: Result<nat, SlabError>, consumed: bool, cache: SlabCache)
    ensures r == Err(FrameAllocationFailed) && consumed
    ensures cache.Valid() && cache.owned == {0} && cache.IsOut(0) && cache.Slots() == 256
  {
    cache := new SlabCache(16, 8);
    assert cache.Slot() == 16;
    r, consumed := cache.Allocate(Some(0));
  }

  lemma InRange(p: SlabPage, list: seq<nat>, total: nat)
    requires PageOk(p, list, total)
    ensures |p.words| == total
  {
  }

  lemma WrittenOk(p: SlabPage, list: seq<nat>, total: nat, i: nat, value: nat)
    requires PageOk(p, list, total) && i < total && i !in list
    ensures PageOk(p.(words := p.words[i := value]), list, total)
  {
    var q := p.(words := p.words[i := value]);
    forall j | 0 <= j < |list| ensures LinkAt(q.words, list, j) {
      assert LinkAt(p.words, list, j);
    }
  }

  /** An address outside every frame, or off every slot of its frame, is not out. */
  lemma NotASlot(pages: seq<SlabPage>, lists: seq<seq<nat>>, total: nat, slotSize: nat, ptr: nat)
    requires PagesOk(pages, lists, total) && slotSize > 0 && total == PAGE_SIZE / slotSize
    requires
      || (forall k :: 0 <= k < |pages| ==> pages[k].frame != ptr - ptr % PAGE_SIZE)
      || ptr % PAGE_SIZE % slotSize != 0
      || ptr % PAGE_SIZE / slotSize >= total
    ensures !Out(pages, lists, total, slotSize, ptr)
  {
    hide Address;
    if Out(pages, lists, total, slotSize, ptr) {
      var l: nat, j: nat :| l < |pages| && OutAt(lists, total, l, j) && ptr == Address(pages[l].frame, j, slotSize);
      assert PageOk(pages[l], lists[l], total);
      AddressParts(pages[l].frame, j, slotSize);
    }
  }

  lemma HasFree(p: SlabPage, list: seq<nat>, total: nat)
    requires PageOk(p, list, total) && p.count < total
    ensures list != []
  {
  }

  lemma HeadInRange(p: SlabPage, list: seq<nat>, total: nat)
    requires PageOk(p, list, total) && list != []
    ensures p.freeHead == Some(list[0]) && list[0] < |p.words| == total
  {
  }

  lemma FewSlots(slot: nat)
    requires slot >= 8
    ensures PAGE_SIZE / slot <= 512
  {
    var q := PAGE_SIZE / slot;
    assert slot * q <= PAGE_SIZE;
    MultipleMonotone(q, 8, slot);
  }
}
