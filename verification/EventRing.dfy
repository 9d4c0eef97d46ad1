/** The overwriting event ring: the last `capacity` records of everything ever pushed. */
module EventRing {

  import opened Arithmetic
  import opened Common

  datatype Record = Record(sequenceId: nat, payload: seq<nat>)

  /** Records carry consecutive sequence numbers from 1. */
  ghost predicate Numbered(history: seq<Record>) {
    forall i :: 0 <= i < |history| ==> history[i].sequenceId == i + 1
  }

  /** The index of the oldest record still held. */
  function Oldest(n: nat, capacity: nat): (i: nat)
    ensures i <= n
  {
    if n <= capacity then 0 else n - capacity
  }

  /** Record i of the history is in its slot. */
  predicate Held(buffer: seq<Record>, history: seq<Record>, capacity: nat, i: nat)
    requires capacity > 0 && i < |history|
  {
    i % capacity < |buffer| && buffer[i % capacity] == history[i]
  }

  ghost predicate HoldsLast(buffer: seq<Record>, history: seq<Record>, capacity: nat)
    requires capacity > 0
  {
    && |buffer| == (if |history| < capacity then |history| else capacity)
    && (forall i {:trigger Held(buffer, history, capacity, i)} :: Oldest(|history|, capacity) <= i < |history| ==>
          Held(buffer, history, capacity, i))
  }

  lemma SmallRemainder(i: nat, capacity: nat)
    requires i < capacity
    ensures i % capacity == i
  {
    Remainder(i, 0, i, capacity);
  }

  lemma PushHolds(buffer: seq<Record>, history: seq<Record>, capacity: nat, record: Record)
    requires capacity > 0 && HoldsLast(buffer, history, capacity)
    ensures |buffer| >= capacity ==> |history| % capacity < |buffer|
    ensures HoldsLast(if |buffer| < capacity then buffer + [record] else buffer[|history| % capacity := record],
                      history + [record], capacity)
  {
    var n := |history|;
    var after := if |buffer| < capacity then buffer + [record] else buffer[n % capacity := record];
    if n < capacity {
      SmallRemainder(n, capacity);
    }
    forall i | Oldest(n + 1, capacity) <= i < n + 1 ensures Held(after, history + [record], capacity, i) {
      if i < n {
        assert Held(buffer, history, capacity, i);
        SlotsApart(i, n, capacity);
      }
    }
  }

  /** What a reader asking for at most m records from sequence number f should see of the whole history. */
  function Window(history: seq<Record>, capacity: nat, f: nat, m: nat): seq<Record> {
    if f > |history| then []
    else Slice(history, Start(|history|, capacity, f), Stop(|history|, Start(|history|, capacity, f), m))
  }

  function Slice(s: seq<Record>, i: nat, j: nat): (r: seq<Record>)
    requires i <= j <= |s|
    ensures |r| == j - i
  {
    s[i..j]
  }

  function Start(n: nat, capacity: nat, f: nat): (i: nat)
    requires f <= n
    ensures i <= n
  {
    if f <= Oldest(n, capacity) then Oldest(n, capacity) else f - 1
  }

  function Stop(n: nat, start: nat, m: nat): (i: nat)
    requires start <= n
    ensures start <= i <= n
  {
    if start + m < n then start + m else n
  }

  /**
    For every sequence number asked for, the window holds, from the oldest on and at most m of them, exactly
    the retained records that do not lie before it.
  */
  lemma WindowIs(history: seq<Record>, capacity: nat, f: nat, m: nat) returns (start: nat)
    requires Numbered(history)
    ensures start <= |history|
    ensures forall i :: 0 <= i < |history| ==> (i >= start <==> i + capacity >= |history| && history[i].sequenceId >= f)
    ensures Window(history, capacity, f, m) == if m < |history| - start then history[start..start + m] else history[start..]
  {
    start := if f > |history| then |history| else Start(|history|, capacity, f);
  }

  /** Reading on from where the last read stopped neither skips nor repeats a record. */
  lemma WindowsAdjoin(history: seq<Record>, capacity: nat, f: nat, m: nat, k: nat)
    requires Numbered(history) && f <= |history| && capacity > 0 && m > 0
    ensures var first := Window(history, capacity, f, m);
      && (first == [] <==> Start(|history|, capacity, f) == |history|)
      && (first != [] ==> first[0].sequenceId == Start(|history|, capacity, f) + 1)
      && (first != [] ==>
            first + Window(history, capacity, first[|first| - 1].sequenceId + 1, k) == Window(history, capacity, f, m + k))
  {
    var n, start := |history|, Start(|history|, capacity, f);
    var next := Stop(n, start, m);
    NextStart(n, capacity, f, m, k);
    if start < next {
      SliceEnds(history, start, next);
      hide Start, Stop, Slice;
      if next < n {
        SlicesJoin(history, start, next, Stop(n, start, m + k));
      }
    }
  }

  lemma NextStart(n: nat, capacity: nat, f: nat, m: nat, k: nat)
    requires f <= n && m > 0
    ensures var start := Start(n, capacity, f); var next := Stop(n, start, m);
      && (next == start <==> start == n)
      && (start < next < n ==> Start(n, capacity, next + 1) == next && Stop(n, next, k) == Stop(n, start, m + k))
      && (next == n ==> Stop(n, start, m + k) == n)
  {
  }

  lemma SliceEnds(history: seq<Record>, i: nat, j: nat)
    requires Numbered(history) && i < j <= |history|
    ensures Slice(history, i, j)[0].sequenceId == i + 1 && Slice(history, i, j)[j - i - 1].sequenceId == j
  {
  }

  lemma SlicesJoin(s: seq<Record>, a: nat, b: nat, c: nat)
    requires a <= b <= c <= |s|
    ensures Slice(s, a, b) + Slice(s, b, c) == Slice(s, a, c)
  {
  }

  lemma EmptySlice(s: seq<Record>, a: nat)
    requires a <= |s|
    ensures Slice(s, a, a) == []
  {
  }

  lemma SliceGrows(s: seq<Record>, a: nat, b: nat)
    requires a <= b < |s|
    ensures Slice(s, a, b) + [s[b]] == Slice(s, a, b + 1)
  {
  }

  /** Asking from the beginning for enough gives exactly the retained records. */
  lemma WholeWindow(history: seq<Record>, capacity: nat, m: nat)
    requires capacity > 0 && m >= capacity
    ensures Window(history, capacity, 0, m) == history[Oldest(|history|, capacity)..]
  {
  }

  /** The slot of a retained record holds it. */
  lemma HeldAt(buffer: seq<Record>, history: seq<Record>, capacity: nat, i: nat)
    requires capacity > 0 && HoldsLast(buffer, history, capacity) && Oldest(|history|, capacity) <= i < |history|
    ensures i % capacity < |buffer| && buffer[i % capacity] == history[i]
  {
    assert Held(buffer, history, capacity, i);
  }

  class EventRingBuffer {

    var buffer: seq<Record>
    const capacity: nat
    var head: nat
    ghost var history: seq<Record>

    ghost predicate Valid()
      reads this
    {
      capacity > 0 && head == |history| + 1 && Numbered(history) && HoldsLast(buffer, history, capacity)
    }

    constructor (size: nat)
      requires size > 0
      ensures Valid() && capacity == size && history == []
    {
      buffer, capacity, head, history := [], size, 1, [];
    }

    /** Append a record under the next sequence number; the oldest makes room when the ring is full. */
    method Push(record: Record) returns (sequence: nat)
      requires Valid()
      modifies this
      ensures Valid() && sequence == |old(history)| + 1
      ensures history == old(history) + [record.(sequenceId := sequence)]
    {
      sequence := head;
      var numbered := record.(sequenceId := sequence);
      PushHolds(buffer, history, capacity, numbered);
      hide HoldsLast;
      head := head + 1;
      if |buffer| < capacity {
        buffer := buffer + [numbered];
      } else {
        var slot := (sequence - 1) % capacity;
        buffer := buffer[slot := numbered];
      }
      history := history + [numbered];
    }

    /** Copy the records with sequence numbers from start to end, exclusive. */
    method CopyRange(start: nat, end: nat) returns (result: seq<Record>)
      requires Valid() && Oldest(|history|, capacity) < start <= end <= head
      ensures result == Slice(history, start - 1, end - 1)
    {
      hide Slice, HoldsLast, Numbered;
      result := [];
      var sequence := start;
      EmptySlice(history, start - 1);
      while sequence < end
        invariant start <= sequence <= end
        invariant result == Slice(history, start - 1, sequence - 1)
      {
        HeldAt(buffer, history, capacity, sequence - 1);
        SliceGrows(history, start - 1, sequence - 1);
        var slot := (sequence - 1) % capacity;
        if slot < |buffer| {
          result := result + [buffer[slot]];
        }
        sequence := sequence + 1;
      }
    }

    /** Read at most m records from sequence number f on; None is the overflow of the 64-bit end of the range. */
    method ReadFrom(f: nat, m: nat) returns (r: Option<seq<Record>>)
      requires Valid()
      ensures r.Some? ==> r.value == Window(history, capacity, f, m)
      ensures r.None? <==> f < head && Start(|history|, capacity, f) + 1 + m >= U64_SPAN
    {
      hide HoldsLast, Slice, Numbered;
      if f >= head {
        return Some([]);
      }
      var oldest := if head > capacity then head - capacity else 1;
      var start := if f < oldest then oldest else f;
      if start + m >= U64_SPAN {
        return None;
      }
      var end := if start + m < head then start + m else head;
      var result := CopyRange(start, end);
      r := Some(result);
    }
  }
}
