/**
  The priority scheduler: 32 run queues, a bitmap of the non-empty ones, a count and a current thread. Its
  meaning is one sequence, `Order`: the queues from the highest level down, each from front to back. The
  32-bit bitmap is the low half of a 64-bit word.
*/
module Scheduling {

  import opened Abi
  import opened Bits
  import opened Common

  const LEVELS: nat := 32

  type Queues = seq<seq<ObjectId>>

  // ---------- the order ----------

  /** Levels n - 1 down to 0, each front to back. */
  function Order(q: Queues, n: nat): seq<ObjectId>
    requires n <= |q|
  {
    if n == 0 then [] else q[n - 1] + Order(q, n - 1)
  }

  lemma {:induction false} OrderMembers(q: Queues, n: nat, id: ObjectId)
    requires n <= |q|
    ensures id in Order(q, n) <==> exists p :: 0 <= p < n && id in q[p]
  {
    if n > 0 {
      OrderMembers(q, n - 1, id);
    }
  }

  /** Only the levels below n count. */
  lemma {:induction false} OrderFrame(q: Queues, r: Queues, n: nat)
    requires n <= |q| && n <= |r| && forall p :: 0 <= p < n ==> q[p] == r[p]
    ensures Order(q, n) == Order(r, n)
  {
    if n > 0 {
      OrderFrame(q, r, n - 1);
    }
  }

  /** Where in the order the k-th place of level p lies. */
  function Place(q: Queues, n: nat, p: nat, k: nat): nat
    requires p < n <= |q|
  {
    if p == n - 1 then k else |q[n - 1]| + Place(q, n - 1, p, k)
  }

  /** The level the i-th thread of the order is queued at. */
  function LevelAt(q: Queues, n: nat, i: nat): nat
    requires n <= |q| && i < |Order(q, n)|
  {
    if i < |q[n - 1]| then n - 1 else LevelAt(q, n - 1, i - |q[n - 1]|)
  }

  /** The order never goes up a level. */
  lemma {:induction false} OrderDescends(q: Queues, n: nat, i: nat, j: nat)
    requires n <= |q| && i <= j < |Order(q, n)|
    ensures LevelAt(q, n, j) <= LevelAt(q, n, i) < n
    ensures Order(q, n)[i] in q[LevelAt(q, n, i)]
  {
    var k := |q[n - 1]|;
    if i >= k {
      OrderDescends(q, n - 1, i - k, j - k);
    } else if j >= k {
      OrderDescends(q, n - 1, j - k, j - k);
    }
  }

  function Inserted(s: seq<ObjectId>, k: nat, id: ObjectId): seq<ObjectId>
    requires k <= |s|
  {
    s[..k] + [id] + s[k..]
  }

  lemma InsertedLeft(s: seq<ObjectId>, t: seq<ObjectId>, k: nat, id: ObjectId)
    requires k <= |s|
    ensures Inserted(s, k, id) + t == Inserted(s + t, k, id)
  {
  }

  lemma InsertedRight(s: seq<ObjectId>, t: seq<ObjectId>, k: nat, id: ObjectId)
    requires k <= |t|
    ensures s + Inserted(t, k, id) == Inserted(s + t, |s| + k, id)
  {
  }

  lemma RemovedLeft(s: seq<ObjectId>, t: seq<ObjectId>, k: nat)
    requires k < |s|
    ensures Without(s, k) + t == Without(s + t, k)
  {
  }

  lemma RemovedRight(s: seq<ObjectId>, t: seq<ObjectId>, k: nat)
    requires k < |t|
    ensures s + Without(t, k) == Without(s + t, |s| + k)
  {
  }

  /** Adding to a queue adds at one place of the order and moves nothing else. */
  lemma {:induction false} OrderInsert(q: Queues, n: nat, p: nat, k: nat, id: ObjectId)
    requires p < n <= |q| && k <= |q[p]|
    ensures var r := q[p := Inserted(q[p], k, id)]; var at := Place(q, n, p, k);
      at <= |Order(q, n)| && Order(r, n) == Inserted(Order(q, n), at, id)
  {
    hide Inserted;
    var r := q[p := Inserted(q[p], k, id)];
    if p == n - 1 {
      OrderFrame(q, r, n - 1);
      InsertedLeft(q[p], Order(q, n - 1), k, id);
    } else {
      OrderInsert(q, n - 1, p, k, id);
      InsertedRight(q[n - 1], Order(q, n - 1), Place(q, n - 1, p, k), id);
    }
  }

  /** Taking from a queue takes from one place of the order. */
  lemma {:induction false} OrderRemove(q: Queues, n: nat, p: nat, k: nat)
    requires p < n <= |q| && k < |q[p]|
    ensures var r := q[p := Without(q[p], k)]; var at := Place(q, n, p, k);
      at < |Order(q, n)| && Order(q, n)[at] == q[p][k] && Order(r, n) == Without(Order(q, n), at)
  {
    hide Without;
    var r := q[p := Without(q[p], k)];
    if p == n - 1 {
      OrderFrame(q, r, n - 1);
      RemovedLeft(q[p], Order(q, n - 1), k);
    } else {
      OrderRemove(q, n - 1, p, k);
      RemovedRight(q[n - 1], Order(q, n - 1), Place(q, n - 1, p, k));
    }
  }

  /** The head of the order is the front of the highest non-empty level. */
  lemma {:induction false} OrderHead(q: Queues, n: nat, p: nat)
    requires p < n <= |q| && q[p] != [] && forall l :: p < l < n ==> q[l] == []
    ensures Order(q, n) != [] && Order(q, n)[0] == q[p][0] && Place(q, n, p, 0) == 0
  {
    if p < n - 1 {
      OrderHead(q, n - 1, p);
    }
  }

  lemma {:induction false} OrderEmpty(q: Queues, n: nat)
    requires n <= |q| && forall l :: 0 <= l < n ==> q[l] == []
    ensures Order(q, n) == []
  {
    if n > 0 {
      OrderEmpty(q, n - 1);
    }
  }

  // ---------- the bitmap ----------

  /** A bit is set exactly when its level is non-empty. */
  ghost predicate Mapped(q: Queues, bitmap: bv64) {
    |q| == LEVELS && forall p: nat :: p < 64 ==> (BitOf(bitmap, p) <==> p < LEVELS && q[p] != [])
  }

  lemma MappedUpdate(q: Queues, bitmap: bv64, p: nat, queue: seq<ObjectId>)
    requires Mapped(q, bitmap) && p < LEVELS
    ensures Mapped(q[p := queue], WithBit(bitmap, p, queue != []))
  {
    hide BitOf, WithBit;
  }

  lemma MappedSame(q: Queues, bitmap: bv64, p: nat, queue: seq<ObjectId>)
    requires Mapped(q, bitmap) && p < LEVELS && q[p] != [] && queue != []
    ensures Mapped(q[p := queue], bitmap)
  {
    hide BitOf;
  }

  lemma MappedZero(q: Queues, bitmap: bv64)
    requires Mapped(q, bitmap)
    ensures bitmap == 0 <==> forall p :: 0 <= p < LEVELS ==> q[p] == []
    ensures bitmap == 0 <==> Order(q, LEVELS) == []
  {
    ZeroIffNoBits(bitmap);
    hide BitOf;
    if forall p :: 0 <= p < LEVELS ==> q[p] == [] {
      OrderEmpty(q, LEVELS);
    } else {
      var p :| 0 <= p < LEVELS && q[p] != [];
      assert BitOf(bitmap, p);
      OrderMembers(q, LEVELS, q[p][0]);
    }
  }

  // ---------- threads ----------

  datatype ThreadState = New | Runnable | Running | Blocked | Dying | Dead

  datatype SchedulerError =
    | QueueFull | InvalidState | DuplicateEntry | NoCurrentThread | NoRunnableThread | QueueInvariant

  // ---------- priorities ----------

  /** Every queued thread sits at the level of its priority, capped at 31. */
  ghost predicate Ranked(q: Queues, priority: ObjectId -> nat) {
    forall p, x :: 0 <= p < |q| && x in q[p] ==> p == if priority(x) < 31 then priority(x) else 31
  }

  /** Threads have left the queues, and no other thread has moved to another level. */
  ghost predicate Fewer(q: Queues, t: Queues) {
    |t| == |q| && forall p, x :: 0 <= p < |t| && x in t[p] ==> x in q[p]
  }

  lemma RankedFewer(q: Queues, t: Queues, priority: ObjectId -> nat)
    requires Ranked(q, priority) && Fewer(q, t)
    ensures Ranked(t, priority)
  {
  }

  lemma FewerSelf(q: Queues)
    ensures Fewer(q, q)
  {
  }

  lemma TakeFewer(q: Queues, p: nat, k: nat)
    requires p < |q| && k < |q[p]|
    ensures Fewer(q, q[p := Without(q[p], k)])
  {
    WithoutMembers(q[p], k);
    hide Without;
  }

  lemma RanksPlus(q: Queues, p: nat, front: bool, id: ObjectId, rank: nat)
    requires p < |q| && p == if rank > 31 then 31 else rank
    ensures forall priority: ObjectId -> nat :: Ranked(q, priority) && priority(id) == rank ==>
      Ranked(q[p := if front then [id] + q[p] else q[p] + [id]], priority)
  {
  }

  /** A thread of the highest level has the highest priority, up to the cap. */
  lemma HighestRank(q: Queues, p: nat)
    requires |q| == LEVELS && p < LEVELS && q[p] != [] && forall l :: p < l < LEVELS ==> q[l] == []
    ensures forall priority: ObjectId -> nat, x :: Ranked(q, priority) && x in Order(q, LEVELS) ==>
      priority(q[p][0]) >= 31 || priority(x) <= priority(q[p][0])
  {
    hide Order;
    forall priority: ObjectId -> nat, x | Ranked(q, priority) && x in Order(q, LEVELS)
      ensures priority(q[p][0]) >= 31 || priority(x) <= priority(q[p][0])
    {
      OrderMembers(q, LEVELS, x);
      var l :| 0 <= l < LEVELS && x in q[l];
      assert q[p][0] in q[p];
    }
  }

  class Thread {
    const id: ObjectId
    var state: ThreadState
    var effectivePriority: nat
    var assignedCpu: nat

    constructor (tid: ObjectId)
      ensures id == tid && state == New && effectivePriority == 0 && assignedCpu == 0
    {
      id, state, effectivePriority, assignedCpu := tid, New, 0, 0;
    }

    predicate CanRun()
      reads this
    {
      state != Dying && state != Dead
    }

    method MakeRunnable() returns (ok: bool)
      modifies this`state
      ensures ok == old(CanRun())
      ensures state == if ok then Runnable else old(state)
    {
      ok := CanRun();
      if ok {
        state := Runnable;
      }
    }

    /** The queue a thread of this priority belongs to. */
    function Level(): (p: nat)
      reads this
      ensures p < LEVELS && p == if effectivePriority > 31 then 31 else effectivePriority
    {
      if effectivePriority < LEVELS - 1 then effectivePriority else LEVELS - 1
    }
  }

  // ---------- the scheduler ----------

  class Scheduler {

    const capacity: nat
    var queues: Queues
    var bitmap: bv64
    var current: Option<ObjectId>
    var count: nat

    /** The thread is queued or current here. */
    ghost predicate Has(id: ObjectId)
      reads this
      requires |queues| == LEVELS
    {
      id in Ready() || current == Some(id)
    }

    /** The runnable threads in the order they will be dispatched. */
    ghost function Ready(): seq<ObjectId>
      reads this
      requires |queues| == LEVELS
    {
      Order(queues, LEVELS)
    }

    /** Bitmap and count agree with the queues, and the queues fit the capacity. */
    ghost predicate Valid()
      reads this
    {
      |queues| == LEVELS && Mapped(queues, bitmap) && count == |Ready()| && count <= capacity
    }

    /** No thread is queued twice, or queued while current. */
    ghost predicate Exclusive()
      reads this
      requires Valid()
    {
      Distinct(Ready()) && (current.Some? ==> current.value !in Ready())
    }

    constructor (size: nat)
      ensures Valid() && Exclusive() && capacity == size && Ready() == [] && current == None
    {
      capacity := size;
      queues := seq(LEVELS, _ => []);
      bitmap, current, count := 0, None, 0;
      new;
      assert forall p: nat :: p < 64 ==> !BitOf(bitmap, p) by {
        ZeroIffNoBits(0);
      }
      OrderEmpty(queues, LEVELS);
    }

    method Contains(id: ObjectId) returns (b: bool)
      requires Valid()
      ensures b <==> id in Ready()
    {
      if count == 0 {
        return false;
      }
      OrderMembers(queues, LEVELS, id);
      var p := 0;
      while p < LEVELS
        invariant 0 <= p <= LEVELS
        invariant forall l :: 0 <= l < p ==> id !in queues[l]
      {
        if id in queues[p] {
          return true;
        }
        p := p + 1;
      }
      b := false;
    }

    /** Put a thread at the back, or the front, of a level. */
    method Push(p: nat, id: ObjectId, front: bool)
      requires Valid() && count < capacity && p < LEVELS
      modifies this`queues, this`bitmap, this`count
      ensures Valid() && count == old(count) + 1
      ensures queues == old(queues)[p := if front then [id] + old(queues)[p] else old(queues)[p] + [id]]
      ensures forall x :: x in Ready() <==> x in old(Ready()) || x == id
      ensures Distinct(old(Ready())) && id !in old(Ready()) ==> Distinct(Ready())
    {
      ghost var q, k := queues, if front then 0 else |queues[p]|;
      ghost var at := Place(q, LEVELS, p, k);
      OrderInsert(q, LEVELS, p, k, id);
      assert Inserted(q[p], k, id) == if front then [id] + q[p] else q[p] + [id];
      InsertMembers(Ready(), at, id);
      MappedUpdate(queues, bitmap, p, if front then [id] + q[p] else q[p] + [id]);
      hide Mapped, Order, Place, WithBit, Inserted;
      queues := queues[p := if front then [id] + queues[p] else queues[p] + [id]];
      bitmap := WithBit(bitmap, p, true);
      count := count + 1;
    }

    /** Take the k-th thread of a level. */
    method Take(p: nat, k: nat) returns (id: ObjectId)
      requires Valid() && p < LEVELS && k < |queues[p]|
      modifies this`queues, this`bitmap, this`count
      ensures Valid() && id == old(queues)[p][k] && count == old(count) - 1
      ensures queues == old(queues)[p := Without(old(queues)[p], k)] && Fewer(old(queues), queues)
      ensures Place(old(queues), LEVELS, p, k) < |old(Ready())|
      ensures Ready() == Without(old(Ready()), Place(old(queues), LEVELS, p, k))
      ensures old(Ready())[Place(old(queues), LEVELS, p, k)] == id
    {
      OrderRemove(queues, LEVELS, p, k);
      TakeFewer(queues, p, k);
      MappedUpdate(queues, bitmap, p, Without(queues[p], k));
      if |queues[p]| > 1 {
        MappedSame(queues, bitmap, p, Without(queues[p], k));
      }
      hide Mapped, Order, Place, WithBit, Without;
      id := queues[p][k];
      queues := queues[p := Without(queues[p], k)];
      if queues[p] == [] {
        bitmap := WithBit(bitmap, p, false);
      }
      count := count - 1;
    }

    /** Queue a thread at the back of its level. */
    method Enqueue(thread: Thread) returns (r: Result<(), SchedulerError>)
      requires Valid()
      modifies this`queues, this`bitmap, this`count, thread`state
      ensures Valid() && (old(Exclusive()) ==> Exclusive())
      ensures var dup := thread.id in old(Ready()) || current == Some(thread.id);
        && (r == Err(DuplicateEntry) <==> dup)
        && (r == Err(QueueFull) <==> !dup && old(count) >= capacity)
        && (r == Err(InvalidState) <==> !dup && old(count) < capacity && old(thread.state) in {Dying, Dead})
        && (r.Ok? <==> !dup && old(count) < capacity && old(thread.state) !in {Dying, Dead})
      ensures r.Err? ==> queues == old(queues) && thread.state == old(thread.state)
      ensures r.Ok? ==> thread.state == Runnable && forall x :: x in Ready() <==> x in old(Ready()) || x == thread.id
      ensures r.Ok? ==> queues == old(queues)[thread.Level() := old(queues)[thread.Level()] + [thread.id]]
      ensures forall priority: ObjectId -> nat :: Ranked(old(queues), priority) && priority(thread.id) == thread.effectivePriority ==>
        Ranked(queues, priority)
    {
      hide Order, Mapped;
      var queued := Contains(thread.id);
      if queued || current == Some(thread.id) {
        return Err(DuplicateEntry);
      }
      if count >= capacity {
        return Err(QueueFull);
      }
      var ok := thread.MakeRunnable();
      if !ok {
        return Err(InvalidState);
      }
      RanksPlus(queues, thread.Level(), false, thread.id, thread.effectivePriority);
      Push(thread.Level(), thread.id, false);
      r := Ok(());
    }

    /** The highest level whose bit is set. */
    method HighestLevel() returns (p: nat)
      requires Valid() && bitmap != 0
      ensures p < LEVELS && queues[p] != [] && forall l :: p < l < LEVELS ==> queues[l] == []
    {
      MappedZero(queues, bitmap);
      p := LEVELS - 1;
      while !BitOf(bitmap, p)
        invariant p < LEVELS
        invariant forall l :: p < l < LEVELS ==> queues[l] == []
        invariant exists l :: 0 <= l <= p && queues[l] != []
        decreases p
      {
        assert queues[p] == [];
        p := p - 1;
      }
    }

    /** Dispatch: the head of the order leaves it. */
    method DequeueNext() returns (r: Option<ObjectId>)
      requires Valid()
      modifies this`queues, this`bitmap, this`count
      ensures Valid() && (old(Exclusive()) ==> Exclusive())
      ensures r.None? <==> old(Ready()) == []
      ensures r.None? ==> queues == old(queues)
      ensures r.Some? ==> old(Ready()) == [r.value] + Ready() && count == old(count) - 1
      ensures Fewer(old(queues), queues)
      ensures r.Some? ==> forall priority: ObjectId -> nat, x :: Ranked(old(queues), priority) && x in old(Ready()) ==>
        priority(r.value) >= 31 || priority(x) <= priority(r.value)
    {
      hide Order, Mapped, Place, Without, Ranked, Fewer;
      FewerSelf(queues);
      MappedZero(queues, bitmap);
      if bitmap == 0 {
        return None;
      }
      var p := HighestLevel();
      OrderHead(queues, LEVELS, p);
      HighestRank(queues, p);
      TakeFewer(queues, p, 0);
      ghost var before := Ready();
      var id := Take(p, 0);
      WithoutHead(before);
      HeadRemoved(id, Ready());
      r := Some(id);
    }

    method NextRunnable() returns (r: Option<ObjectId>)
      requires Valid()
      ensures r == First(Ready())
    {
      MappedZero(queues, bitmap);
      if bitmap == 0 {
        return None;
      }
      var p := HighestLevel();
      OrderHead(queues, LEVELS, p);
      r := Some(queues[p][0]);
    }

    /** Dispatching until nothing is left yields the whole order: every thread once, level by level from the top. */
    method Drain() returns (out: seq<ObjectId>)
      requires Valid()
      modifies this`queues, this`bitmap, this`count
      ensures Valid() && Ready() == [] && out == old(Ready())
    {
      hide Order, Mapped;
      out := [];
      while true
        invariant Valid() && out + Ready() == old(Ready())
        decreases |Ready()|
      {
        var next := DequeueNext();
        if next.None? {
          assert out + [] == out;
          return;
        }
        assert out + ([next.value] + Ready()) == (out + [next.value]) + Ready();
        out := out + [next.value];
      }
    }

    /** The first thread of a level that matches. */
    method FirstMatch(p: nat, affine: ObjectId -> bool) returns (r: Option<nat>)
      requires |queues| == LEVELS && p < LEVELS
      ensures r.Some? ==> r.value < |queues[p]| && affine(queues[p][r.value])
      ensures forall k :: 0 <= k < (if r.Some? then r.value else |queues[p]|) ==> !affine(queues[p][k])
    {
      var k := 0;
      while k < |queues[p]|
        invariant 0 <= k <= |queues[p]|
        invariant forall l :: 0 <= l < k ==> !affine(queues[p][l])
      {
        if affine(queues[p][k]) {
          return Some(k);
        }
        k := k + 1;
      }
      r := None;
    }

    /** Steal a matching thread from the lowest level that has one; it fails only if no queued thread matches. */
    method PopStealableWork(affine: ObjectId -> bool) returns (r: Option<ObjectId>)
      requires Valid()
      modifies this`queues, this`bitmap, this`count
      ensures Valid() && (old(Exclusive()) ==> Exclusive())
      ensures r.None? <==> forall x :: x in old(Ready()) ==> !affine(x)
      ensures r.None? ==> queues == old(queues)
      ensures r.Some? ==> affine(r.value) && r.value in old(Ready())
      ensures r.Some? ==> exists p: nat, k: nat :: FirstAt(old(queues), p, k, affine) && r.value == old(queues)[p][k] &&
                                                   queues == old(queues)[p := Without(old(queues)[p], k)]
      ensures r.Some? && old(Exclusive()) ==> forall x :: x in Ready() <==> x in old(Ready()) && x != r.value
      ensures Fewer(old(queues), queues)
    {
      NoneReady(queues, bitmap, affine);
      if bitmap == 0 {
        return None;
      }
      ghost var before := Ready();
      var p := 0;
      while p < LEVELS
        invariant 0 <= p <= LEVELS && Valid() && queues == old(queues)
        invariant NoMatchBelow(queues, p, affine)
      {
        if BitOf(bitmap, p) {
          var k := FirstMatch(p, affine);
          if k.Some? {
            hide Order, Mapped, Place;
            ghost var at := Place(queues, LEVELS, p, k.value);
            assert FirstAt(queues, p, k.value, affine);
            var id := Take(p, k.value);
            WithoutMembers(before, at);
            return Some(id);
          }
        }
        p := p + 1;
      }
      r := None;
    }

    /** Take a thread off this scheduler, running or queued. */
    method RemoveThread(id: ObjectId) returns (removed: bool)
      requires Valid()
      modifies this`queues, this`bitmap, this`count, this`current
      ensures Valid() && (old(Exclusive()) ==> Exclusive())
      ensures removed <==> old(current) == Some(id) || id in old(Ready())
      ensures !removed ==> queues == old(queues)
      ensures old(current) == Some(id) ==> current == None && queues == old(queues)
      ensures old(current) != Some(id) ==> current == old(current)
      ensures removed && old(current) != Some(id) ==> exists at :: 0 <= at < |old(Ready())| && old(Ready())[at] == id &&
                                                              Ready() == Without(old(Ready()), at)
      ensures old(Exclusive()) ==> current != Some(id) && forall x :: x in Ready() <==> x in old(Ready()) && x != id
      ensures Fewer(old(queues), queues)
    {
      if current == Some(id) {
        current := None;
        return true;
      }
      ghost var before := Ready();
      OrderMembers(queues, LEVELS, id);
      var p := 0;
      while p < LEVELS
        invariant 0 <= p <= LEVELS && Valid() && queues == old(queues) && current == old(current)
        invariant forall l :: 0 <= l < p ==> id !in queues[l]
      {
        if BitOf(bitmap, p) {
          var k := FirstMatch(p, x => x == id);
          if k.Some? {
            hide Order, Mapped, Place;
            ghost var at := Place(queues, LEVELS, p, k.value);
            var _ := Take(p, k.value);
            WithoutMembers(before, at);
            return true;
          }
        }
        p := p + 1;
      }
      removed := false;
    }

    /** A cooperative yield: the next thread becomes current and the yielding one queues at the back of its level. */
    method CommitYield(yielding: ObjectId, priority: nat, next: ObjectId) returns (r: Result<(), SchedulerError>)
      requires Valid()
      modifies this`queues, this`bitmap, this`count, this`current
      ensures Valid() && (old(Exclusive()) ==> Exclusive())
      ensures r == Err(NoCurrentThread) <==> old(current) != Some(yielding)
      ensures r == Err(NoRunnableThread) <==>
        old(current) == Some(yielding) && (yielding == next || First(old(Ready())) != Some(next))
      ensures r.Err? ==> r.error != QueueInvariant && queues == old(queues) && current == old(current)
      ensures r.Ok? ==> current == Some(next) && count == old(count)
      ensures r.Ok? ==> var p := if priority < LEVELS - 1 then priority else LEVELS - 1;
        exists mid: Queues :: |mid| == LEVELS && Fewer(old(queues), mid) && old(Ready()) == [next] + Order(mid, LEVELS) && queues == mid[p := mid[p] + [yielding]]
      ensures r.Ok? && old(Exclusive()) ==> forall x :: x in Ready() <==> (x in old(Ready()) && x != next) || x == yielding
    {
      hide Order, Mapped;
      if current != Some(yielding) {
        return Err(NoCurrentThread);
      }
      var highest := NextRunnable();
      if highest.None? || yielding == next || highest.value != next {
        return Err(NoRunnableThread);
      }
      ghost var before := Ready();
      var dequeued := DequeueNext();
      HeadRemoved(next, Ready());
      assert before == [next] + Ready();
      var p := if priority < LEVELS - 1 then priority else LEVELS - 1;
      ghost var mid := queues;
      assert |mid| == LEVELS && Fewer(old(queues), mid) && before == [next] + Order(mid, LEVELS);
      Push(p, yielding, false);
      current := Some(next);
      r := Ok(());
    }

    /** Make a thread current. Exclusivity needs the thread not to be queued. */
    method SetCurrentThread(thread: Option<ObjectId>)
      requires Valid()
      modifies this`current
      ensures Valid() && current == thread
      ensures old(Exclusive()) && (thread.Some? ==> thread.value !in Ready()) ==> Exclusive()
    {
      current := thread;
    }

    /** Hand the processor straight to a receiver. */
    method TryDirectSwitch(from: ObjectId, to: ObjectId) returns (ok: bool)
      requires Valid()
      modifies this`current
      ensures Valid() && (ok <==> old(current) == Some(from))
      ensures current == if ok then Some(to) else old(current)
      ensures old(Exclusive()) && to !in Ready() ==> Exclusive()
    {
      ok := current == Some(from);
      if ok {
        current := Some(to);
      }
    }

    /** Block the running thread. */
    method BlockCurrent(thread: Thread) returns (r: Result<ObjectId, SchedulerError>)
      requires Valid()
      modifies this`current, thread`state
      ensures Valid() && (old(Exclusive()) ==> Exclusive())
      ensures r.Ok? <==> old(current) == Some(thread.id) && old(thread.state) == Running
      ensures r.Ok? ==> current == None && thread.state == Blocked && r.value == thread.id
      ensures r.Err? ==> current == old(current) && thread.state == old(thread.state)
      ensures r.Err? ==> r.error == if old(current) != Some(thread.id) then NoCurrentThread else InvalidState
    {
      if current != Some(thread.id) {
        return Err(NoCurrentThread);
      }
      if thread.state != Running {
        return Err(InvalidState);
      }
      thread.state := Blocked;
      current := None;
      r := Ok(thread.id);
    }

    /** Wake a blocked thread to the front of its level; running, queued and dead threads are left alone. */
    method ApplyWake(thread: Thread) returns (r: Result<(), SchedulerError>)
      requires Valid()
      modifies this`queues, this`bitmap, this`count, thread`state
      ensures Valid()
      ensures r == Err(QueueFull) <==> old(count) >= capacity
      ensures r == Err(InvalidState) <==> old(count) < capacity && (old(thread.state) == New || old(thread.state) == Dying)
      ensures r.Ok? && old(thread.state) == Blocked ==> thread.state == Runnable
      ensures r.Ok? && old(thread.state) == Blocked ==>
        queues == old(queues)[thread.Level() := [thread.id] + old(queues)[thread.Level()]]
      ensures forall priority: ObjectId -> nat :: Ranked(old(queues), priority) && priority(thread.id) == thread.effectivePriority ==>
        Ranked(queues, priority)
      ensures r.Err? || old(thread.state) != Blocked ==> queues == old(queues) && thread.state == old(thread.state)
      ensures old(Exclusive()) && thread.id !in old(Ready()) && current != Some(thread.id) ==> Exclusive()
    {
      hide Order, Mapped;
      if count >= capacity {
        return Err(QueueFull);
      }
      if thread.state == Blocked {
        thread.state := Runnable;
        RanksPlus(queues, thread.Level(), true, thread.id, thread.effectivePriority);
        Push(thread.Level(), thread.id, true);
        r := Ok(());
      } else if thread.state == New || thread.state == Dying {
        r := Err(InvalidState);
      } else {
        r := Ok(());
      }
    }
  }

  /** No thread queued below level p matches. */
  ghost predicate NoMatchBelow(q: Queues, p: nat, affine: ObjectId -> bool)
    requires p <= |q|
  {
    forall l, x :: 0 <= l < p && x in q[l] ==> !affine(x)
  }

  /** The k-th thread of level p is the first match, from the lowest level up and from the front of each queue. */
  ghost predicate FirstAt(q: Queues, p: nat, k: nat, affine: ObjectId -> bool) {
    && p < |q| && k < |q[p]| && NoMatchBelow(q, p, affine) && affine(q[p][k])
    && forall j :: 0 <= j < k ==> !affine(q[p][j])
  }

  lemma NoneReady(q: Queues, bitmap: bv64, affine: ObjectId -> bool)
    requires |q| == LEVELS && Mapped(q, bitmap)
    ensures bitmap == 0 ==> forall x :: x in Order(q, LEVELS) ==> !affine(x)
    ensures NoMatchBelow(q, LEVELS, affine) <==> (forall x :: x in Order(q, LEVELS) ==> !affine(x))
    ensures forall p, x :: 0 <= p < LEVELS && x in q[p] ==> x in Order(q, LEVELS)
  {
    MappedZero(q, bitmap);
    hide Mapped, Order;
    forall x ensures x in Order(q, LEVELS) <==> exists p :: 0 <= p < LEVELS && x in q[p] {
      OrderMembers(q, LEVELS, x);
    }
  }

  lemma WithoutMembers(s: seq<ObjectId>, at: nat)
    requires at < |s|
    ensures Distinct(s) ==> Distinct(Without(s, at)) && forall x :: x in Without(s, at) <==> x in s && x != s[at]
    ensures forall x :: x in Without(s, at) ==> x in s
  {
    if Distinct(s) {
      WithoutElements(s, at);
    }
  }

  lemma InsertMembers(s: seq<ObjectId>, at: nat, x: ObjectId)
    requires at <= |s|
    ensures |Inserted(s, at, x)| == |s| + 1
    ensures forall y :: y in Inserted(s, at, x) <==> y in s || y == x
    ensures Distinct(s) && x !in s ==> Distinct(Inserted(s, at, x))
  {
    InsertElements(s, at, x);
    hide Inserted;
    if Distinct(s) && x !in s {
      InsertDistinct(s, at, x);
    }
  }

  lemma InsertElements(s: seq<ObjectId>, at: nat, x: ObjectId)
    requires at <= |s|
    ensures |Inserted(s, at, x)| == |s| + 1
    ensures forall y :: y in Inserted(s, at, x) <==> y in s || y == x
  {
    assert s == s[..at] + s[at..];
  }

  lemma InsertDistinct(s: seq<ObjectId>, at: nat, x: ObjectId)
    requires at <= |s| && Distinct(s) && x !in s
    ensures Distinct(Inserted(s, at, x))
  {
    var r := Inserted(s, at, x);
    forall i, j | 0 <= i < j < |r| ensures r[i] != r[j] {
      InsertedAt(s, at, x, i);
      InsertedAt(s, at, x, j);
    }
  }

  lemma InsertedAt(s: seq<ObjectId>, at: nat, x: ObjectId, i: nat)
    requires at <= |s| && i <= |s|
    ensures |Inserted(s, at, x)| == |s| + 1
    ensures Inserted(s, at, x)[i] == if i < at then s[i] else if i == at then x else s[i - 1]
  {
  }

  lemma WithoutHead(s: seq<ObjectId>)
    requires s != []
    ensures s == [s[0]] + Without(s, 0)
  {
  }

  lemma HeadRemoved(id: ObjectId, rest: seq<ObjectId>)
    ensures Distinct([id] + rest) ==> Distinct(rest) && id !in rest
    ensures forall x :: x in rest ==> x in [id] + rest
  {
    var s := [id] + rest;
    if Distinct(s) {
      assert forall i :: 0 <= i < |rest| ==> rest[i] == s[i + 1];
      assert s[0] == id;
    }
  }

  // ---------- moving threads between processors ----------

  datatype DomainError = SameCpuMigration | InThread | InScheduler(error: SchedulerError)

  /**
    Move a thread to another processor. It succeeds exactly under the conditions below, and then the thread
    is queued on the destination alone. A migration that fails after its first check has already taken the
    thread off the source: it is then on the destination exactly if it was there before, and otherwise on
    neither scheduler.
  */
  method MigrateThread(thread: Thread, src: Scheduler, dst: Scheduler, srcCpu: nat, dstCpu: nat)
    returns (r: Result<(), DomainError>)
    requires src != dst && src.Valid() && dst.Valid()
    modifies thread`state, thread`assignedCpu
    modifies src`queues, src`bitmap, src`count, src`current, dst`queues, dst`bitmap, dst`count
    ensures src.Valid() && dst.Valid()
    ensures (old(src.Exclusive()) ==> src.Exclusive()) && (old(dst.Exclusive()) ==> dst.Exclusive())
    ensures r.Ok? <==>
      && srcCpu != dstCpu && old(thread.state) !in {Running, Dying, Dead}
      && thread.id !in old(dst.Ready()) && dst.current != Some(thread.id) && old(dst.count) < dst.capacity
    ensures r.Ok? ==> thread.state == Runnable && thread.assignedCpu == dstCpu && thread.id in dst.Ready()
    ensures r.Ok? ==> forall x :: x in dst.Ready() <==> x in old(dst.Ready()) || x == thread.id
    ensures r.Err? ==> dst.queues == old(dst.queues) && thread.state == old(thread.state)
    ensures r == Err(SameCpuMigration) <==> srcCpu == dstCpu
    ensures r == Err(InThread) <==> srcCpu != dstCpu && old(thread.state) == Running
    ensures r.Err? && srcCpu != dstCpu && old(thread.state) != Running ==>
      r.error == InScheduler(if thread.id in old(dst.Ready()) || dst.current == Some(thread.id) then DuplicateEntry
                             else if old(dst.count) >= dst.capacity then QueueFull
                             else InvalidState)
    ensures thread.assignedCpu == if srcCpu == dstCpu || old(thread.state) == Running then old(thread.assignedCpu) else dstCpu
    ensures srcCpu == dstCpu ==> src.queues == old(src.queues) && src.current == old(src.current)
    ensures srcCpu != dstCpu && old(src.Exclusive()) ==> !src.Has(thread.id)
    ensures srcCpu != dstCpu ==> (dst.Has(thread.id) <==> r.Ok? || old(dst.Has(thread.id)))
    ensures old(src.Exclusive()) && old(src.Has(thread.id) || dst.Has(thread.id)) ==>
      (src.Has(thread.id) || dst.Has(thread.id) <==> srcCpu == dstCpu || r.Ok? || old(dst.Has(thread.id)))
    ensures srcCpu != dstCpu && old(src.Exclusive()) ==>
      forall x :: x != thread.id ==> (x in src.Ready() <==> x in old(src.Ready()))
  {
    hide Order, Mapped;
    if srcCpu == dstCpu {
      return Err(SameCpuMigration);
    }
    var _ := src.RemoveThread(thread.id);
    if thread.state == Running {
      return Err(InThread);
    }
    thread.assignedCpu := dstCpu;
    var queued := dst.Enqueue(thread);
    if queued.Err? {
      return Err(InScheduler(queued.error));
    }
    r := Ok(());
  }

  /** A queued thread is sent to a processor whose queue is full: afterwards it is queued nowhere. */
  method LostMigration() returns (thread: Thread, src: Scheduler, dst: Scheduler, r: Result<(), DomainError>)
    ensures r == Err(InScheduler(QueueFull)) && thread.state == Runnable && thread.assignedCpu == 1
    ensures src.Valid() && dst.Valid() && !src.Has(thread.id) && !dst.Has(thread.id)
  {
    hide Order, Mapped;
    thread := new Thread(ObjectId(1, 1));
    var other := new Thread(ObjectId(2, 1));
    src := new Scheduler(1);
    dst := new Scheduler(1);
    var here := src.Enqueue(thread);
    var there := dst.Enqueue(other);
    assert here.Ok? && there.Ok? && thread.id in src.Ready();
    r := MigrateThread(thread, src, dst, 0, 1);
  }

  /** Steal work for another processor; `affinity` says which processors a known thread may use. */
  method AttemptWorkSteal(src: Scheduler, dst: Scheduler, dstCpu: nat, affinity: ObjectId -> Option<set<nat>>)
    returns (r: Option<ObjectId>)
    requires src != dst && src.Valid()
    modifies src`queues, src`bitmap, src`count
    ensures src.Valid() && (old(src.Exclusive()) ==> src.Exclusive())
    ensures r.None? <==> forall x :: x in old(src.Ready()) ==> affinity(x).None? || dstCpu !in affinity(x).value
    ensures r.Some? ==> r.value in old(src.Ready()) && affinity(r.value).Some? && dstCpu in affinity(r.value).value
    ensures Fewer(old(src.queues), src.queues)
    ensures r.Some? && old(src.Exclusive()) ==> forall x :: x in src.Ready() <==> x in old(src.Ready()) && x != r.value
  {
    hide Order, Mapped;
    r := src.PopStealableWork(x => MayRun(affinity, x, dstCpu));
  }

  predicate MayRun(affinity: ObjectId -> Option<set<nat>>, id: ObjectId, cpu: nat) {
    affinity(id).Some? && cpu in affinity(id).value
  }
}
