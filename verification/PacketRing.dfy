/**
  The single-producer single-consumer packet ring. Each atomic load and store is one step, so a run is
  any interleaving of one producer's pushes with one consumer's pops. The two shared indices wrap at
  2^32. The sequences of slots handed to each side, and the counts behind the loaded indices, are history.
*/
module PacketRing {

  import opened Arithmetic
  import opened Common
  import opened Words

  // ---------- states and steps ----------

  /** Where one side stands in its call. `seen` is the count behind the other side's index when it was loaded. */
  datatype Progress =
    | Idle
    | LoadedOwn(own: nat)
    | LoadedBoth(own: nat, other: nat, seen: nat)

  datatype Ring = Ring(
    capacity: nat,
    producerIndex: nat,
    consumerIndex: nat,
    producer: Progress,
    consumer: Progress,
    pushed: seq<nat>,
    popped: seq<nat>)

  datatype Action = PushLoadOwn | PushLoadOther | PushFinish | PopLoadOwn | PopLoadOther | PopFinish

  /** A fresh ring; the source refuses a capacity that is not a power of two. */
  function New(capacity: nat): Ring {
    Ring(capacity, 0, 0, Idle, Idle, [], [])
  }

  function WrappingSub(a: nat, b: nat): nat {
    (a - b) % U32_SPAN
  }

  function WrappingInc(a: nat): nat {
    (a + 1) % U32_SPAN
  }

  predicate Enabled(s: Ring, a: Action) {
    match a
    case PushLoadOwn => s.producer.Idle?
    case PushLoadOther => s.producer.LoadedOwn?
    case PushFinish => s.producer.LoadedBoth? && s.capacity > 0
    case PopLoadOwn => s.consumer.Idle?
    case PopLoadOther => s.consumer.LoadedOwn?
    case PopFinish => s.consumer.LoadedBoth? && s.capacity > 0
  }

  /** The push that has loaded both indices is turned away. */
  predicate PushRefused(s: Ring)
    requires s.producer.LoadedBoth?
  {
    WrappingSub(s.producer.own, s.producer.other) >= s.capacity
  }

  /** The pop that has loaded both indices finds nothing. */
  predicate PopEmpty(s: Ring)
    requires s.consumer.LoadedBoth?
  {
    s.consumer.own == s.consumer.other
  }

  function Next(s: Ring, a: Action): Ring
    requires Enabled(s, a)
  {
    match a
    case PushLoadOwn => s.(producer := LoadedOwn(s.producerIndex))
    case PushLoadOther => s.(producer := LoadedBoth(s.producer.own, s.consumerIndex, |s.popped|))
    case PushFinish =>
      if PushRefused(s) then s.(producer := Idle)
      else s.(producer := Idle, producerIndex := WrappingInc(s.producer.own),
              pushed := s.pushed + [And(s.producer.own, s.capacity - 1)])
    case PopLoadOwn => s.(consumer := LoadedOwn(s.consumerIndex))
    case PopLoadOther => s.(consumer := LoadedBoth(s.consumer.own, s.producerIndex, |s.pushed|))
    case PopFinish =>
      if PopEmpty(s) then s.(consumer := Idle)
      else s.(consumer := Idle, consumerIndex := WrappingInc(s.consumer.own),
              popped := s.popped + [And(s.consumer.own, s.capacity - 1)])
  }

  predicate IsRun(run: seq<Ring>, actions: seq<Action>) {
    && |run| == |actions| + 1
    && PowerOfTwo(run[0].capacity) && run[0].capacity < U32_SPAN && run[0] == New(run[0].capacity)
    && forall i :: 0 <= i < |actions| ==> Enabled(run[i], actions[i]) && run[i + 1] == Next(run[i], actions[i])
  }

  // ---------- the invariant ----------

  ghost predicate Cyclic(slots: seq<nat>, capacity: nat)
    requires capacity > 0
  {
    forall k :: 0 <= k < |slots| ==> slots[k] == k % capacity
  }

  predicate OwnLoaded(p: Progress, index: nat) {
    !p.Idle? ==> p.own == index
  }

  ghost predicate Invariant(s: Ring) {
    && s.capacity > 0 && PowerOfTwo(s.capacity) && s.capacity < U32_SPAN
    && |s.popped| <= |s.pushed| <= |s.popped| + s.capacity
    && s.producerIndex == |s.pushed| % U32_SPAN
    && s.consumerIndex == |s.popped| % U32_SPAN
    && Cyclic(s.pushed, s.capacity) && Cyclic(s.popped, s.capacity)
    && OwnLoaded(s.producer, s.producerIndex) && OwnLoaded(s.consumer, s.consumerIndex)
    && (s.producer.LoadedBoth? ==>
          s.producer.other == s.producer.seen % U32_SPAN &&
          s.producer.seen <= |s.popped| && |s.pushed| <= s.producer.seen + s.capacity)
    && (s.consumer.LoadedBoth? ==>
          s.consumer.other == s.consumer.seen % U32_SPAN &&
          |s.popped| <= s.consumer.seen <= |s.pushed|)
  }

  /** Subtraction of wrapped counts recovers their difference while it is below 2^32. */
  lemma WrappedDifference(a: nat, b: nat)
    requires b <= a < b + U32_SPAN
    ensures WrappingSub(a % U32_SPAN, b % U32_SPAN) == a - b
  {
    var q := a / U32_SPAN - b / U32_SPAN;
    Remainder(a % U32_SPAN - b % U32_SPAN, -q, a - b, U32_SPAN);
  }

  lemma WrappedIncrement(a: nat)
    ensures WrappingInc(a % U32_SPAN) == (a + 1) % U32_SPAN
  {
    Shift(a % U32_SPAN + 1, a / U32_SPAN, U32_SPAN);
  }

  lemma SlotOfCount(count: nat, capacity: nat)
    requires capacity > 0 && PowerOfTwo(capacity) && capacity < U32_SPAN
    ensures And(count % U32_SPAN, capacity - 1) == count % capacity
  {
    hide PowerOfTwo, And;
    MaskIsRemainder(count % U32_SPAN, capacity);
    SpanIsPower();
    PowerDivides(capacity, U32_SPAN);
    NestedRemainder(count, U32_SPAN, capacity);
  }

  lemma NestedRemainder(count: nat, span: nat, capacity: nat)
    requires capacity > 0 && span > 0 && span % capacity == 0
    ensures count % span % capacity == count % capacity
  {
    var k, q := span / capacity, count / span;
    assert span * q == capacity * (k * q) by {
      assert span == capacity * k;
    }
    Shift(count % span, k * q, capacity);
  }

  lemma SpanIsPower()
    ensures PowerOfTwo(U32_SPAN)
  {
    Sixteenfold(1);
    Sixteenfold(0x10);
    Sixteenfold(0x100);
    Sixteenfold(0x1000);
    Sixteenfold(0x1_0000);
    Sixteenfold(0x10_0000);
    Sixteenfold(0x100_0000);
    Sixteenfold(0x1000_0000);
    hide PowerOfTwo;
  }

  /** A push is refused exactly when the ring was full as the consumer's index was loaded. */
  lemma RefusedIffFull(s: Ring)
    requires Invariant(s) && s.producer.LoadedBoth?
    ensures PushRefused(s) <==> |s.pushed| - s.producer.seen == s.capacity
  {
    WrappedDifference(|s.pushed|, s.producer.seen);
  }

  /** A pop finds nothing exactly when the ring was empty as the producer's index was loaded. */
  lemma EmptyIffDrained(s: Ring)
    requires Invariant(s) && s.consumer.LoadedBoth?
    ensures PopEmpty(s) <==> s.consumer.seen == |s.popped|
  {
    WrappedDifference(s.consumer.seen, |s.popped|);
  }

  lemma StepKeeps(s: Ring, a: Action)
    requires Invariant(s) && Enabled(s, a)
    ensures Invariant(Next(s, a))
  {
    hide And, PowerOfTwo;
    match a {
      case PushFinish =>
        RefusedIffFull(s);
        WrappedIncrement(|s.pushed|);
        SlotOfCount(|s.pushed|, s.capacity);
      case PopFinish =>
        EmptyIffDrained(s);
        WrappedIncrement(|s.popped|);
        SlotOfCount(|s.popped|, s.capacity);
      case _ =>
    }
  }

  lemma {:induction false} RunKeeps(run: seq<Ring>, actions: seq<Action>, i: nat)
    requires IsRun(run, actions) && i < |run|
    ensures Invariant(run[i])
  {
    if i > 0 {
      RunKeeps(run, actions, i - 1);
      assert run[i] == Next(run[i - 1], actions[i - 1]);
      StepKeeps(run[i - 1], actions[i - 1]);
    }
  }

  // ---------- what every run gives ----------

  /**
    In every state of every interleaving the slots popped so far are a prefix of the slots pushed so far,
    at most a capacity's worth is outstanding, and outstanding slots are distinct and in range.
  */
  lemma FirstInFirstOut(run: seq<Ring>, actions: seq<Action>, i: nat)
    requires IsRun(run, actions) && i < |run|
    ensures var s := run[i];
      && s.popped <= s.pushed
      && |s.pushed| - |s.popped| <= s.capacity
      && (forall k :: 0 <= k < |s.pushed| ==> s.pushed[k] < s.capacity)
      && (forall k, l :: |s.popped| <= k < l < |s.pushed| ==> s.pushed[k] != s.pushed[l])
  {
    RunKeeps(run, actions, i);
    var s := run[i];
    forall k, l | |s.popped| <= k < l < |s.pushed| ensures s.pushed[k] != s.pushed[l] {
      SlotsApart(k, l, s.capacity);
    }
  }

  // ---------- the length as others see it ----------

  /** The value `len` computes from a producer index loaded in s and a consumer index loaded in t. */
  function ObservedLength(s: Ring, t: Ring): nat {
    WrappingSub(s.producerIndex, t.consumerIndex)
  }

  /** Counts never go down along a run. */
  lemma {:induction false} CountsGrow(run: seq<Ring>, actions: seq<Action>, i: nat, j: nat)
    requires IsRun(run, actions) && i <= j < |run|
    ensures |run[i].pushed| <= |run[j].pushed| && |run[i].popped| <= |run[j].popped|
    ensures run[i].capacity == run[j].capacity
    decreases j
  {
    if i < j {
      CountsGrow(run, actions, i, j - 1);
      assert run[j] == Next(run[j - 1], actions[j - 1]);
    }
  }

  /**
    An observer that is neither side may read a length beyond the capacity: exactly when the consumer has
    passed the producer index it loaded first (short of 2^32 pops in between).
  */
  lemma ObservedLengthExact(run: seq<Ring>, actions: seq<Action>, i: nat, j: nat)
    requires IsRun(run, actions) && i <= j < |run|
    requires |run[j].popped| - |run[i].popped| < U32_SPAN - run[i].capacity
    ensures ObservedLength(run[i], run[j]) <= run[i].capacity <==> |run[j].popped| <= |run[i].pushed|
    ensures |run[j].popped| <= |run[i].pushed| ==>
      ObservedLength(run[i], run[j]) == |run[i].pushed| - |run[j].popped|
  {
    RunKeeps(run, actions, i);
    RunKeeps(run, actions, j);
    CountsGrow(run, actions, i, j);
    var p, c := |run[i].pushed|, |run[j].popped|;
    if c <= p {
      WrappedDifference(p, c);
    } else {
      var q := p / U32_SPAN - c / U32_SPAN;
      Remainder(p % U32_SPAN - c % U32_SPAN, -q - 1, U32_SPAN + p - c, U32_SPAN);
    }
  }

  /** Either side itself, not moving its own index meanwhile, always reads a true length. */
  lemma SidesReadLength(run: seq<Ring>, actions: seq<Action>, i: nat, j: nat)
    requires IsRun(run, actions) && i <= j < |run|
    requires |run[i].pushed| == |run[j].pushed| || |run[i].popped| == |run[j].popped|
    ensures ObservedLength(run[i], run[j]) == |run[i].pushed| - |run[j].popped| <= run[i].capacity
  {
    RunKeeps(run, actions, i);
    RunKeeps(run, actions, j);
    CountsGrow(run, actions, i, j);
    WrappedDifference(|run[i].pushed|, |run[j].popped|);
  }

  /** The run on a ring of one slot in which one push and one pop fall between the two loads of an observer. */
  lemma ObserverMisreads(run: seq<Ring>)
    requires |run| == 7
    requires run[0] == New(1) && run[1] == Next(run[0], PushLoadOwn) && run[2] == run[1].(producer := LoadedBoth(0, 0, 0))
    requires run[3] == run[2].(producer := Idle, producerIndex := 1, pushed := [0])
    requires run[4] == run[3].(consumer := LoadedOwn(0)) && run[5] == run[4].(consumer := LoadedBoth(0, 1, 1))
    requires run[6] == run[5].(consumer := Idle, consumerIndex := 1, popped := [0])
    ensures IsRun(run, [PushLoadOwn, PushLoadOther, PushFinish, PopLoadOwn, PopLoadOther, PopFinish])
    ensures ObservedLength(run[0], run[6]) == U32_SPAN - 1 > run[0].capacity
  {
    var actions := [PushLoadOwn, PushLoadOther, PushFinish, PopLoadOwn, PopLoadOther, PopFinish];
    assert run[2] == Next(run[1], PushLoadOther) && run[3] == Next(run[2], PushFinish);
    assert run[4] == Next(run[3], PopLoadOwn) && run[5] == Next(run[4], PopLoadOther);
    assert run[6] == Next(run[5], PopFinish);
    forall i | 0 <= i < 6 ensures Enabled(run[i], actions[i]) && run[i + 1] == Next(run[i], actions[i]) {
    }
  }
}
