/** Per-domain capability spaces: generational slots that hold node ids behind opaque handles. */
module CapabilitySpaces {
  import opened Common
  import opened Abi
  import opened Generations
  import opened Resources
  import opened NodeTable

  datatype CapabilityError =
    | DomainMismatch | SpaceFull | NodeCapacity | InvalidHandle | StaleHandle | Revoked | ObjectDestroyed
    | TypeMismatch | RightsDenied | RightsEscalation | Resource(error: ResourceError) | AccountingInvariant

  datatype Slot = Slot(generation: nat, node: Option<NodeId>, nextFree: Option<nat>)

  ghost predicate SlotFreeAt(slots: seq<Slot>, free: seq<nat>, j: nat)
    requires j < |free|
  {
    free[j] < |slots| && slots[free[j]].node.None? && slots[free[j]].nextFree == After(free, j)
  }

  ghost predicate SlotsThreaded(slots: seq<Slot>, head: Option<nat>, free: seq<nat>) {
    && head == First(free)
    && Distinct(free)
    && (forall j :: 0 <= j < |free| ==> SlotFreeAt(slots, free, j))
    && (forall i :: i in free ==> i < |slots| && slots[i].node.None?)
    && (forall i :: 0 <= i < |slots| && slots[i].node.None? ==> i in free)
  }

  ghost predicate SlotsAged(slots: seq<Slot>, epochs: seq<nat>) {
    |epochs| == |slots| && forall i :: 0 <= i < |slots| ==> slots[i].generation == GenerationAt(epochs[i])
  }

  /** The node a handle leads to, if its slot is occupied and carries the handle's generation. */
  function Find(slots: seq<Slot>, handle: Handle): Option<NodeId> {
    if handle.slot < |slots| && slots[handle.slot].generation == handle.generation then slots[handle.slot].node
    else None
  }

  lemma TakeThreaded(slots: seq<Slot>, head: Option<nat>, free: seq<nat>, slots': seq<Slot>)
    requires SlotsThreaded(slots, head, free) && free != []
    requires free[0] < |slots| && |slots'| == |slots| && slots'[free[0]].node.Some?
    requires forall i :: 0 <= i < |slots| && i != free[0] ==> slots'[i] == slots[i]
    ensures SlotsThreaded(slots', After(free, 0), free[1..])
  {
    var rest := free[1..];
    forall j | 0 <= j < |rest|
      ensures SlotFreeAt(slots', rest, j)
    {
      assert SlotFreeAt(slots, free, j + 1);
    }
    forall i | 0 <= i < |slots'| && slots'[i].node.None?
      ensures i in rest
    {
      assert i in free && i != free[0];
    }
    forall i | i in rest
      ensures i < |slots'| && slots'[i].node.None?
    {
      assert i in free;
    }
  }

  lemma GiveBackThreaded(slots: seq<Slot>, head: Option<nat>, free: seq<nat>, at: nat, slots': seq<Slot>)
    requires SlotsThreaded(slots, head, free) && at < |slots| && slots[at].node.Some?
    requires |slots'| == |slots| && slots'[at].node.None? && slots'[at].nextFree == head
    requires forall i :: 0 <= i < |slots| && i != at ==> slots'[i] == slots[i]
    ensures SlotsThreaded(slots', Some(at), [at] + free)
  {
    var free' := [at] + free;
    DistinctCons(at, free);
    forall j | 0 <= j < |free'|
      ensures SlotFreeAt(slots', free', j)
    {
      if j > 0 {
        assert SlotFreeAt(slots, free, j - 1);
      }
    }
  }

  class CapabilitySpace {
    const domain: ObjectId
    const capacity: nat
    var slots: seq<Slot>
    var freeHead: Option<nat>
    ghost var free: seq<nat>
    ghost var epochs: seq<nat>

    ghost predicate Valid()
      reads this
    {
      && |slots| <= capacity <= U32_MAX
      && SlotsThreaded(slots, freeHead, free)
      && SlotsAged(slots, epochs)
    }

    constructor (domain: ObjectId, capacity: nat)
      requires capacity <= U32_MAX
      ensures Valid() && slots == [] && epochs == [] && this.domain == domain && this.capacity == capacity
    {
      this.domain, this.capacity := domain, capacity;
      slots, freeHead, free, epochs := [], None, [], [];
    }

    predicate HasCapacity()
      reads this
    {
      freeHead.Some? || |slots| < capacity
    }

    /** How many more capabilities fit. */
    ghost function Room(): int
      reads this
    {
      |free| + capacity - |slots|
    }

    lemma CapacityIsRoom()
      requires Valid()
      ensures HasCapacity() <==> Room() > 0
    {
    }

    method Insert(node: NodeId) returns (r: Result<Handle, CapabilityError>)
      requires Valid()
      modifies this
      ensures Valid()
      ensures r.Ok? <==> old(HasCapacity())
      ensures r.Err? ==> r.error == SpaceFull && slots == old(slots) && epochs == old(epochs)
      ensures r.Ok? ==>
                && r.value.slot < |slots| && r.value.generation == slots[r.value.slot].generation
                && (r.value.slot < |old(slots)| ==> old(slots)[r.value.slot].node.None?)
                && (forall h :: Find(slots, h) == if h == r.value then Some(node) else Find(old(slots), h))
                && r.value.slot <= |old(slots)| && |slots| == (if r.value.slot < |old(slots)| then |old(slots)| else |old(slots)| + 1)
                && (forall i :: 0 <= i < |slots| && i != r.value.slot ==> i < |old(slots)| && slots[i] == old(slots)[i])
                && slots[r.value.slot].node == Some(node)
                && epochs == if r.value.slot < |old(slots)| then old(epochs) else old(epochs) + [0]
      ensures Room() == old(Room()) - (if r.Ok? then 1 else 0)
    {
      if freeHead.Some? {
        var index := freeHead.value;
        assert SlotFreeAt(slots, free, 0);
        freeHead := slots[index].nextFree;
        slots := slots[index := Slot(slots[index].generation, Some(node), None)];
        TakeThreaded(old(slots), old(freeHead), free, slots);
        free := free[1..];
        return Ok(Handle(index, slots[index].generation));
      }
      if |slots| == capacity {
        return Err(SpaceFull);
      }
      var index := |slots|;
      slots := slots + [Slot(1, Some(node), None)];
      epochs := epochs + [0];
      return Ok(Handle(index, 1));
    }

    method Remove(handle: Handle) returns (r: Result<NodeId, CapabilityError>)
      requires Valid()
      modifies this
      ensures Valid()
      ensures r == old(NodeFor(handle))
      ensures r.Err? ==> slots == old(slots) && epochs == old(epochs)
      ensures r.Ok? ==>
                && Find(old(slots), handle) == Some(r.value)
                && (forall h :: Find(slots, h) == if h == handle then None else Find(old(slots), h))
                && |slots| == |old(slots)| && slots[handle.slot].node.None?
                && (forall i :: 0 <= i < |slots| && i != handle.slot ==> slots[i] == old(slots)[i])
                && epochs == old(epochs)[handle.slot := old(epochs)[handle.slot] + 1]
    {
      if !handle.IsValid() {
        return Err(InvalidHandle);
      }
      if handle.slot >= |slots| {
        return Err(InvalidHandle);
      }
      var slot := slots[handle.slot];
      if slot.generation != handle.generation {
        return Err(StaleHandle);
      }
      if slot.node.None? {
        return Err(StaleHandle);
      }
      NextGenerationAdvances(epochs[handle.slot]);
      slots := slots[handle.slot := Slot(NextGeneration(slot.generation), None, freeHead)];
      GiveBackThreaded(old(slots), freeHead, free, handle.slot, slots);
      free := [handle.slot] + free;
      epochs := epochs[handle.slot := epochs[handle.slot] + 1];
      freeHead := Some(handle.slot);
      return Ok(slot.node.value);
    }

    /** Resolve a handle. It succeeds exactly for the handles `Find` knows. */
    function NodeFor(handle: Handle): (r: Result<NodeId, CapabilityError>)
      reads this
      ensures r.Ok? ==> Find(slots, handle) == Some(r.value)
      ensures Valid() && r.Err? ==> Find(slots, handle).None?
    {
      if !handle.IsValid() then Err(InvalidHandle)
      else if handle.slot >= |slots| then Err(InvalidHandle)
      else if slots[handle.slot].generation != handle.generation then Err(StaleHandle)
      else if slots[handle.slot].node.None? then Err(StaleHandle)
      else Ok(slots[handle.slot].node.value)
    }
  }

  /**
    A handle that was removed when its slot stood at recycling count `before` resolves again exactly
    when the slot is occupied after a whole number of generation periods.
  */
  lemma RemovedHandleIffNoWrap(slots: seq<Slot>, epochs: seq<nat>, handle: Handle, before: nat)
    requires SlotsAged(slots, epochs) && handle.slot < |slots|
    requires handle.generation == GenerationAt(before) && before < epochs[handle.slot]
    ensures Find(slots, handle).Some? <==>
            slots[handle.slot].node.Some? && (epochs[handle.slot] - before) % PERIOD == 0
  {
    SameGenerationIffWrapped(before, epochs[handle.slot]);
  }
}
