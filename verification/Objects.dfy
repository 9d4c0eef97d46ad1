/** Typed kernel object identities: a vector of generational slots with an embedded free list. */
module Objects {
  import opened Common
  import opened Abi
  import opened Generations
  import opened Resources

  datatype ObjectError =
    | ArenaFull | FactoryDomainMismatch | FactoryDenied | ObjectNotFound | OwnerDomainMismatch
    | Resource(error: ResourceError)

  datatype SlotState = Free(next: Option<nat>) | Live(kind: ObjectType, owner: ObjectId)

  datatype ObjectSlot = ObjectSlot(generation: nat, state: SlotState)

  /** The right to create objects of certain kinds, charged to a domain. */
  datatype Factory = Factory(domain: ObjectId, allowed: set<ObjectType>)

  ghost predicate FreeAt(slots: seq<ObjectSlot>, free: seq<nat>, j: nat)
    requires j < |free|
  {
    free[j] < |slots| && slots[free[j]].state == Free(After(free, j))
  }

  ghost predicate Threaded(slots: seq<ObjectSlot>, head: Option<nat>, free: seq<nat>) {
    && head == First(free)
    && Distinct(free)
    && (forall j :: 0 <= j < |free| ==> FreeAt(slots, free, j))
    && (forall i :: i in free ==> i < |slots| && slots[i].state.Free?)
    && (forall i :: 0 <= i < |slots| && slots[i].state.Free? ==> i in free)
  }

  ghost predicate Aged(slots: seq<ObjectSlot>, epochs: seq<nat>) {
    |epochs| == |slots| && forall i :: 0 <= i < |slots| ==> slots[i].generation == GenerationAt(epochs[i])
  }

  /** What an object id currently names: its kind and owner, if it is live. */
  function Lookup(slots: seq<ObjectSlot>, id: ObjectId): Option<(ObjectType, ObjectId)> {
    if id.index < |slots| && slots[id.index].generation == id.generation
       && slots[id.index].state.Live?
    then Some((slots[id.index].state.kind, slots[id.index].state.owner))
    else None
  }

  /** The live objects that are charged to domain `d`, by slot. */
  ghost function OwnedBy(slots: seq<ObjectSlot>, d: ObjectId): set<nat> {
    set i | 0 <= i < |slots| && slots[i].state.Live? && slots[i].state.owner == d
  }

  lemma OwnedMember(slots: seq<ObjectSlot>, slots': seq<ObjectSlot>, id: ObjectId, kind: ObjectType, owner: ObjectId, d: ObjectId, i: nat)
    requires id.index < |slots| ==> slots[id.index].state.Free?
    requires forall o :: Lookup(slots', o) == if o == id then Some((kind, owner)) else Lookup(slots, o)
    ensures i in OwnedBy(slots', d) <==> i in OwnedBy(slots, d) || (i == id.index && owner == d)
  {
    if i == id.index {
      assert Lookup(slots', id) == Some((kind, owner));
    } else {
      if i < |slots| {
        var o := ObjectId(i, slots[i].generation);
        assert Lookup(slots', o) == Lookup(slots, o);
      }
      if i < |slots'| {
        var o := ObjectId(i, slots'[i].generation);
        assert Lookup(slots', o) == Lookup(slots, o);
      }
    }
  }

  lemma OwnedByGrow(slots: seq<ObjectSlot>, slots': seq<ObjectSlot>, id: ObjectId, kind: ObjectType, owner: ObjectId, d: ObjectId)
    requires id.index < |slots| ==> slots[id.index].state.Free?
    requires forall o :: Lookup(slots', o) == if o == id then Some((kind, owner)) else Lookup(slots, o)
    ensures |OwnedBy(slots', d)| == |OwnedBy(slots, d)| + if owner == d then 1 else 0
  {
    forall i: nat
      ensures i in OwnedBy(slots', d) <==> i in OwnedBy(slots, d) || (i == id.index && owner == d)
    {
      OwnedMember(slots, slots', id, kind, owner, d, i);
    }
    var before := OwnedBy(slots, d);
    assert id.index !in before;
    assert OwnedBy(slots', d) == before + if owner == d then {id.index} else {};
  }

  lemma GoneMember(slots: seq<ObjectSlot>, slots': seq<ObjectSlot>, id: ObjectId, d: ObjectId, i: nat)
    requires Lookup(slots, id).Some? && forall o :: Lookup(slots', o) == if o == id then None else Lookup(slots, o)
    ensures i in OwnedBy(slots', d) <==> i in OwnedBy(slots, d) && i != id.index
  {
    if i < |slots| {
      var o := ObjectId(i, slots[i].generation);
      assert Lookup(slots', o) == if o == id then None else Lookup(slots, o);
    }
    if i < |slots'| {
      var o := ObjectId(i, slots'[i].generation);
      assert Lookup(slots', o) == if o == id then None else Lookup(slots, o);
    }
  }

  lemma OwnedByShrink(slots: seq<ObjectSlot>, slots': seq<ObjectSlot>, id: ObjectId, d: ObjectId)
    requires Lookup(slots, id).Some? && forall o :: Lookup(slots', o) == if o == id then None else Lookup(slots, o)
    ensures |OwnedBy(slots, d)| == |OwnedBy(slots', d)| + if Lookup(slots, id).value.1 == d then 1 else 0
  {
    assert id.index in OwnedBy(slots, d) <==> Lookup(slots, id).value.1 == d;
    hide Lookup;
    var before, after := OwnedBy(slots, d), OwnedBy(slots', d);
    forall i: nat
      ensures i in after <==> i in before && i != id.index
    {
      GoneMember(slots, slots', id, d, i);
    }
    assert before == after + if Lookup(slots, id).value.1 == d then {id.index} else {};
  }

  lemma PopThreaded(slots: seq<ObjectSlot>, head: Option<nat>, free: seq<nat>, slots': seq<ObjectSlot>)
    requires Threaded(slots, head, free) && head.Some?
    requires free != [] && free[0] < |slots| && |slots'| == |slots| && slots'[free[0]].state.Live?
    requires forall i :: 0 <= i < |slots| && i != free[0] ==> slots'[i] == slots[i]
    ensures FreeAt(slots, free, 0) && Threaded(slots', After(free, 0), free[1..])
  {
    assert FreeAt(slots, free, 0);
    var rest := free[1..];
    forall j | 0 <= j < |rest|
      ensures FreeAt(slots', rest, j)
    {
      assert FreeAt(slots, free, j + 1);
    }
    forall i | 0 <= i < |slots'| && slots'[i].state.Free?
      ensures i in rest
    {
      assert i in free && i != free[0];
    }
    forall i | i in rest
      ensures i < |slots'| && slots'[i].state.Free?
    {
      assert i in free;
    }
  }

  lemma PushThreaded(slots: seq<ObjectSlot>, head: Option<nat>, free: seq<nat>, at: nat, slots': seq<ObjectSlot>)
    requires Threaded(slots, head, free) && at < |slots| && slots[at].state.Live?
    requires |slots'| == |slots| && slots'[at].state == Free(head)
    requires forall i :: 0 <= i < |slots| && i != at ==> slots'[i] == slots[i]
    ensures Threaded(slots', Some(at), [at] + free)
  {
    var free' := [at] + free;
    DistinctCons(at, free);
    forall j | 0 <= j < |free'|
      ensures FreeAt(slots', free', j)
    {
      if j > 0 {
        assert FreeAt(slots, free, j - 1);
      }
    }
  }

  class ObjectArena {
    const capacity: nat
    var slots: seq<ObjectSlot>
    var freeHead: Option<nat>
    ghost var free: seq<nat>
    ghost var epochs: seq<nat>

    ghost predicate Valid()
      reads this
    {
      |slots| <= capacity <= U32_MAX && Threaded(slots, freeHead, free) && Aged(slots, epochs)
    }

    constructor (capacity: nat)
      requires capacity <= U32_MAX
      ensures Valid() && this.capacity == capacity && slots == []
    {
      this.capacity := capacity;
      slots, freeHead, free, epochs := [], None, [], [];
    }

    /** The kind of a live object; a stale or unknown id has none. */
    function TypeOf(id: ObjectId): Option<ObjectType>
      reads this
    {
      var found := Lookup(slots, id);
      if found.Some? then Some(found.value.0) else None
    }

    /** A free slot remains. */
    predicate HasRoom()
      reads this
    {
      freeHead.Some? || |slots| != capacity
    }

    method Create(domain: ResourceDomain, factory: Factory, kind: ObjectType) returns (r: Result<ObjectId, ObjectError>)
      requires Valid() && domain.Valid()
      modifies this, domain
      ensures Valid() && domain.Valid()
      ensures r.Ok? <==> factory.domain == domain.id && kind in factory.allowed && old(HasRoom())
                         && CanCharge(old(domain.View()), Amounts(1, 0, 0))
      ensures r.Err? ==> slots == old(slots) && domain.View() == old(domain.View())
      ensures r.Err? ==> r.error == if factory.domain != domain.id then FactoryDomainMismatch
                                    else if kind !in factory.allowed then FactoryDenied
                                    else if !old(HasRoom()) then ArenaFull
                                    else Resource(ObjectLimit)
      ensures r.Ok? ==>
                && domain.View() == Charged(old(domain.View()), Amounts(1, 0, 0))
                && Lookup(old(slots), r.value).None? && (r.value.index < |old(slots)| ==> old(slots)[r.value.index].state.Free?)
                && (forall o :: Lookup(slots, o) == if o == r.value then Some((kind, domain.id)) else Lookup(old(slots), o))
      ensures |old(epochs)| <= |epochs| && forall i :: 0 <= i < |old(epochs)| ==> epochs[i] == old(epochs)[i]
    {
      if factory.domain != domain.id {
        return Err(FactoryDomainMismatch);
      }
      if kind !in factory.allowed {
        return Err(FactoryDenied);
      }
      if freeHead.None? && |slots| == capacity {
        return Err(ArenaFull);
      }
      var charge := domain.ChargeObject();
      if charge.Err? {
        return Err(Resource(charge.error));
      }
      if freeHead.Some? {
        var index := freeHead.value;
        assert FreeAt(slots, free, 0);
        freeHead := slots[index].state.next;
        slots := slots[index := slots[index].(state := Live(kind, domain.id))];
        PopThreaded(old(slots), old(freeHead), free, slots);
        free := free[1..];
        return Ok(ObjectId(index, slots[index].generation));
      }
      var index := |slots|;
      slots := slots + [ObjectSlot(1, Live(kind, domain.id))];
      epochs := epochs + [0];
      return Ok(ObjectId(index, 1));
    }

    method Destroy(domain: ResourceDomain, id: ObjectId) returns (r: Result<(), ObjectError>)
      requires Valid() && domain.Valid()
      modifies this, domain
      ensures Valid() && domain.Valid()
      ensures r.Ok? <==> Lookup(old(slots), id).Some? && Lookup(old(slots), id).value.1 == domain.id
                         && Amounts(1, 0, 0).Within(old(domain.View()).usage)
      ensures r.Err? ==> slots == old(slots) && epochs == old(epochs) && domain.View() == old(domain.View())
      ensures r.Err? ==> r.error == if Lookup(old(slots), id).None? then ObjectNotFound
                                    else if Lookup(old(slots), id).value.1 != domain.id then OwnerDomainMismatch
                                    else Resource(AccountingUnderflow)
      ensures r.Ok? ==>
                && domain.View() == Released(old(domain.View()), Amounts(1, 0, 0))
                && (forall o :: Lookup(slots, o) == if o == id then None else Lookup(old(slots), o))
                && epochs == old(epochs)[id.index := old(epochs)[id.index] + 1]
    {
      if id.index >= |slots| {
        return Err(ObjectNotFound);
      }
      var slot := slots[id.index];
      if !(slot.state.Live? && slot.generation == id.generation) {
        return Err(ObjectNotFound);
      }
      if slot.state.owner != domain.id {
        return Err(OwnerDomainMismatch);
      }
      var release := domain.ReleaseObject();
      if release.Err? {
        return Err(Resource(release.error));
      }
      NextGenerationAdvances(epochs[id.index]);
      slots := slots[id.index := ObjectSlot(NextGeneration(slot.generation), Free(freeHead))];
      PushThreaded(old(slots), freeHead, free, id.index, slots);
      free := [id.index] + free;
      epochs := epochs[id.index := epochs[id.index] + 1];
      freeHead := Some(id.index);
      return Ok(());
    }
  }

  /**
    An id whose slot stood at recycling count `then` when it was destroyed names a live object again
    exactly when the slot is occupied after a whole number of generation periods.
  */
  lemma DestroyedIdIffNoWrap(slots: seq<ObjectSlot>, epochs: seq<nat>, id: ObjectId, before: nat)
    requires Aged(slots, epochs) && id.index < |slots|
    requires id.generation == GenerationAt(before) && before < epochs[id.index]
    ensures Lookup(slots, id).Some? <==>
            slots[id.index].state.Live? && (epochs[id.index] - before) % PERIOD == 0
  {
    SameGenerationIffWrapped(before, epochs[id.index]);
  }
}
