/** Kernel identities, object kinds and authority bits as the kernel ABI defines them. */
module Abi {

  import opened Bits

  datatype ObjectId = ObjectId(index: nat, generation: nat)

  datatype ObjectType =
    | Thread | AddressSpace | CapabilitySpaceObject | EndpointObject | Notification
    | MemoryObject | Mapping | InterruptObject | TimerObject | SchedulingContext
    | ResourceDomainObject | DebugConsole | FactoryObject | WaitSetObject | ContiguousFrame | Process

  datatype Handle = Handle(slot: nat, generation: nat) {
    /** The all-zero handle is reserved as invalid. */
    predicate IsValid() {
      slot != 0 || generation != 0
    }
  }

  /** Object-specific authority bits. */
  type Rights = bv32

  const MANAGE: Rights := 0x40

  predicate Contains(rights: Rights, required: Rights) {
    rights & required == required
  }

  predicate IsSubsetOf(rights: Rights, other: Rights) {
    rights & !other == 0
  }

  function Wide(w: bv32): bv64 {
    w as bv64
  }

  /** Bit i of the 32. */
  predicate Has(rights: bv32, i: nat) {
    BitOf(Wide(rights), i)
  }

  /** Some right is in the first set and not in the second. */
  ghost predicate Exceeds(rights: Rights, other: Rights) {
    exists i: nat :: i < 32 && Has(rights, i) && !Has(other, i)
  }

  /** One set of rights is within another exactly if no single right is in the first alone. */
  lemma SubsetBits(rights: Rights, other: Rights)
    ensures IsSubsetOf(rights, other) <==> !Exceeds(rights, other)
    ensures IsSubsetOf(rights, other) <==> Contains(other, rights)
    ensures IsSubsetOf(rights, other) <==> rights & other == rights
  {
    hide Has, Wide, IsSubsetOf, Contains;
    SubsetWord(rights, other);
    var w := Only(rights, other);
    ZeroIffNoLowBits(w);
    hide Only;
    forall i: nat ensures BitOf(w, i) <==> Has(rights, i) && !Has(other, i) {
      OnlyAt(rights, other, i);
    }
  }

  lemma SubsetWord(rights: Rights, other: Rights)
    ensures IsSubsetOf(rights, other) <==> Contains(other, rights)
    ensures IsSubsetOf(rights, other) <==> rights & other == rights
  {
  }

  /** The rights in the first set alone, as a word. */
  function Only(rights: Rights, other: Rights): (w: bv64)
    ensures w <= 0xFFFF_FFFF && (w == 0 <==> IsSubsetOf(rights, other))
  {
    Remove(Wide(rights), Wide(other))
  }

  lemma OnlyAt(rights: Rights, other: Rights, i: nat)
    ensures BitOf(Only(rights, other), i) <==> Has(rights, i) && !Has(other, i)
  {
    hide BitOf, Wide, IsSubsetOf, Remove;
    BitwiseAt(Wide(rights), Wide(other), i);
  }

  /** The right to manage is right 6. */
  lemma ManageBit(rights: Rights)
    ensures Contains(rights, MANAGE) <==> Has(rights, 6)
  {
    assert Mask(6) == 0x40;
    ManageWord(rights);
  }

  lemma ManageWord(rights: Rights)
    ensures Contains(rights, MANAGE) <==> Meets(rights as bv64, 0x40)
  {
  }

  lemma SubsetTransitive(a: Rights, b: Rights, c: Rights)
    requires IsSubsetOf(a, b) && IsSubsetOf(b, c)
    ensures IsSubsetOf(a, c)
  {
  }

  datatype CapabilityInfo = CapabilityInfo(target: ObjectId, kind: ObjectType, rights: Rights)
}
