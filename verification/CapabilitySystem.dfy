/**
  The capability engine: insertion, derivation, validation, revocation and deletion of capabilities
  over the shared node vector and any number of capability spaces.
*/
module CapabilitySystems {
  import opened Common
  import opened Abi
  import opened Generations
  import opened Resources
  import Objects
  import opened Derivation
  import opened NodeTable
  import opened NodeLinks
  import opened CapabilitySpaces
  import opened Registries

  /** The held nodes whose cells belong to domain `d`. */
  ghost function HeldBy(holder: Holder, d: ObjectId): set<nat> {
    set k | k in holder && holder[k].0.domain == d
  }

  lemma HeldByGrow(holder: Holder, k: nat, at: (CapabilitySpace, nat), d: ObjectId)
    requires k !in holder
    ensures |HeldBy(holder[k := at], d)| == |HeldBy(holder, d)| + if at.0.domain == d then 1 else 0
  {
    assert HeldBy(holder[k := at], d) == HeldBy(holder, d) + if at.0.domain == d then {k} else {};
  }

  lemma HeldByShrink(holder: Holder, k: nat, d: ObjectId)
    requires k in holder
    ensures |HeldBy(holder, d)| == |HeldBy(holder - {k}, d)| + if holder[k].0.domain == d then 1 else 0
  {
    assert HeldBy(holder, d) == HeldBy(holder - {k}, d) + if holder[k].0.domain == d then {k} else {};
  }

  /** A node for `info` below `above` was created and put in a vacant cell, and `handle` is the cell's new handle. */
  ghost predicate Inserted(s: Shape, t: Shape, above: Option<nat>, info: CapabilityInfo,
                           cells: seq<Cell>, cells': seq<Cell>, handle: Handle)
  {
    var k := s.forest.next;
    && Sized(s) && (above.Some? ==> above.value in s.forest.caps)
    && k < |t.ids| && t.ids[k].index <= |s.serial|
    && t == GrowShape(s, above, info, t.ids[k])
    && Vacant(cells, handle.slot) && cells' == Filled(cells, handle.slot, k) && handle == HandleOf(cells', handle.slot)
  }

  /** The new handle leads to the new node, led nowhere before, and every other handle leads where it did. */
  lemma InsertedLeads(s: Shape, t: Shape, above: Option<nat>, info: CapabilityInfo,
                      cells: seq<Cell>, cells': seq<Cell>, handle: Handle)
    requires Inserted(s, t, above, info, cells, cells', handle)
    ensures Leads(cells, handle).None?
    ensures forall h :: Leads(cells', h) == if h == handle then Some(s.forest.next) else Leads(cells, h)
  {
  }

  ghost predicate MirrorAt(cells: seq<Cell>, slots: seq<Slot>, epochs: seq<nat>, ids: seq<NodeId>, i: nat)
    requires i < |cells| == |slots| == |epochs|
  {
    && epochs[i] == cells[i].epoch
    && match cells[i].node
       case None => slots[i].node.None?
       case Some(k) => k < |ids| && slots[i].node == Some(ids[k])
  }

  /** A space's slots hold the ids of the nodes in its cells. */
  ghost predicate Mirrored(cells: seq<Cell>, slots: seq<Slot>, epochs: seq<nat>, ids: seq<NodeId>) {
    |cells| == |slots| == |epochs| && forall i :: 0 <= i < |cells| ==> MirrorAt(cells, slots, epochs, ids, i)
  }

  lemma MirroredFill(cells: seq<Cell>, slots: seq<Slot>, epochs: seq<nat>, ids: seq<NodeId>, i: nat, k: nat,
                     slots': seq<Slot>, epochs': seq<nat>)
    requires Mirrored(cells, slots, epochs, ids) && k < |ids|
    requires i <= |slots| && (i < |slots| ==> slots[i].node.None?)
    requires |slots'| == (if i < |slots| then |slots| else |slots| + 1) && slots'[i].node == Some(ids[k])
    requires forall j :: 0 <= j < |slots| && j != i ==> slots'[j] == slots[j]
    requires epochs' == if i < |slots| then epochs else epochs + [0]
    ensures Vacant(cells, i) && Mirrored(Filled(cells, i, k), slots', epochs', ids)
    ensures SlotsAged(slots', epochs') ==> HandleOf(Filled(cells, i, k), i) == Handle(i, slots'[i].generation)
  {
    assert i < |cells| ==> MirrorAt(cells, slots, epochs, ids, i);
    forall j | 0 <= j < |slots'|
      ensures MirrorAt(Filled(cells, i, k), slots', epochs', ids, j)
    {
      assert j < |cells| ==> MirrorAt(cells, slots, epochs, ids, j);
    }
  }

  lemma MirroredEmpty(cells: seq<Cell>, slots: seq<Slot>, epochs: seq<nat>, ids: seq<NodeId>, i: nat,
                      slots': seq<Slot>, epochs': seq<nat>)
    requires Mirrored(cells, slots, epochs, ids) && i < |slots| == |slots'| && slots'[i].node.None?
    requires forall j :: 0 <= j < |slots| && j != i ==> slots'[j] == slots[j]
    requires epochs' == epochs[i := epochs[i] + 1]
    ensures Mirrored(Emptied(cells, i), slots', epochs', ids)
  {
    forall j | 0 <= j < |slots'|
      ensures MirrorAt(Emptied(cells, i), slots', epochs', ids, j)
    {
      assert MirrorAt(cells, slots, epochs, ids, j);
    }
  }

  lemma MirroredMore(cells: seq<Cell>, slots: seq<Slot>, epochs: seq<nat>, ids: seq<NodeId>, id: NodeId)
    requires Mirrored(cells, slots, epochs, ids)
    ensures Mirrored(cells, slots, epochs, ids + [id])
  {
    forall i | 0 <= i < |cells|
      ensures MirrorAt(cells, slots, epochs, ids + [id], i)
    {
      assert MirrorAt(cells, slots, epochs, ids, i);
    }
  }

  lemma MirroredSizes(cells: seq<Cell>, slots: seq<Slot>, epochs: seq<nat>, ids: seq<NodeId>)
    requires Mirrored(cells, slots, epochs, ids)
    ensures |cells| == |slots| == |epochs|
  {
  }

  /** What resolving a handle finds, in terms of the cells. */
  lemma MirroredFind(cells: seq<Cell>, slots: seq<Slot>, epochs: seq<nat>, ids: seq<NodeId>, h: Handle)
    requires Mirrored(cells, slots, epochs, ids) && SlotsAged(slots, epochs)
    ensures Find(slots, h).Some? <==> Leads(cells, h).Some?
    ensures Leads(cells, h).Some? ==> Leads(cells, h).value < |ids| && Find(slots, h) == Some(ids[Leads(cells, h).value])
  {
    if h.slot < |cells| {
      assert MirrorAt(cells, slots, epochs, ids, h.slot);
    }
  }

  /** What validating a handle answers, read off the registry. */
  ghost function Answer(r: Registry, c: CapabilitySpace, h: Handle, objects: Objects.ObjectArena)
    : Result<CapabilityInfo, CapabilityError>
    requires Sane(r) && c in r.cells
    reads objects
  {
    var standing := Standing(r, c, h);
    if standing.Ok? && objects.TypeOf(standing.value.target) != Some(standing.value.kind) then Err(ObjectDestroyed)
    else standing
  }

  lemma RevokeAnswer(r: Registry, a: nat, s: Registry, c: CapabilitySpace, h: Handle, objects: Objects.ObjectArena)
    requires Moves(r, ActRevoke(a), s) && c in r.cells
    ensures Sane(s) && c in s.cells
    ensures Answer(s, c, h, objects) == if LeadsBelow(r, c, h, a) then Err(Revoked) else Answer(r, c, h, objects)
  {
    RevokeStanding(r, a, s, c, h);
  }

  /** The revoked nodes, in order, were reported with what they granted. */
  ghost predicate Reported(f: Forest, order: seq<nat>, infos: seq<CapabilityInfo>) {
    |infos| == |order| && forall i :: 0 <= i < |order| ==> order[i] in f.caps && infos[i] == f.caps[order[i]].info
  }

  ghost function Revocations(order: seq<nat>): seq<Act> {
    seq(|order|, i requires 0 <= i < |order| => ActRevoke(order[i]))
  }

  /** From `s` to `t` the nodes of `order`, pending descendants of `root`, were revoked and reported. */
  ghost predicate TornDown(s: Shape, root: nat, order: seq<nat>, infos: seq<CapabilityInfo>, t: Shape)
    requires WellFormed(s.forest)
  {
    && Distinct(order) && Elements(order) <= Pending(s.forest, root) && |order| <= |Pending(s.forest, root)|
    && Reported(s.forest, order, infos)
    && t == s.(forest := MarkAllRevoked(s.forest, Elements(order))) && WellFormed(t.forest)
    && Pending(t.forest, root) == Pending(s.forest, root) - Elements(order)
  }

  lemma TearNothing(s: Shape, root: nat, r: Registry)
    requires WellFormed(s.forest) && Sane(r)
    ensures TornDown(s, root, [], [], s) && IsTrace([r], Revocations([]))
  {
    RevokeNone(s.forest);
    assert Elements<nat>([]) == {};
  }

  lemma TearOneMore(s: Shape, root: nat, order: seq<nat>, infos: seq<CapabilityInfo>, t: Shape, d: nat, info: CapabilityInfo, u: Shape)
    requires WellFormed(s.forest) && TornDown(s, root, order, infos, t) && WasRevoked(t, root, d, info, u)
    ensures TornDown(s, root, order + [d], infos + [info], u)
  {
    hide Pending, MarkAllRevoked, WellFormed;
    var done := Elements(order);
    RevokePending(t.forest, root, d);
    RevokeMore(s.forest, done, d);
    MarkedMember(s.forest, done, d);
    assert Elements(order + [d]) == done + {d};
    var before := Pending(s.forest, root);
    assert before - (done + {d}) == before - done - {d};
    DistinctWithin(order + [d], before);
  }

  lemma MarkedMember(f: Forest, done: set<nat>, d: nat)
    requires d in MarkAllRevoked(f, done).caps
    ensures d in f.caps && MarkAllRevoked(f, done).caps[d].info == f.caps[d].info
  {
  }

  lemma TornFacts(s: Shape, root: nat, order: seq<nat>, infos: seq<CapabilityInfo>, t: Shape)
    requires WellFormed(s.forest) && TornDown(s, root, order, infos, t)
    ensures |order| <= |Pending(s.forest, root)| && Distinct(order) && Reported(s.forest, order, infos) && |infos| == |order|
    ensures t == s.(forest := MarkAllRevoked(s.forest, Elements(order))) && WellFormed(t.forest)
  {
  }

  lemma TornAll(s: Shape, root: nat, order: seq<nat>, infos: seq<CapabilityInfo>, t: Shape)
    requires WellFormed(s.forest) && TornDown(s, root, order, infos, t) && Pending(t.forest, root) == {}
    ensures Elements(order) == Pending(s.forest, root)
  {
    var before := Pending(s.forest, root);
    assert before == (before - Elements(order)) + Elements(order);
  }

  class CapabilitySystem {
    const capacity: nat
    var nodes: seq<Node>
    var freeHead: Option<nat>
    ghost var shape: Shape
    // The capability spaces in use, what their cells hold, and the cell that holds each held node.
    ghost var spaces: set<CapabilitySpace>
    ghost var cells: Board
    ghost var holder: Holder

    constructor (capacity: nat)
      requires capacity <= U32_MAX
      ensures this.capacity == capacity && Valid() && shape == EmptyShape && spaces == {}
      ensures Registry() == Registries.Registry(Empty, map[], map[])
    {
      this.capacity := capacity;
      nodes, freeHead, shape := [], None, EmptyShape;
      spaces, cells, holder := {}, map[], map[];
      new;
      hide Represents, NoGarbage;
      EmptyRepresents();
    }

    /** What clients see: the forest and the cells. */
    ghost function Registry(): Registry
      reads this
    {
      Registries.Registry(shape.forest, cells, holder)
    }

    ghost predicate Mirrors(c: CapabilitySpace)
      reads this, c
    {
      c.Valid() && c in cells && Mirrored(cells[c], c.slots, c.epochs, shape.ids)
    }

    /** The cells are those of the spaces in use, and fit forest `f`. */
    ghost predicate LinkedFor(f: Forest)
      reads this, spaces
    {
      && cells.Keys == spaces
      && Seated(Registries.Registry(f, cells, holder))
      && (forall c :: c in spaces ==> Mirrors(c))
    }

    /** The invariant of the whole engine. */
    ghost predicate Valid()
      reads this, spaces
    {
      Sound() && LinkedFor(shape.forest)
    }

    lemma ValidIsSane()
      requires Valid()
      ensures Sane(Registry()) && cells.Keys == spaces && holder.Keys == shape.forest.held
      ensures Represents(nodes, freeHead, shape, None)
    {
    }

    /** The capacity tests are exact. */
    lemma Rooms(target: CapabilitySpace)
      requires Valid() && target in spaces
      ensures (target.HasCapacity() <==> target.Room() > 0) && (HasNode() <==> NodeRoom() > 0)
    {
      hide Represents, NoGarbage, Seated, Mirrored;
      assert Mirrors(target);
      target.CapacityIsRoom();
      NodeCapacityIsRoom();
    }

    /** The held nodes whose slots are charged to domain `d`. */
    ghost function HeldIn(d: ObjectId): set<nat>
      reads this
    {
      HeldBy(holder, d)
    }

    /** What a domain is charged for beyond its occupied slots. */
    ghost function Slack(domain: ResourceDomain): int
      reads this, domain
    {
      domain.capabilities - |HeldIn(domain.id)|
    }

    /** Resolving a handle finds the id of the node its cell holds. */
    lemma NodeForLeads(c: CapabilitySpace, h: Handle)
      requires Valid() && c in spaces
      ensures c in cells
      ensures Leads(cells[c], h).Some? <==> c.NodeFor(h).Ok?
      ensures Leads(cells[c], h).Some? ==>
                var k := Leads(cells[c], h).value;
                && k in shape.forest.held && k in shape.forest.caps && k < |shape.ids|
                && c.NodeFor(h).value == shape.ids[k] && Key(shape.ids[k]) == Some(k) && h.slot < |cells[c]|
                && cells[c][h.slot].node == Some(k)
      ensures (h.slot == 0 && h.generation == 0) || h.slot >= |cells[c]| ==> c.NodeFor(h) == Err(InvalidHandle)
      ensures (h.slot != 0 || h.generation != 0) && h.slot < |cells[c]| && Leads(cells[c], h).None? ==> c.NodeFor(h) == Err(StaleHandle)
    {
      hide Represents, SlotsThreaded, SlotsAged, NoGarbage, Seated, Mirrored;
      assert Mirrors(c);
      MirroredFind(cells[c], c.slots, c.epochs, shape.ids, h);
      MirroredSizes(cells[c], c.slots, c.epochs, shape.ids);
      if Leads(cells[c], h).Some? {
        ValidIsSane();
        LeadsHeld(Registry(), c, h);
        HeldDenotes(nodes, freeHead, shape, Leads(cells[c], h).value);
      }
    }

    /** Put node `k`, the newest of forest `Grow(f, above, info)`, into a vacant slot of `target`. */
    method Place(target: CapabilitySpace, id: NodeId, ghost f: Forest, ghost above: Option<nat>, ghost info: CapabilityInfo)
      returns (handle: Handle)
      requires target in spaces && LinkedFor(f) && target.HasCapacity()
      requires Good(f) && CanGrow(f, above, info) && f.next < |shape.ids| && shape.ids[f.next] == id
      modifies this`holder, this`cells, target
      ensures LinkedFor(Grow(f, above, info))
      ensures target in old(cells) && Vacant(old(cells)[target], handle.slot)
      ensures cells == old(cells)[target := Filled(old(cells)[target], handle.slot, f.next)]
      ensures handle == HandleOf(cells[target], handle.slot)
      ensures Moves(Registries.Registry(f, old(cells), old(holder)), ActInsert(target, handle.slot, above, info),
                    Registries.Registry(Grow(f, above, info), cells, holder))
      ensures target.Room() == old(target.Room()) - 1
    {
      hide SlotsThreaded, SlotsAged, NoGarbage, WellFormed, CanGrow, Seated, Mirrored, Filled, Vacant;
      assert Mirrors(target);
      ghost var before := Registries.Registry(f, cells, holder);
      var r := target.Insert(id);
      handle := r.value;
      ghost var i := handle.slot;
      MirroredFill(cells[target], old(target.slots), old(target.epochs), shape.ids, i, f.next, target.slots, target.epochs);
      PerformSeated(before, ActInsert(target, i, above, info));
      cells := cells[target := Filled(cells[target], i, f.next)];
      holder := holder[f.next := (target, i)];
      assert forall c :: c in spaces && c != target ==> old(Mirrors(c));
    }

    /** Empty the slot a handle names. The node it held is still counted. */
    method Displace(space: CapabilitySpace, handle: Handle) returns (r: Result<NodeId, CapabilityError>, ghost k: nat)
      requires Valid() && space in spaces
      modifies this`holder, this`cells, space
      ensures r == old(space.NodeFor(handle))
      ensures r.Err? ==> space.slots == old(space.slots) && cells == old(cells) && holder == old(holder) && Valid()
      ensures r.Ok? ==>
                && space in old(cells) && Leads(old(cells)[space], handle) == Some(k)
                && k < |shape.ids| && shape.ids[k] == r.value && WellFormed(shape.forest) && k in shape.forest.held
                && k in old(holder) && old(holder)[k].0 == space && holder == old(holder) - {k}
                && Sound() && LinkedFor(DeleteHeld(shape.forest, k))
                && Moves(old(Registry()), ActRemove(space, handle.slot),
                         Registries.Registry(DeleteHeld(shape.forest, k), cells, holder))
    {
      hide CapabilitySpace.Valid, NoGarbage, WellFormed, Represents, Seated, DeleteHeld, Mirrored, Find;
      k := 0;
      NodeForLeads(space, handle);
      ValidIsSane();
      assert forall c :: c in spaces ==> old(Mirrors(c));
      r := space.Remove(handle);
      if r.Ok? {
        ghost var before := Registry();
        k := Leads(cells[space], handle).value;
        Basics(nodes, freeHead, shape);
        HolderOf(before, space, handle.slot);
        PerformSeated(before, ActRemove(space, handle.slot));
        MirroredEmpty(cells[space], old(space.slots), old(space.epochs), shape.ids, handle.slot, space.slots, space.epochs);
        cells := cells[space := Emptied(cells[space], handle.slot)];
        holder := holder - {k};
      }
    }

    /** Give up the reference of a node that has just lost its slot. */
    method Relinquish(id: NodeId, ghost k: nat)
      requires Sound() && WellFormed(shape.forest) && k in shape.forest.held && k < |shape.ids| && shape.ids[k] == id
      requires LinkedFor(DeleteHeld(shape.forest, k))
      modifies this`nodes, this`freeHead, this`shape
      ensures Valid() && WellFormed(old(shape.forest)) && shape.forest == DeleteHeld(old(shape.forest), k)
      ensures Sized(old(shape)) && Sized(shape) && Trimmed(old(shape), shape)
    {
      hide Represents, NoGarbage, NoGarbageBut, WellFormed, Prune, Seated;
      Basics(nodes, freeHead, shape);
      UnholdSound(nodes, freeHead, shape, k);
      ghost var f := Unhold(shape.forest, k);
      shape := shape.(forest := f);
      ReleaseNode(id, k);
      TrimmedIds(old(shape), shape);
      assert forall c :: c in spaces ==> old(Mirrors(c));
    }

    /** Put a new, empty space into use. */
    ghost method Attach(space: CapabilitySpace)
      requires Valid() && space.Valid() && space.slots == [] && space !in spaces
      modifies this`spaces, this`cells
      ensures Valid() && spaces == old(spaces) + {space}
      ensures Moves(old(Registry()), ActAttach(space), Registry())
    {
      hide Represents, SlotsThreaded, NoGarbage, Seated;
      ValidIsSane();
      PerformSeated(Registry(), ActAttach(space));
      spaces := spaces + {space};
      cells := cells[space := []];
      assert forall c :: c in spaces && c != space ==> old(Mirrors(c));
    }

    /** The shape invariant of the node vector between operations. */
    ghost predicate Sound()
      reads this
    {
      |nodes| <= capacity <= U32_MAX && Represents(nodes, freeHead, shape, None) && NoGarbage(shape.forest)
    }

    /** How many more nodes fit. */
    ghost function NodeRoom(): int
      reads this
    {
      |shape.free| + capacity - |nodes|
    }

    lemma NodeCapacityIsRoom()
      requires Sound()
      ensures HasNode() <==> NodeRoom() > 0
    {
    }

    /** The live node an id denotes. */
    ghost function Key(id: NodeId): Option<nat>
      reads this
    {
      Denotes(nodes, shape, id)
    }

    /** Put `child` in front of the children of `parent`. */
    method LinkChild(parent: NodeId, child: NodeId)
      modifies this`nodes
      ensures |nodes| == |old(nodes)|
      ensures forall i :: 0 <= i < |nodes| && i != parent.index && i != child.index ==> nodes[i] == old(nodes)[i]
      ensures ResolvesLive(old(nodes), parent) && ResolvesLive(old(nodes), child) && parent.index != child.index ==>
                && nodes[child.index] == old(nodes)[child.index].(state := old(nodes)[child.index].state.(nextSibling := old(nodes)[parent.index].state.firstChild))
                && nodes[parent.index] == old(nodes)[parent.index].(state := old(nodes)[parent.index].state.(firstChild := Some(child)))
      ensures forall line :: IsLine(old(nodes), parent, line) && ResolvesLive(old(nodes), child) && Apart(child, parent, line) ==>
                IsLine(nodes, parent, [child] + line)
    {
      var first := if ResolvesLive(nodes, parent) then nodes[parent.index].state.firstChild else None;
      if ResolvesLive(nodes, child) {
        nodes := nodes[child.index := nodes[child.index].(state := nodes[child.index].state.(nextSibling := first))];
      }
      if ResolvesLive(nodes, parent) {
        nodes := nodes[parent.index := nodes[parent.index].(state := nodes[parent.index].state.(firstChild := Some(child)))];
      }
      forall line | IsLine(old(nodes), parent, line) && ResolvesLive(old(nodes), child) && Apart(child, parent, line)
        ensures IsLine(nodes, parent, [child] + line)
      {
        LineGrows(old(nodes), parent, child, line, nodes);
      }
    }

    /** Count one more reference to a live node whose counter is not exhausted. */
    method AddReference(id: NodeId) returns (r: Result<(), CapabilityError>)
      modifies this`nodes
      ensures r.Ok? <==> CanReference(old(nodes), id)
      ensures r.Err? ==> nodes == old(nodes) && r.error == if ResolvesLive(old(nodes), id) then AccountingInvariant else StaleHandle
      ensures r.Ok? ==> nodes == old(nodes)[id.index := old(nodes)[id.index].(state := old(nodes)[id.index].state.(references := old(nodes)[id.index].state.references + 1))]
    {
      if !ResolvesLive(nodes, id) {
        return Err(StaleHandle);
      }
      var state := nodes[id.index].state;
      if state.references >= U32_MAX {
        return Err(AccountingInvariant);
      }
      nodes := nodes[id.index := nodes[id.index].(state := state.(references := state.references + 1))];
      return Ok(());
    }

    /** Fill a recycled entry, or else a new one at the end. */
    method TakeEntry(info: CapabilityInfo, parent: Option<NodeId>) returns (r: Result<NodeId, CapabilityError>)
      modifies this`nodes, this`freeHead
      ensures r.Ok? <==> CanTake(old(nodes), old(freeHead), capacity)
      ensures r.Err? ==> nodes == old(nodes) && freeHead == old(freeHead)
      ensures r.Err? ==> r.error == if old(freeHead).Some? then AccountingInvariant else NodeCapacity
      ensures r.Ok? ==>
                var id := r.value; var node := Node(id.generation, Live(info, parent, None, None, false, 1));
                && IsNextId(old(nodes), old(freeHead), id)
                && nodes == (if old(freeHead).Some? then old(nodes)[id.index := node] else old(nodes) + [node])
                && freeHead == if old(freeHead).Some? then old(nodes)[old(freeHead).value].state.next else None
    {
      if freeHead.Some? {
        var index := freeHead.value;
        if index >= |nodes| {
          return Err(AccountingInvariant);
        }
        if nodes[index].state.Live? {
          return Err(AccountingInvariant);
        }
        freeHead := nodes[index].state.next;
        var id := NodeId(index, nodes[index].generation);
        nodes := nodes[index := Node(id.generation, Live(info, parent, None, None, false, 1))];
        return Ok(id);
      }
      if |nodes| == capacity {
        return Err(NodeCapacity);
      }
      var id := NodeId(|nodes|, 1);
      nodes := nodes + [Node(1, Live(info, parent, None, None, false, 1))];
      return Ok(id);
    }

    /**
      Reference the parent, fill an entry and link it in front of the parent's children. If no entry can
      be had after the parent was referenced, the extra reference stays.
    */
    method AllocateNode(info: CapabilityInfo, parent: Option<NodeId>) returns (r: Result<NodeId, CapabilityError>)
      modifies this`nodes, this`freeHead
      ensures r.Ok? <==> (parent.Some? ==> CanReference(old(nodes), parent.value)) && CanTake(old(nodes), old(freeHead), capacity)
      ensures r.Ok? ==>
                && IsNextId(old(nodes), old(freeHead), r.value)
                && nodes == AllocatedNodes(old(nodes), old(freeHead), info, parent, r.value)
                && freeHead == if old(freeHead).Some? then old(nodes)[old(freeHead).value].state.next else None
      ensures r.Err? && (parent.Some? ==> !CanReference(old(nodes), parent.value)) ==> nodes == old(nodes)
      ensures r.Err? ==> freeHead == old(freeHead) && |nodes| == |old(nodes)|
    {
      if parent.Some? {
        var referenced := AddReference(parent.value);
        if referenced.Err? {
          return Err(referenced.error);
        }
      }
      r := TakeEntry(info, parent);
      if r.Ok? && parent.Some? {
        LinkChild(parent.value, r.value);
      }
    }

    /** Create a node for the forest. The reference counter cannot overflow and the free list is intact. */
    method GrowForest(info: CapabilityInfo, parent: Option<NodeId>, ghost above: Option<nat>) returns (id: NodeId)
      requires Sound()
      requires above.Some? ==> above.value in shape.forest.caps
      requires parent == IdAt(shape, above)
      requires CanGrow(shape.forest, above, info)
      requires freeHead.Some? || |nodes| < capacity
      modifies this`nodes, this`freeHead, this`shape
      ensures Sound()
      ensures id.index <= |old(shape).serial|
      ensures shape == GrowShape(old(shape), above, info, id)
      ensures NodeRoom() == old(NodeRoom()) - 1
    {
      hide Represents, WellFormed, NoGarbage, CanGrow;
      AllocateFacts(nodes, freeHead, shape, above);
      FreeHeadIs(nodes, freeHead, shape);
      var allocation := AllocateNode(info, parent);
      id := allocation.value;
      AllocateSound(old(nodes), old(freeHead), shape, above, info, id, nodes, freeHead);
      shape := GrowShape(shape, above, info, id);
    }

    /** Cut `child` out of the sibling list `line` of `parent`. */
    method UnlinkChild(parent: NodeId, child: NodeId, ghost line: seq<NodeId>, ghost at: nat)
      requires IsLine(nodes, parent, line) && at < |line| && line[at] == child
      modifies this`nodes
      ensures nodes == CutNodes(old(nodes), parent, line, at)
    {
      assert LineAt(nodes, line, at);
      var first := nodes[parent.index].state.firstChild;
      if first == Some(child) {
        assert at == 0;
        var next := nodes[child.index].state.nextSibling;
        nodes := nodes[parent.index := nodes[parent.index].(state := nodes[parent.index].state.(firstChild := next))];
      } else {
        var curr := first.value;
        ghost var j := 0;
        while true
          invariant nodes == old(nodes) && j < at && curr == line[j]
          decreases at - j
        {
          assert LineAt(nodes, line, j);
          var next := nodes[curr.index].state.nextSibling;
          if next == Some(child) {
            var childNext := nodes[child.index].state.nextSibling;
            assert j + 1 == at;
            nodes := nodes[curr.index := nodes[curr.index].(state := nodes[curr.index].state.(nextSibling := childNext))];
            break;
          }
          curr := next.value;
          j := j + 1;
        }
      }
    }

    /** Unlink a node that nothing references any more and put its entry on the free list. */
    method FreeNode(id: NodeId, parent: Option<NodeId>, ghost line: seq<NodeId>, ghost at: nat)
      requires ResolvesLive(nodes, id) && id.generation <= U32_MAX
      requires parent.Some? ==> IsLine(nodes, parent.value, line) && at < |line| && line[at] == id
                                && LinkFrom(parent.value, line, at).index != id.index
      modifies this`nodes, this`freeHead
      ensures nodes == (if parent.Some? then CutNodes(old(nodes), parent.value, line, at) else old(nodes))
                         [id.index := Node(NextGeneration(id.generation), Free(old(freeHead)))]
      ensures freeHead == Some(id.index)
    {
      if parent.Some? {
        assert at > 0 ==> LineAt(nodes, line, at - 1);
        UnlinkChild(parent.value, id, line, at);
      }
      nodes := nodes[id.index := Node(NextGeneration(nodes[id.index].generation), Free(freeHead))];
      freeHead := Some(id.index);
    }

    /** Give up one reference to `id`; if it was the last, free the node and go on with its parent. */
    method ReleaseStep(id: NodeId, ghost k: nat) returns (next: Option<NodeId>)
      requires Represents(nodes, freeHead, shape, Some(k)) && NoGarbageBut(shape.forest, k) && id == shape.ids[k]
      modifies this`nodes, this`freeHead, this`shape
      ensures |nodes| == |old(nodes)|
      ensures next.None? ==>
                Represents(nodes, freeHead, shape, None) && NoGarbage(shape.forest)
                && shape.forest == Prune(old(shape.forest), k)
      ensures next.Some? ==>
                var above := old(shape.forest).caps[k].parent;
                && above.Some? && above.value < k
                && Represents(nodes, freeHead, shape, above) && NoGarbageBut(shape.forest, above.value)
                && next.value == shape.ids[above.value]
                && Prune(shape.forest, above.value) == Prune(old(shape.forest), k)
      ensures Sized(old(shape)) && Sized(shape) && Trimmed(old(shape), shape)
    {
      ghost var line, at := ReleaseFacts(nodes, freeHead, shape, k);
      var state := nodes[id.index].state;
      assert state.references > 0;
      nodes := nodes[id.index := nodes[id.index].(state := state.(references := state.references - 1))];
      if state.references != 1 {
        SettleRepresents(old(nodes), freeHead, shape, k, nodes);
        StillSupported(shape, k);
        TrimmedRefl(shape);
        return None;
      }
      FreeNode(id, state.parent, line, at);
      FreeSound(old(nodes), old(freeHead), shape, k, line, at, nodes);
      shape := DropShape(shape, k, at);
      return state.parent;
    }

    /**
      Give up one reference to `id` and free every node whose last reference goes away with it.
      The walk up the lineage ends, and every ancestor it meets is live with a positive count.
    */
    method ReleaseNode(id: NodeId, ghost k: nat)
      requires |nodes| <= capacity <= U32_MAX && Represents(nodes, freeHead, shape, Some(k))
      requires NoGarbageBut(shape.forest, k) && id == shape.ids[k]
      modifies this`nodes, this`freeHead, this`shape
      ensures Sound()
      ensures shape.forest == Prune(old(shape.forest), k)
      ensures Sized(old(shape)) && Sized(shape) && Trimmed(old(shape), shape)
    {
      var current := id;
      ghost var j := k;
      TrimmedRefl(shape);
      while true
        invariant |nodes| == |old(nodes)| && Represents(nodes, freeHead, shape, Some(j))
        invariant NoGarbageBut(shape.forest, j) && current == shape.ids[j]
        invariant Prune(shape.forest, j) == Prune(old(shape.forest), k)
        invariant Sized(shape) && Trimmed(old(shape), shape)
        decreases j
      {
        ghost var before := shape;
        var next := ReleaseStep(current, j);
        TrimmedTrans(old(shape), before, shape);
        if next.None? {
          return;
        }
        current := next.value;
        j := before.forest.caps[j].parent.value;
      }
    }

    // ---------- reading ----------

    /** What validating an id must answer: by the lineage's revocations and the object's liveness. */
    ghost function Verdict(id: NodeId, objects: Objects.ObjectArena): Result<CapabilityInfo, CapabilityError>
      requires Sound()
      reads this, objects
    {
      match Key(id)
      case None => Err(StaleHandle)
      case Some(k) =>
        LiveIds(nodes, freeHead, shape, None, id);
        var info := shape.forest.caps[k].info;
        if Tainted(shape.forest, k) then Err(Revoked)
        else if objects.TypeOf(info.target) != Some(info.kind) then Err(ObjectDestroyed)
        else Ok(info)
    }

    /** Walk the lineage of a node. The depth limit is never exceeded. */
    method ValidateNode(id: NodeId, objects: Objects.ObjectArena) returns (r: Result<CapabilityInfo, CapabilityError>)
      requires Sound()
      ensures r == Verdict(id, objects)
    {
      hide Represents;
      Basics(nodes, freeHead, shape);
      if !ResolvesLive(nodes, id) {
        return Err(StaleHandle);
      }
      var current, depth := id, 0;
      var leaf := nodes[id.index].state.info;
      ghost var k0 := shape.serial[id.index];
      WalkFacts(nodes, freeHead, shape, id);
      while true
        invariant ResolvesLive(nodes, current)
        invariant var k := shape.serial[current.index];
          && k in shape.forest.caps
          && depth + |Lineage(shape.forest, k)| == |Lineage(shape.forest, k0)|
          && Tainted(shape.forest, k0) == Tainted(shape.forest, k)
        decreases capacity - depth
      {
        WalkFacts(nodes, freeHead, shape, current);
        var state := nodes[current.index].state;
        if state.revoked {
          return Err(Revoked);
        }
        depth := depth + 1;
        assert depth <= capacity;
        match state.parent
        case Some(p) =>
          current := p;
        case None =>
          if objects.TypeOf(leaf.target) != Some(leaf.kind) {
            return Err(ObjectDestroyed);
          }
          return Ok(leaf);
      }
    }

    /** Lineage test. For live nodes it is exact: the step limit never cuts the walk short. */
    method IsDescendantOf(id: NodeId, ancestor: NodeId) returns (r: bool)
      requires Sound()
      ensures r <==> id == ancestor || (Key(id).Some? && Key(ancestor).Some?
                                        && Key(id).value in shape.forest.caps
                                        && Key(ancestor).value in Lineage(shape.forest, Key(id).value))
    {
      hide Represents, WellFormed, NoGarbage, Lineage;
      Basics(nodes, freeHead, shape);
      if id == ancestor {
        LiveIds(nodes, freeHead, shape, None, id);
        return true;
      }
      LiveIds(nodes, freeHead, shape, None, ancestor);
      var current, depth := id, 0;
      if ResolvesLive(nodes, id) {
        WalkFacts(nodes, freeHead, shape, id);
      }
      while depth < capacity
        invariant current != ancestor
        invariant depth > 0 ==> ResolvesLive(nodes, current)
        invariant ResolvesLive(nodes, id) == ResolvesLive(nodes, current)
        invariant ResolvesLive(nodes, id) ==>
                    var k, top := shape.serial[current.index], shape.serial[id.index];
                    && k in shape.forest.caps && top in shape.forest.caps
                    && depth + |Lineage(shape.forest, k)| == |Lineage(shape.forest, top)|
                    && (Key(ancestor).Some? ==>
                          (Key(ancestor).value in Lineage(shape.forest, top) <==>
                           Key(ancestor).value in Lineage(shape.forest, k)))
      {
        if !ResolvesLive(nodes, current) {
          return false;
        }
        WalkFacts(nodes, freeHead, shape, current);
        var parent := nodes[current.index].state.parent;
        if parent.None? {
          return false;
        }
        if parent.value == ancestor {
          return true;
        }
        current := parent.value;
        depth := depth + 1;
      }
      if ResolvesLive(nodes, id) {
        WalkFacts(nodes, freeHead, shape, current);
      }
      return false;
    }

    // ---------- revoking ----------

    /** Depth-first search for a strict descendant that is not revoked yet. */
    method FindUnrevokedDescendant(root: NodeId) returns (r: Option<NodeId>)
      requires Sound()
      ensures Key(root).None? ==> r.None?
      ensures Key(root).Some? && r.None? ==> Pending(shape.forest, Key(root).value) == {}
      ensures r.Some? ==> Key(root).Some? && Key(r.value).Some?
                          && Key(r.value).value in Pending(shape.forest, Key(root).value)
      decreases if Key(root).Some? then shape.forest.next - Key(root).value else 0
    {
      hide Represents, WellFormed, NoGarbage, Lineage, Pending;
      Basics(nodes, freeHead, shape);
      if !ResolvesLive(nodes, root) {
        return None;
      }
      WalkFacts(nodes, freeHead, shape, root);
      ghost var k := shape.serial[root.index];
      var curr := nodes[root.index].state.firstChild;
      ghost var j := 0;
      while curr.Some?
        invariant j <= |shape.kids[k]|
        invariant if j < |shape.kids[k]| then shape.kids[k][j] < |shape.ids| && curr == Some(shape.ids[shape.kids[k][j]])
                  else curr.None?
        invariant forall i :: 0 <= i < j ==> ChildDone(shape, k, i)
        decreases |shape.kids[k]| - j
      {
        ChildFacts(nodes, freeHead, shape, k, j);
        ghost var c := shape.kids[k][j];
        ChildPending(shape.forest, k, c);
        var child := curr.value;
        if !nodes[child.index].state.revoked {
          return Some(child);
        }
        var below := FindUnrevokedDescendant(child);
        if below.Some? {
          return below;
        }
        assert ChildDone(shape, k, j);
        curr := nodes[child.index].state.nextSibling;
        j := j + 1;
      }
      AllChildrenDone(nodes, freeHead, shape, k);
      return None;
    }

    /** Revoke one pending strict descendant of `root`, if there is one, and nothing else. */
    method RevokeOneDescendant(root: NodeId) returns (r: Option<CapabilityInfo>, ghost d: nat)
      requires Valid()
      modifies this`nodes, this`shape
      ensures Valid() && |nodes| == |old(nodes)|
      ensures forall id :: Key(id) == old(Key(id))
      ensures r.None? ==> shape == old(shape) && (Key(root).Some? ==> Pending(shape.forest, Key(root).value) == {})
      ensures r.Some? ==>
                && Key(root).Some? && WasRevoked(old(shape), Key(root).value, d, r.value, shape)
                && Moves(old(Registry()), ActRevoke(d), Registry())
    {
      hide Represents, NoGarbage, Pending, WellFormed, SlotsThreaded, SlotsAged, Seated, Mirrored;
      Basics(nodes, freeHead, shape);
      d := 0;
      var found := FindUnrevokedDescendant(root);
      if found.None? {
        return None, 0;
      }
      var id := found.value;
      RevokeSound(nodes, freeHead, shape, id);
      d := shape.serial[id.index];
      ValidIsSane();
      PerformSeated(Registry(), ActRevoke(d));
      var state := nodes[id.index].state;
      nodes := nodes[id.index := nodes[id.index].(state := state.(revoked := true))];
      shape := shape.(forest := MarkRevoked(shape.forest, d));
      assert forall c :: c in spaces ==> old(Mirrors(c));
      return Some(state.info), d;
    }

    /**
      The kernel's selective teardown: revoke descendants one at a time until none is left. It stops
      after exactly as many steps as there were pending descendants. `order` is the order in which they
      were revoked: each of them once, and each reported with what it granted.
    */
    method SelectiveRevoke(root: NodeId)
      returns (infos: seq<CapabilityInfo>, ghost order: seq<nat>, ghost run: seq<Registry>)
      requires Valid()
      modifies this`nodes, this`shape
      ensures Valid() && |nodes| == |old(nodes)|
      ensures forall id :: Key(id) == old(Key(id))
      ensures Key(root).None? ==> infos == [] && order == [] && shape == old(shape)
      ensures Key(root).Some? ==>
                && WellFormed(old(shape.forest)) && WellFormed(shape.forest)
                && Distinct(order) && Elements(order) == Pending(old(shape.forest), Key(root).value)
                && Pending(shape.forest, Key(root).value) == {}
                && shape == old(shape).(forest := MarkAllRevoked(old(shape.forest), Elements(order)))
      ensures Reported(old(shape.forest), order, infos)
      ensures |run| == |order| + 1 && IsTrace(run, Revocations(order)) && run[0] == old(Registry()) && run[|order|] == Registry()
    {
      hide Represents, NoGarbage, Pending, WellFormed, MarkAllRevoked, Sound, LinkedFor, Denotes, IsTrace, Moves, TornDown;
      ValidIsSane();
      infos, order, run := [], [], [Registry()];
      ghost var k := if Key(root).Some? then Key(root).value else 0;
      TearNothing(shape, k, Registry());
      while true
        invariant Valid() && |nodes| == |old(nodes)|
        invariant forall id :: Key(id) == old(Key(id))
        invariant TornDown(old(shape), k, order, infos, shape) && (Key(root).None? ==> order == [] && shape == old(shape))
        invariant |run| == |order| + 1 && IsTrace(run, Revocations(order)) && run[0] == old(Registry()) && run[|order|] == Registry()
        decreases |Pending(old(shape.forest), k)| - |order|
      {
        ghost var last := shape;
        var info;
        ghost var d;
        info, d := RevokeOneDescendant(root);
        if info.None? {
          if Key(root).Some? {
            TornAll(old(shape), k, order, infos, shape);
          }
          TornFacts(old(shape), k, order, infos, shape);
          return;
        }
        TearOneMore(old(shape), k, order, infos, last, d, info.value, shape);
        TornFacts(old(shape), k, order + [d], infos + [info.value], shape);
        ExtendTrace(run, Revocations(order), ActRevoke(d), Registry());
        assert Revocations(order + [d]) == Revocations(order) + [ActRevoke(d)];
        infos, order, run := infos + [info.value], order + [d], run + [Registry()];
      }
    }

    // ---------- operations on capabilities ----------

    predicate HasNode()
      reads this
    {
      freeHead.Some? || |nodes| != capacity
    }

    /** Why an insertion is refused, in the order the checks are made. */
    ghost function InsertError(target: CapabilitySpace, domain: ResourceDomain): CapabilityError
      reads this, target
    {
      if target.domain != domain.id then DomainMismatch
      else if !target.HasCapacity() then SpaceFull
      else if !HasNode() then NodeCapacity
      else Resource(CapabilityLimit)
    }

    ghost predicate CanInsert(target: CapabilitySpace, domain: ResourceDomain)
      reads this, target, domain
    {
      && target.domain == domain.id && target.HasCapacity() && HasNode()
      && CanCharge(domain.View(), Amounts(0, 1, 0))
    }

    /** Create a node below its parent and put it in a slot, there being room for both. */
    method CreateIn(target: CapabilitySpace, info: CapabilityInfo, parent: Option<NodeId>, ghost above: Option<nat>)
      returns (handle: Handle)
      requires Valid() && target in spaces && target.HasCapacity() && (freeHead.Some? || |nodes| < capacity)
      requires above.Some? ==> above.value in shape.forest.caps
      requires parent == IdAt(shape, above) && CanGrow(shape.forest, above, info)
      modifies this`nodes, this`freeHead, this`shape, this`cells, this`holder, target
      ensures Valid() && target in old(cells)
      ensures Inserted(old(shape), shape, above, info, old(cells)[target], cells[target], handle)
      ensures Moves(old(Registry()), ActInsert(target, handle.slot, above, info), Registry())
      ensures target.Room() == old(target.Room()) - 1 && NodeRoom() == old(NodeRoom()) - 1
    {
      hide Represents, SlotsThreaded, SlotsAged, NoGarbage, WellFormed, CanGrow, Seated, Mirrored;
      Basics(nodes, freeHead, shape);
      var id := GrowForest(info, parent, above);
      forall c | c in spaces
        ensures Mirrors(c)
      {
        assert old(Mirrors(c));
        MirroredMore(cells[c], c.slots, c.epochs, old(shape.ids), id);
      }
      handle := Place(target, id, old(shape.forest), above, info);
    }

    /**
      Charge the domain, create a node and put it in a slot. All or nothing: with the capacity checks
      made first, neither the node allocation nor the slot insertion can fail half-way.
    */
    method InsertNew(target: CapabilitySpace, domain: ResourceDomain, info: CapabilityInfo, parent: Option<NodeId>,
                     ghost above: Option<nat>) returns (r: Result<Handle, CapabilityError>)
      requires Valid() && domain.Valid() && target in spaces
      requires above.Some? ==> above.value in shape.forest.caps
      requires parent == IdAt(shape, above) && CanGrow(shape.forest, above, info)
      modifies this`nodes, this`freeHead, this`shape, this`cells, this`holder, target, domain
      ensures Valid() && domain.Valid() && target in old(cells)
      ensures r.Ok? <==> old(CanInsert(target, domain))
      ensures r.Err? ==> r.error == old(InsertError(target, domain)) && Unmoved(target, domain)
      ensures r.Ok? ==>
                && Inserted(old(shape), shape, above, info, old(cells)[target], cells[target], r.value)
                && Moves(old(Registry()), ActInsert(target, r.value.slot, above, info), Registry())
                && domain.View() == Charged(old(domain.View()), Amounts(0, 1, 0))
                && target.Room() == old(target.Room()) - 1 && NodeRoom() == old(NodeRoom()) - 1
      ensures Slack(domain) == old(Slack(domain))
    {
      hide Represents, SlotsThreaded, SlotsAged, NoGarbage, WellFormed, CanGrow, Seated, Mirrored;
      if target.domain != domain.id {
        return Err(DomainMismatch);
      }
      if !target.HasCapacity() {
        return Err(SpaceFull);
      }
      if freeHead.None? && |nodes| == capacity {
        return Err(NodeCapacity);
      }
      var charge := domain.ChargeCapability();
      if charge.Err? {
        return Err(Resource(charge.error));
      }
      NewIsNotHeld();
      var handle := CreateIn(target, info, parent, above);
      HeldByGrow(old(holder), old(shape.forest.next), (target, handle.slot), domain.id);
      return Ok(handle);
    }

    lemma NewIsNotHeld()
      requires Valid()
      ensures shape.forest.next !in holder
    {
      hide Represents, SlotsThreaded, SlotsAged, NoGarbage;
      Basics(nodes, freeHead, shape);
    }

    /** The call changed neither the engine nor the space nor the domain. */
    twostate predicate Unmoved(target: CapabilitySpace, domain: ResourceDomain)
      reads this, target, domain
    {
      && nodes == old(nodes) && freeHead == old(freeHead) && shape == old(shape) && Registry() == old(Registry())
      && target.slots == old(target.slots) && target.Room() == old(target.Room())
      && domain.View() == old(domain.View())
    }

    /**
      Remove a handle. Its node and those ancestors that only it kept alive are freed, the slot and the
      charge are given back, and nothing else changes. Neither the accounting nor the release can fail.
    */
    method Delete(space: CapabilitySpace, domain: ResourceDomain, handle: Handle) returns (r: Result<(), CapabilityError>)
      requires Valid() && domain.Valid() && space in spaces
      requires Slack(domain) >= 0
      modifies this`nodes, this`freeHead, this`shape, this`cells, this`holder, space, domain
      ensures Valid() && domain.Valid() && space in old(cells)
      ensures space.domain != domain.id ==> r == Err(DomainMismatch)
      ensures space.domain == domain.id ==>
                && (r.Ok? <==> old(space.NodeFor(handle)).Ok?)
                && (r.Err? ==> r.error == old(space.NodeFor(handle)).error)
      ensures r.Err? ==>
                && nodes == old(nodes) && shape == old(shape) && Registry() == old(Registry())
                && space.slots == old(space.slots) && domain.View() == old(domain.View())
      ensures r.Ok? ==>
                && Leads(old(cells)[space], handle).Some?
                && Moves(old(Registry()), ActRemove(space, handle.slot), Registry())
                && Sized(old(shape)) && Sized(shape) && Trimmed(old(shape), shape)
                && Amounts(0, 1, 0).Within(old(domain.View()).usage)
                && domain.View() == Released(old(domain.View()), Amounts(0, 1, 0))
      ensures Slack(domain) == old(Slack(domain))
    {
      hide Represents, SlotsThreaded, SlotsAged, NoGarbage, WellFormed, Seated, Mirrored, DeleteHeld;
      if space.domain != domain.id {
        return Err(DomainMismatch);
      }
      ghost var k;
      var node;
      node, k := Displace(space, handle);
      if node.Err? {
        return Err(node.error);
      }
      HeldByShrink(old(holder), k, domain.id);
      var release := domain.ReleaseCapability();
      assert release.Ok?;
      Relinquish(node.value, k);
      return Ok(());
    }

    /** A capability with no parent, for a live object of the stated kind. */
    method InsertRoot(target: CapabilitySpace, domain: ResourceDomain, id: ObjectId, kind: ObjectType, rights: Rights,
                      objects: Objects.ObjectArena) returns (r: Result<Handle, CapabilityError>)
      requires Valid() && domain.Valid() && target in spaces
      modifies this`nodes, this`freeHead, this`shape, this`cells, this`holder, target, domain
      ensures Valid() && domain.Valid() && target in old(cells)
      ensures r.Ok? <==> old(objects.TypeOf(id)) == Some(kind) && old(CanInsert(target, domain))
      ensures r.Err? ==>
                && r.error == (if target.domain == domain.id && old(objects.TypeOf(id)) != Some(kind) then ObjectDestroyed
                               else old(InsertError(target, domain)))
                && Unmoved(target, domain)
      ensures r.Ok? ==>
                && Inserted(old(shape), shape, None, CapabilityInfo(id, kind, rights), old(cells)[target], cells[target], r.value)
                && Moves(old(Registry()), ActInsert(target, r.value.slot, None, CapabilityInfo(id, kind, rights)), Registry())
                && domain.View() == Charged(old(domain.View()), Amounts(0, 1, 0))
      ensures Slack(domain) == old(Slack(domain))
    {
      hide Inserted, Moves, LinkedFor, Sound;
      ValidIsSane();
      if target.domain != domain.id {
        return Err(DomainMismatch);
      }
      if objects.TypeOf(id) != Some(kind) {
        return Err(ObjectDestroyed);
      }
      r := InsertNew(target, domain, CapabilityInfo(id, kind, rights), None, None);
    }

    /** The outcome of validating what a handle leads to. */
    ghost function HandleVerdict(space: CapabilitySpace, handle: Handle, objects: Objects.ObjectArena)
      : Result<CapabilityInfo, CapabilityError>
      requires Sound()
      reads this, space, objects
    {
      match space.NodeFor(handle)
      case Err(e) => Err(e)
      case Ok(id) => Verdict(id, objects)
    }

    /** Validation depends on the registry alone, and on whether the object is still there. */
    lemma VerdictIsAnswer(space: CapabilitySpace, handle: Handle, objects: Objects.ObjectArena)
      requires Valid() && space in spaces
      ensures Sane(Registry()) && space in cells
      ensures HandleVerdict(space, handle, objects) == Answer(Registry(), space, handle, objects)
    {
      hide Represents, SlotsThreaded, SlotsAged, NoGarbage, WellFormed, Seated, Mirrored;
      NodeForLeads(space, handle);
      ValidIsSane();
    }

    ghost predicate CanDerive(source: CapabilitySpace, handle: Handle, rights: Rights, objects: Objects.ObjectArena)
      requires Sound()
      reads this, source, objects
    {
      var verdict := HandleVerdict(source, handle, objects);
      verdict.Ok? && IsSubsetOf(rights, verdict.value.rights)
    }

    /** Why a derivation is refused, in the order the checks are made. */
    ghost function DeriveError(source: CapabilitySpace, handle: Handle, rights: Rights, objects: Objects.ObjectArena,
                               target: CapabilitySpace, domain: ResourceDomain): CapabilityError
      requires Sound()
      reads this, source, target, objects
    {
      var verdict := HandleVerdict(source, handle, objects);
      if verdict.Err? then verdict.error
      else if !IsSubsetOf(rights, verdict.value.rights) then RightsEscalation
      else InsertError(target, domain)
    }

    /** A valid verdict licenses derivation below the node with any subset of its rights. */
    lemma VerdictAllows(id: NodeId, objects: Objects.ObjectArena)
      requires Sound() && Verdict(id, objects).Ok?
      ensures WellFormed(shape.forest) && Key(id).Some? && Key(id).value in shape.forest.caps
      ensures IdAt(shape, Key(id)) == Some(id)
      ensures !Tainted(shape.forest, Key(id).value)
      ensures Verdict(id, objects).value == shape.forest.caps[Key(id).value].info
    {
      LiveIds(nodes, freeHead, shape, None, id);
    }

    /** Derive a narrower capability from a valid one into another space. */
    method Derive(source: CapabilitySpace, handle: Handle, target: CapabilitySpace, domain: ResourceDomain, rights: Rights,
                  objects: Objects.ObjectArena) returns (r: Result<Handle, CapabilityError>)
      requires Valid() && domain.Valid() && source in spaces && target in spaces && source != target
      modifies this`nodes, this`freeHead, this`shape, this`cells, this`holder, target, domain
      ensures Valid() && domain.Valid() && source in old(cells) && target in old(cells)
      ensures r.Ok? <==> old(CanDerive(source, handle, rights, objects)) && old(CanInsert(target, domain))
      ensures r.Err? ==> r.error == old(DeriveError(source, handle, rights, objects, target, domain)) && Unmoved(target, domain)
      ensures old(HandleVerdict(source, handle, objects)).Ok? ==>
                var granted := old(HandleVerdict(source, handle, objects)).value.rights;
                && (r.Ok? ==> !Exceeds(rights, granted))
                && (r == Err(RightsEscalation) <==> Exceeds(rights, granted))
      ensures r.Ok? ==>
                && var info := old(HandleVerdict(source, handle, objects)).value.(rights := rights);
                && var above := Leads(old(cells)[source], handle);
                && Inserted(old(shape), shape, above, info, old(cells)[target], cells[target], r.value)
                && Moves(old(Registry()), ActInsert(target, r.value.slot, above, info), Registry())
                && domain.View() == Charged(old(domain.View()), Amounts(0, 1, 0))
                && target.Room() == old(target.Room()) - 1 && NodeRoom() == old(NodeRoom()) - 1
      ensures Slack(domain) == old(Slack(domain))
    {
      hide Represents, SlotsThreaded, SlotsAged, NoGarbage, WellFormed, Seated, Mirrored, Inserted, Moves, Verdict, LinkedFor, Exceeds, IsSubsetOf;
      ValidIsSane();
      var parent := source.NodeFor(handle);
      if parent.Err? {
        return Err(parent.error);
      }
      var info := ValidateNode(parent.value, objects);
      if info.Err? {
        return Err(info.error);
      }
      SubsetBits(rights, info.value.rights);
      if !IsSubsetOf(rights, info.value.rights) {
        return Err(RightsEscalation);
      }
      VerdictAllows(parent.value, objects);
      NodeForLeads(source, handle);
      r := InsertNew(target, domain, info.value.(rights := rights), Some(parent.value), Key(parent.value));
    }

    /** Insert a capability for a possibly different object below a given node. */
    method InsertDescendant(parent: NodeId, target: CapabilitySpace, domain: ResourceDomain, id: ObjectId, kind: ObjectType,
                            rights: Rights, objects: Objects.ObjectArena) returns (r: Result<Handle, CapabilityError>)
      requires Valid() && domain.Valid() && target in spaces
      modifies this`nodes, this`freeHead, this`shape, this`cells, this`holder, target, domain
      ensures Valid() && domain.Valid() && target in old(cells)
      ensures r.Ok? <==> old(objects.TypeOf(id)) == Some(kind) && old(Verdict(parent, objects)).Ok?
                         && IsSubsetOf(rights, old(Verdict(parent, objects)).value.rights) && old(CanInsert(target, domain))
      ensures r.Err? ==>
                && Unmoved(target, domain)
                && r.error == (if target.domain != domain.id then DomainMismatch
                               else if old(objects.TypeOf(id)) != Some(kind) then ObjectDestroyed
                               else if old(Verdict(parent, objects)).Err? then old(Verdict(parent, objects)).error
                               else if !IsSubsetOf(rights, old(Verdict(parent, objects)).value.rights) then RightsEscalation
                               else old(InsertError(target, domain)))
      ensures old(Verdict(parent, objects)).Ok? ==>
                var granted := old(Verdict(parent, objects)).value.rights;
                && (r.Ok? ==> !Exceeds(rights, granted))
                && (r == Err(RightsEscalation) <==>
                      target.domain == domain.id && old(objects.TypeOf(id)) == Some(kind) && Exceeds(rights, granted))
      ensures r.Ok? ==>
                && Inserted(old(shape), shape, old(Key(parent)), CapabilityInfo(id, kind, rights),
                            old(cells)[target], cells[target], r.value)
                && Moves(old(Registry()), ActInsert(target, r.value.slot, old(Key(parent)), CapabilityInfo(id, kind, rights)), Registry())
                && domain.View() == Charged(old(domain.View()), Amounts(0, 1, 0))
      ensures Slack(domain) == old(Slack(domain))
    {
      hide Represents, SlotsThreaded, SlotsAged, NoGarbage, WellFormed, Seated, Mirrored, Inserted, Moves, Verdict, LinkedFor, Exceeds, IsSubsetOf;
      ValidIsSane();
      if target.domain != domain.id {
        return Err(DomainMismatch);
      }
      if objects.TypeOf(id) != Some(kind) {
        return Err(ObjectDestroyed);
      }
      var info := ValidateNode(parent, objects);
      if info.Err? {
        return Err(info.error);
      }
      SubsetBits(rights, info.value.rights);
      if !IsSubsetOf(rights, info.value.rights) {
        return Err(RightsEscalation);
      }
      VerdictAllows(parent, objects);
      r := InsertNew(target, domain, CapabilityInfo(id, kind, rights), Some(parent), Key(parent));
    }

    /** Resolve a handle to an object of the required kind with the required rights. */
    method Lookup(space: CapabilitySpace, handle: Handle, kind: ObjectType, required: Rights, objects: Objects.ObjectArena)
      returns (r: Result<ObjectId, CapabilityError>)
      requires Valid() && space in spaces
      ensures match HandleVerdict(space, handle, objects)
        case Err(e) => r == Err(e)
        case Ok(info) =>
          if info.kind != kind then r == Err(TypeMismatch)
          else if Exceeds(required, info.rights) then r == Err(RightsDenied)
          else r == Ok(info.target) && required & info.rights == required
    {
      hide Represents, SlotsThreaded, SlotsAged, NoGarbage, WellFormed, Exceeds;
      var node := space.NodeFor(handle);
      if node.Err? {
        return Err(node.error);
      }
      var info := ValidateNode(node.value, objects);
      if info.Err? {
        return Err(info.error);
      }
      if info.value.kind != kind {
        return Err(TypeMismatch);
      }
      SubsetBits(required, info.value.rights);
      if !Contains(info.value.rights, required) {
        return Err(RightsDenied);
      }
      return Ok(info.value.target);
    }

    /** Revoke the node a manageable, valid handle leads to. No slot and no other node changes. */
    method Revoke(space: CapabilitySpace, handle: Handle, objects: Objects.ObjectArena)
      returns (r: Result<CapabilityInfo, CapabilityError>)
      requires Valid() && space in spaces
      modifies this`nodes, this`shape
      ensures Valid() && (forall id :: Key(id) == old(Key(id)))
      ensures r.Ok? <==> old(HandleVerdict(space, handle, objects)).Ok?
                         && Has(old(HandleVerdict(space, handle, objects)).value.rights, 6)
      ensures r.Err? ==>
                && nodes == old(nodes) && shape == old(shape)
                && r.error == (if old(HandleVerdict(space, handle, objects)).Err?
                               then old(HandleVerdict(space, handle, objects)).error else RightsDenied)
      ensures r.Ok? ==>
                && r == old(HandleVerdict(space, handle, objects))
                && space in cells && Leads(cells[space], handle).Some?
                && var k := Leads(cells[space], handle).value;
                && k in old(shape.forest).caps
                && shape == old(shape).(forest := MarkRevoked(old(shape.forest), k))
                && Moves(old(Registry()), ActRevoke(k), Registry())
                && forall c, h :: c in spaces ==>
                     HandleVerdict(c, h, objects) ==
                       if LeadsBelow(old(Registry()), c, h, k) then Err(Revoked) else old(HandleVerdict(c, h, objects))
    {
      hide Represents, SlotsThreaded, SlotsAged, NoGarbage, WellFormed, Seated, Mirrored, Answer, LeadsBelow, Lineage, Has;
      var node := space.NodeFor(handle);
      if node.Err? {
        return Err(node.error);
      }
      var info := ValidateNode(node.value, objects);
      if info.Err? {
        return Err(info.error);
      }
      ManageBit(info.value.rights);
      if !Contains(info.value.rights, MANAGE) {
        return Err(RightsDenied);
      }
      var id := node.value;
      NodeForLeads(space, handle);
      VerdictAllows(id, objects);
      RevokeSound(nodes, freeHead, shape, id);
      ghost var k := shape.serial[id.index];
      ValidIsSane();
      PerformSeated(Registry(), ActRevoke(k));
      forall c, h | c in spaces
        ensures c in cells && HandleVerdict(c, h, objects) == Answer(Registry(), c, h, objects)
      {
        VerdictIsAnswer(c, h, objects);
      }
      nodes := nodes[id.index := nodes[id.index].(state := nodes[id.index].state.(revoked := true))];
      shape := shape.(forest := MarkRevoked(shape.forest, k));
      assert forall c :: c in spaces ==> old(Mirrors(c));
      forall c, h | c in spaces
        ensures HandleVerdict(c, h, objects) ==
                  if LeadsBelow(old(Registry()), c, h, k) then Err(Revoked) else old(HandleVerdict(c, h, objects))
      {
        VerdictIsAnswer(c, h, objects);
        RevokeAnswer(old(Registry()), k, Registry(), c, h, objects);
        assert old(HandleVerdict(c, h, objects)) == Answer(old(Registry()), c, h, objects);
      }
      return Ok(info.value);
    }
  }
}
