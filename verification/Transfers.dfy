/** Message transfers: several capabilities move in one transaction, or none does. */
module Transfers {
  import opened Common
  import opened Abi
  import opened Generations
  import opened Resources
  import Objects
  import opened Derivation
  import opened NodeTable
  import opened NodeLinks
  import opened CapabilitySpaces
  import opened Registries
  import opened CapabilitySystems

  const MAX_CAPABILITY_TRANSFERS: nat := 2

  datatype TransferDescriptor = TransferDescriptor(handle: Handle, narrowedRights: Rights)

  // ---------- what a transaction has added so far ----------

  /** `f` is `f0` plus the nodes numbered `lo` to `hi`: held leaves below held nodes of `f0`. */
  ghost predicate AddedNodes(f0: Forest, f: Forest, lo: nat, hi: nat) {
    && f0.held <= f0.caps.Keys
    && f0.next <= lo <= hi == f.next
    && (forall k :: k in f.caps <==> k in f0.caps || lo <= k < hi)
    && (forall k :: k in f0.caps ==> k < f0.next && f.caps[k] == f0.caps[k])
    && (forall k :: k in f.held <==> k in f0.held || lo <= k < hi)
    && (forall k {:trigger BelowHeld(f0, f, k)} :: lo <= k < hi ==> BelowHeld(f0, f, k))
  }

  ghost predicate BelowHeld(f0: Forest, f: Forest, k: nat) {
    k in f.caps && f.caps[k].parent.Some? && f.caps[k].parent.value in f0.held
  }

  /** Restricted to the nodes of `s0`, ids and child lists are as they were. */
  ghost predicate AddedLists(s0: Shape, s: Shape) {
    && Sized(s0) && Sized(s)
    && |s0.ids| <= |s.ids| && (forall k :: 0 <= k < |s0.ids| ==> s.ids[k] == s0.ids[k])
    && (forall p {:trigger s.kids[p]} :: p in s0.forest.caps ==>
          p < |s.kids| && Survivors(s.kids[p], s0.forest.caps.Keys) == s0.kids[p])
  }

  ghost predicate Added(s0: Shape, s: Shape, lo: nat, hi: nat) {
    AddedNodes(s0.forest, s.forest, lo, hi) && AddedLists(s0, s)
  }

  lemma AddedNothing(s: Shape)
    requires WellFormed(s.forest) && Sized(s) && Enlisted(s)
    ensures Added(s, s, s.forest.next, s.forest.next)
  {
    TrimmedRefl(s);
  }

  lemma GrowNodes(f0: Forest, f: Forest, lo: nat, hi: nat, p: nat, info: CapabilityInfo)
    requires AddedNodes(f0, f, lo, hi) && p in f0.held
    ensures AddedNodes(f0, Grow(f, Some(p), info), lo, hi + 1)
  {
    var g := Grow(f, Some(p), info);
    forall k | lo <= k < hi + 1
      ensures BelowHeld(f0, g, k)
    {
      assert k < hi ==> BelowHeld(f0, f, k);
    }
  }

  lemma GrowLists(s0: Shape, s: Shape, p: nat, info: CapabilityInfo, id: NodeId)
    requires AddedLists(s0, s) && p in s.forest.caps && id.index <= |s.serial|
    requires s0.forest.next <= s.forest.next
    ensures AddedLists(s0, GrowShape(s, Some(p), info, id))
  {
    var t := GrowShape(s, Some(p), info, id);
    forall q | q in s0.forest.caps
      ensures Survivors(t.kids[q], s0.forest.caps.Keys) == s0.kids[q]
    {
      assert Survivors(s.kids[q], s0.forest.caps.Keys) == s0.kids[q];
      if q == p {
        assert ([s.forest.next] + s.kids[p])[1..] == s.kids[p];
      }
    }
  }

  /** Giving up the oldest addition frees exactly that node: its parent is still held. */
  lemma DeleteNodes(f0: Forest, f: Forest, lo: nat, hi: nat)
    requires AddedNodes(f0, f, lo, hi) && lo < hi && WellFormed(f)
    ensures DeleteHeld(f, lo) == Unhold(f, lo).(caps := f.caps - {lo})
    ensures AddedNodes(f0, DeleteHeld(f, lo), lo + 1, hi)
  {
    var g := Unhold(f, lo);
    assert BelowHeld(f0, f, lo);
    NoChildOfAddition(f0, f, lo, hi, lo);
    UnholdWellFormed(f, lo);
    assert !HasChild(g, lo) by {
      assert forall c: nat :: IsChild(g, c, lo) ==> IsChild(f, c, lo);
    }
    var h := g.(caps := g.caps - {lo});
    RemoveLeafWellFormed(g, lo);
    assert ChildOk(g, lo);
    assert Prune(h, g.caps[lo].parent.value) == h;
    assert DeleteHeld(f, lo) == h;
    forall k | lo + 1 <= k < hi
      ensures BelowHeld(f0, h, k)
    {
      assert BelowHeld(f0, f, k);
    }
  }

  lemma NoChildOfAddition(f0: Forest, f: Forest, lo: nat, hi: nat, k: nat)
    requires AddedNodes(f0, f, lo, hi) && lo <= k < hi && WellFormed(f)
    ensures !HasChild(f, k)
  {
    forall c: nat
      ensures !IsChild(f, c, k)
    {
      if c in f.caps && f.caps[c].parent.Some? {
        assert ChildOk(f, c);
        if c !in f0.caps {
          assert BelowHeld(f0, f, c);
        }
      }
    }
  }

  lemma DeleteLists(s0: Shape, s: Shape, t: Shape)
    requires AddedLists(s0, s) && Sized(t) && Trimmed(s, t)
    requires s0.forest.caps.Keys <= t.forest.caps.Keys
    ensures AddedLists(s0, t)
  {
    forall p | p in s0.forest.caps
      ensures Survivors(t.kids[p], s0.forest.caps.Keys) == s0.kids[p]
    {
      assert Survivors(s.kids[p], s0.forest.caps.Keys) == s0.kids[p];
      SurvivorsTwice(s.kids[p], t.forest.caps.Keys, s0.forest.caps.Keys);
    }
  }

  /** When nothing added remains, every record is the one it was. */
  lemma AddedGone(s0: Shape, s: Shape, hi: nat, k: nat)
    requires Added(s0, s, hi, hi) && Listed(s0) && Listed(s) && WellFormed(s0.forest)
    requires k in s0.forest.caps
    ensures Record(s, None, k) == Record(s0, None, k)
  {
    hide Listed, WellFormed, Survivors;
    SameKids(s0, s, hi, k);
    SameSibling(s0, s, hi, k);
    LinksAlive(s0, k);
    SameRecord(s0, s, k);
  }

  /** The links of a live node lead to live nodes. */
  lemma LinksAlive(s: Shape, k: nat)
    requires WellFormed(s.forest) && Sized(s) && Listed(s) && k in s.forest.caps
    ensures s.forest.caps[k].parent.Some? ==> s.forest.caps[k].parent.value in s.forest.caps
    ensures s.kids[k] != [] ==> s.kids[k][0] in s.forest.caps
    ensures s.sib[k].Some? ==> s.sib[k].value in s.forest.caps
  {
    assert s.kids[k] != [] ==> IsChild(s.forest, s.kids[k][0], k);
    assert s.forest.caps[k].parent.Some? ==> ChildOk(s.forest, k);
    assert SiblingOk(s, k);
  }

  lemma SameRecord(s0: Shape, s: Shape, k: nat)
    requires Sized(s0) && Sized(s) && k in s0.forest.caps && k in s.forest.caps
    requires s.forest.caps[k] == s0.forest.caps[k] && (k in s.forest.held <==> k in s0.forest.held)
    requires s.ids[k] == s0.ids[k] && s.kids[k] == s0.kids[k] && s.sib[k] == s0.sib[k]
    requires IdAt(s, s0.forest.caps[k].parent) == IdAt(s0, s0.forest.caps[k].parent)
    requires IdAt(s, s0.sib[k]) == IdAt(s0, s0.sib[k])
    requires IdAt(s, First(s0.kids[k])) == IdAt(s0, First(s0.kids[k]))
    ensures Record(s, None, k) == Record(s0, None, k)
  {
  }

  lemma SameSibling(s0: Shape, s: Shape, hi: nat, k: nat)
    requires Added(s0, s, hi, hi) && Listed(s0) && Listed(s) && WellFormed(s0.forest)
    requires k in s0.forest.caps
    ensures s.sib[k] == s0.sib[k]
  {
    assert SiblingOk(s0, k) && SiblingOk(s, k);
    if s0.forest.caps[k].parent.Some? {
      assert ChildOk(s0.forest, k);
      var p := s0.forest.caps[k].parent.value;
      SameKids(s0, s, hi, p);
      assert IsChild(s0.forest, k, p);
      var j :| 0 <= j < |s0.kids[p]| && s0.kids[p][j] == k;
      assert SiblingAt(s0, p, j) && SiblingAt(s, p, j);
    }
  }

  lemma SameKids(s0: Shape, s: Shape, hi: nat, p: nat)
    requires Added(s0, s, hi, hi) && Listed(s) && p in s0.forest.caps
    ensures s.kids[p] == s0.kids[p] && s.ids[p] == s0.ids[p]
  {
    assert Survivors(s.kids[p], s0.forest.caps.Keys) == s0.kids[p];
    assert s.forest.caps.Keys == s0.forest.caps.Keys;
    forall c | c in s.kids[p]
      ensures c in s0.forest.caps
    {
      assert IsChild(s.forest, c, p);
    }
    SurvivorsAll(s.kids[p], s0.forest.caps.Keys);
  }

  lemma DeleteAdded(s0: Shape, s: Shape, lo: nat, hi: nat, t: Shape)
    requires Added(s0, s, lo, hi) && lo < hi && WellFormed(s.forest)
    requires Sized(t) && t.forest == DeleteHeld(s.forest, lo) && Trimmed(s, t)
    ensures Added(s0, t, lo + 1, hi)
  {
    DeleteNodes(s0.forest, s.forest, lo, hi);
    DeleteLists(s0, s, t);
  }

  // ---------- the transaction ----------

  /** Take back one capability of a failed transaction. The deletion cannot fail. */
  method TakeBack(handle: Handle, system: CapabilitySystem, target: CapabilitySpace, domain: ResourceDomain,
                  ghost s0: Shape, ghost lo: nat, ghost hi: nat)
    requires system.Valid() && domain.Valid() && target in system.cells && target.domain == domain.id
    requires Leads(system.cells[target], handle) == Some(lo)
    requires system.Slack(domain) >= 0
    requires Added(s0, system.shape, lo, hi) && lo < hi
    modifies system`nodes, system`freeHead, system`shape, system`cells, system`holder, target, domain
    ensures system.Valid() && domain.Valid() && system.Slack(domain) == old(system.Slack(domain))
    ensures Added(s0, system.shape, lo + 1, hi) && system.shape.ids == old(system.shape).ids
    ensures target in system.cells && HandlesLess(old(system.cells)[target], system.cells[target], [handle])
    ensures 1 <= old(domain.capabilities) && domain.View() == Less(old(domain.View()), 1)
    ensures Moves(old(system.Registry()), ActRemove(target, handle.slot), system.Registry())
    ensures system.holder == old(system.holder) - {lo}
  {
    hide Represents, SlotsThreaded, SlotsAged, NoGarbage, WellFormed, Seated, AddedNodes, AddedLists, Trimmed, Mirrored;
    system.NodeForLeads(target, handle);
    ghost var before := system.cells[target];
    var r := system.Delete(target, domain, handle);
    DeleteAdded(s0, old(system.shape), lo, hi, system.shape);
    TrimmedIds(old(system.shape), system.shape);
    EmptiedLeads(before, handle);
  }

  lemma EmptiedLeads(cells: seq<Cell>, handle: Handle)
    requires Leads(cells, handle).Some?
    ensures HandlesLess(cells, Emptied(cells, handle.slot), [handle])
  {
    NextGenerationAdvances(cells[handle.slot].epoch);
    SameGenerationIffWrapped(cells[handle.slot].epoch, cells[handle.slot].epoch + 1);
  }

  /** `v` with `n` fewer capabilities charged. */
  ghost function Less(v: Account, n: nat): Account
    requires n <= v.usage.capabilities
  {
    v.(usage := v.usage.(capabilities := v.usage.capabilities - n))
  }

  /** The removals of a rollback. */
  ghost function Removals(target: CapabilitySpace, handles: seq<Handle>): seq<Act> {
    seq(|handles|, i requires 0 <= i < |handles| => ActRemove(target, handles[i].slot))
  }

  /** Take back the capabilities of a failed transaction, oldest first. */
  method Rollback(committed: seq<Handle>, system: CapabilitySystem, target: CapabilitySpace, domain: ResourceDomain,
                  ghost s0: Shape) returns (ghost run: seq<Registry>)
    requires system.Valid() && domain.Valid() && target in system.cells
    requires system.Slack(domain) >= 0 && (committed != [] ==> target.domain == domain.id)
    requires Added(s0, system.shape, s0.forest.next, s0.forest.next + |committed|)
    requires Distinct(committed)
    requires forall j :: 0 <= j < |committed| ==> Leads(system.cells[target], committed[j]) == Some(s0.forest.next + j)
    modifies system`nodes, system`freeHead, system`shape, system`cells, system`holder, target, domain
    ensures system.Valid() && domain.Valid() && system.Slack(domain) == old(system.Slack(domain))
    ensures Added(s0, system.shape, s0.forest.next + |committed|, s0.forest.next + |committed|)
    ensures target in system.cells && system.cells == old(system.cells)[target := system.cells[target]]
    ensures HandlesLess(old(system.cells)[target], system.cells[target], committed)
    ensures |committed| <= old(domain.capabilities) && domain.View() == Less(old(domain.View()), |committed|)
    ensures HolderLess(old(system.holder), system.holder, s0.forest.next, |committed|)
    ensures |run| == |committed| + 1 && IsTrace(run, Removals(target, committed))
    ensures run[0] == old(system.Registry()) && run[|committed|] == system.Registry()
  {
    hide CapabilitySystem.Valid, WellFormed, Added, HandlesLess, HolderLess, Moves, IsTrace, Leads, Removals, Undone;
    ghost var r0, hi := system.Registry(), s0.forest.next + |committed|;
    run := [r0];
    system.ValidIsSane();
    NoRemovals(target, committed[..0]);
    StartTrace(r0, Removals(target, committed[..0]));
    NothingUndone(s0, system.shape, r0, target, committed);
    for i := 0 to |committed|
      invariant system.Valid() && domain.Valid() && system.Slack(domain) == old(system.Slack(domain))
      invariant Undone(s0, system.shape, r0, system.Registry(), target, committed, i)
      invariant i <= old(domain.capabilities) && domain.View() == Less(old(domain.View()), i)
      invariant |run| == i + 1 && IsTrace(run, Removals(target, committed[..i]))
      invariant run[0] == r0 && run[i] == system.Registry()
    {
      ghost var r, before := system.Registry(), system.shape;
      UndoneFacts(s0, system.shape, r0, r, target, committed, i);
      TakeBack(committed[i], system, target, domain, s0, s0.forest.next + i, hi);
      UndoOne(s0, before, system.shape, r0, r, system.Registry(), target, committed, i);
      RemoveMore(run, target, committed, i, system.Registry());
      run := run + [system.Registry()];
    }
    AllUndone(s0, system.shape, r0, system.Registry(), target, committed);
    assert committed[..|committed|] == committed;
  }

  /** After `i` of the additions were taken back. */
  ghost predicate Undone(s0: Shape, s: Shape, r0: Registry, r: Registry, target: CapabilitySpace, handles: seq<Handle>, i: nat) {
    && i <= |handles| && Added(s0, s, s0.forest.next + i, s0.forest.next + |handles|)
    && target in r0.cells && target in r.cells && r.cells == r0.cells[target := r.cells[target]]
    && HandlesLess(r0.cells[target], r.cells[target], handles[..i])
    && HolderLess(r0.holder, r.holder, s0.forest.next, i)
    && Distinct(handles) && (forall j :: 0 <= j < |handles| ==> Leads(r0.cells[target], handles[j]) == Some(s0.forest.next + j))
  }

  lemma NothingUndone(s0: Shape, s: Shape, r: Registry, target: CapabilitySpace, handles: seq<Handle>)
    requires Added(s0, s, s0.forest.next, s0.forest.next + |handles|) && target in r.cells && Distinct(handles)
    requires forall j :: 0 <= j < |handles| ==> Leads(r.cells[target], handles[j]) == Some(s0.forest.next + j)
    ensures Undone(s0, s, r, r, target, handles, 0)
  {
    hide Added, Leads;
    NothingLess(r.cells[target], r.holder, s0.forest.next);
    assert handles[..0] == [] && r.cells == r.cells[target := r.cells[target]];
  }

  lemma UndoneFacts(s0: Shape, s: Shape, r0: Registry, r: Registry, target: CapabilitySpace, handles: seq<Handle>, i: nat)
    requires Undone(s0, s, r0, r, target, handles, i) && i < |handles|
    ensures Added(s0, s, s0.forest.next + i, s0.forest.next + |handles|)
    ensures target in r.cells && Leads(r.cells[target], handles[i]) == Some(s0.forest.next + i)
  {
    hide Added, Leads, HandlesLess;
    StillThere(r0.cells[target], r.cells[target], handles, i);
  }

  lemma UndoOne(s0: Shape, before: Shape, s: Shape, r0: Registry, r: Registry, r': Registry, target: CapabilitySpace, handles: seq<Handle>, i: nat)
    requires Undone(s0, before, r0, r, target, handles, i)
    requires i < |handles| && Added(s0, s, s0.forest.next + i + 1, s0.forest.next + |handles|)
    requires target in r.cells && target in r'.cells && HandlesLess(r.cells[target], r'.cells[target], [handles[i]])
    requires r'.holder == r.holder - {s0.forest.next + i} && Moves(r, ActRemove(target, handles[i].slot), r')
    ensures Undone(s0, s, r0, r', target, handles, i + 1)
  {
    hide Added, Leads, HandlesLess, HolderLess, Moves;
    RemovedCells(r, target, handles[i].slot, r');
    OneLess(r0.cells[target], r.cells[target], r'.cells[target], handles, i);
    HolderOneLess(r0.holder, r.holder, s0.forest.next, i);
  }

  lemma AllUndone(s0: Shape, s: Shape, r0: Registry, r: Registry, target: CapabilitySpace, handles: seq<Handle>)
    requires Undone(s0, s, r0, r, target, handles, |handles|)
    ensures Added(s0, s, s0.forest.next + |handles|, s0.forest.next + |handles|)
    ensures target in r0.cells && target in r.cells && r.cells == r0.cells[target := r.cells[target]]
    ensures HandlesLess(r0.cells[target], r.cells[target], handles) && HolderLess(r0.holder, r.holder, s0.forest.next, |handles|)
  {
    hide Added, Leads, HandlesLess, HolderLess;
    assert handles[..|handles|] == handles;
  }

  lemma NoRemovals(target: CapabilitySpace, handles: seq<Handle>)
    requires handles == []
    ensures Removals(target, handles) == []
  {
  }

  lemma StartTrace(r: Registry, acts: seq<Act>)
    requires Sane(r) && acts == []
    ensures IsTrace([r], acts)
  {
  }

  /** A removal changes the cells of one space. */
  lemma RemovedCells(r: Registry, target: CapabilitySpace, slot: nat, s: Registry)
    requires Moves(r, ActRemove(target, slot), s)
    ensures target in s.cells && target in r.cells && s.cells == r.cells[target := s.cells[target]]
  {
  }

  lemma InsertedCells(r: Registry, target: CapabilitySpace, slot: nat, parent: Option<nat>, info: CapabilityInfo, s: Registry)
    requires Moves(r, ActInsert(target, slot, parent, info), s)
    ensures target in s.cells && target in r.cells && s.cells == r.cells[target := s.cells[target]]
    ensures s.holder == r.holder[r.forest.next := (target, slot)] && r.forest.next !in r.holder
  {
  }

  /** The handles in `gone` no longer lead anywhere; all others lead where they did. */
  ghost predicate HandlesLess(cells0: seq<Cell>, cells: seq<Cell>, gone: seq<Handle>) {
    forall h :: Leads(cells, h) == if h in gone then None else Leads(cells0, h)
  }

  /** The holders without those of the nodes from `first` on. */
  ghost predicate HolderLess(holder0: Holder, holder: Holder, first: nat, n: nat) {
    && (forall k :: k in holder <==> k in holder0 && !(first <= k < first + n))
    && (forall k :: k in holder ==> holder[k] == holder0[k])
  }

  lemma NothingLess(cells: seq<Cell>, holder: Holder, first: nat)
    ensures HandlesLess(cells, cells, []) && HolderLess(holder, holder, first, 0)
  {
  }

  lemma StillThere(cells0: seq<Cell>, cells: seq<Cell>, committed: seq<Handle>, i: nat)
    requires Distinct(committed) && i < |committed| && HandlesLess(cells0, cells, committed[..i])
    ensures Leads(cells, committed[i]) == Leads(cells0, committed[i])
  {
    assert committed[i] !in committed[..i];
  }

  lemma OneLess(cells0: seq<Cell>, cells: seq<Cell>, after: seq<Cell>, committed: seq<Handle>, i: nat)
    requires i < |committed| && HandlesLess(cells0, cells, committed[..i]) && HandlesLess(cells, after, [committed[i]])
    ensures HandlesLess(cells0, after, committed[..i + 1])
  {
    assert committed[..i + 1] == committed[..i] + [committed[i]];
  }

  lemma HolderOneLess(holder0: Holder, holder: Holder, first: nat, n: nat)
    requires HolderLess(holder0, holder, first, n)
    ensures HolderLess(holder0, holder - {first + n}, first, n + 1)
  {
  }

  datatype PreparedTransfer = PreparedTransfer(handle: Handle, rights: Rights)

  /** Why one transfer cannot be prepared. */
  ghost function Refusal(system: CapabilitySystem, source: CapabilitySpace, handle: Handle, rights: Rights,
                         objects: Objects.ObjectArena): CapabilityError
    requires system.Sound()
    reads system, source, objects
  {
    var verdict := system.HandleVerdict(source, handle, objects);
    if verdict.Err? then verdict.error else RightsEscalation
  }

  /** Descriptor `i` is the first that cannot be prepared. */
  ghost predicate FirstRefusal(descriptors: seq<TransferDescriptor>, system: CapabilitySystem, source: CapabilitySpace,
                               objects: Objects.ObjectArena, i: int)
    requires system.Sound()
    reads system, source, objects
  {
    && 0 <= i < |descriptors|
    && !system.CanDerive(source, descriptors[i].handle, descriptors[i].narrowedRights, objects)
    && forall j :: 0 <= j < i ==> system.CanDerive(source, descriptors[j].handle, descriptors[j].narrowedRights, objects)
  }

  /** Check every descriptor before anything moves. */
  method Prepare(descriptors: seq<TransferDescriptor>, source: CapabilitySpace, system: CapabilitySystem,
                 objects: Objects.ObjectArena) returns (r: Result<seq<PreparedTransfer>, CapabilityError>)
    requires system.Valid() && source in system.spaces
    ensures r.Ok? <==>
            && |descriptors| <= MAX_CAPABILITY_TRANSFERS
            && forall i :: 0 <= i < |descriptors| ==>
                 system.CanDerive(source, descriptors[i].handle, descriptors[i].narrowedRights, objects)
    ensures r.Ok? ==>
              && |r.value| == |descriptors|
              && forall i :: 0 <= i < |descriptors| ==>
                   r.value[i] == PreparedTransfer(descriptors[i].handle, descriptors[i].narrowedRights)
    ensures r.Err? ==>
              if |descriptors| > MAX_CAPABILITY_TRANSFERS then r.error == SpaceFull
              else exists i :: FirstRefusal(descriptors, system, source, objects, i) &&
                     r.error == Refusal(system, source, descriptors[i].handle, descriptors[i].narrowedRights, objects)
  {
    hide Represents, SlotsThreaded, SlotsAged, NoGarbage, WellFormed, Seated, Mirrored;
    if |descriptors| > MAX_CAPABILITY_TRANSFERS {
      return Err(SpaceFull);
    }
    var transfers: seq<PreparedTransfer> := [];
    for i := 0 to |descriptors|
      invariant |transfers| == i
      invariant forall j :: 0 <= j < i ==>
                  && transfers[j] == PreparedTransfer(descriptors[j].handle, descriptors[j].narrowedRights)
                  && system.CanDerive(source, descriptors[j].handle, descriptors[j].narrowedRights, objects)
    {
      var node := source.NodeFor(descriptors[i].handle);
      if node.Err? {
        assert FirstRefusal(descriptors, system, source, objects, i);
        return Err(node.error);
      }
      var info := system.ValidateNode(node.value, objects);
      if info.Err? {
        assert FirstRefusal(descriptors, system, source, objects, i);
        return Err(info.error);
      }
      if !IsSubsetOf(descriptors[i].narrowedRights, info.value.rights) {
        assert FirstRefusal(descriptors, system, source, objects, i);
        return Err(RightsEscalation);
      }
      transfers := transfers + [PreparedTransfer(descriptors[i].handle, descriptors[i].narrowedRights)];
    }
    return Ok(transfers);
  }

  /** Deriving capabilities elsewhere does not change the standing of a handle. */
  lemma StandingKept(s0: Shape, r0: Registry, s: Shape, r: Registry, lo: nat, hi: nat, c: CapabilitySpace, h: Handle)
    requires Sane(r0) && Sane(r) && r0.forest == s0.forest && r.forest == s.forest && Added(s0, s, lo, hi)
    requires c in r0.cells && c in r.cells && r.cells[c] == r0.cells[c]
    ensures Standing(r, c, h) == Standing(r0, c, h)
  {
    hide Seated, NoGarbage, WellFormed, Added;
    if Leads(r0.cells[c], h).Some? {
      LeadsHeld(r0, c, h);
      LeadsHeld(r, c, h);
      AddedFacts(s0, s, lo, hi);
      AdditionsKeepStanding(s0.forest, s.forest, Leads(r0.cells[c], h).value);
    }
  }

  /** The handle answers with a grant that has the wanted rights. */
  ghost predicate Derivable(r: Registry, source: CapabilitySpace, t: PreparedTransfer, objects: Objects.ObjectArena)
    requires Sane(r) && source in r.cells
    reads objects
  {
    var answer := Answer(r, source, t.handle, objects);
    answer.Ok? && IsSubsetOf(t.rights, answer.value.rights)
  }

  /** The node a transfer creates: the source's grant with narrowed rights, below the source's node. */
  ghost function Granted(r: Registry, source: CapabilitySpace, t: PreparedTransfer, objects: Objects.ObjectArena): Cap
    requires Sane(r) && source in r.cells
    reads objects
  {
    var answer := Answer(r, source, t.handle, objects);
    if answer.Ok? then Cap(answer.value.(rights := t.rights), Leads(r.cells[source], t.handle), false)
    else Cap(CapabilityInfo(ObjectId(0, 0), Thread, 0), None, false)
  }

  /** Every transfer is derivable, and the target, the node vector and the quota have room for all of them. */
  ghost predicate CanCommit(transfers: seq<PreparedTransfer>, start: Start, source: CapabilitySpace,
                            target: CapabilitySpace, domain: ResourceDomain, objects: Objects.ObjectArena)
    requires Sane(start.registry) && source in start.registry.cells
    reads objects
  {
    && (forall i :: 0 <= i < |transfers| ==> Derivable(start.registry, source, transfers[i], objects))
    && (transfers != [] ==>
          && target.domain == domain.id
          && |transfers| <= start.room && |transfers| <= start.nodeRoom
          && start.account.usage.capabilities + |transfers| <= start.account.limits.capabilities)
  }

  /** Why a transfer fails after `n` others have gone through. */
  ghost function StepError(start: Start, source: CapabilitySpace, t: PreparedTransfer, target: CapabilitySpace, domain: ResourceDomain,
                           objects: Objects.ObjectArena, n: nat): CapabilityError
    requires Sane(start.registry) && source in start.registry.cells
    reads objects
  {
    var answer := Answer(start.registry, source, t.handle, objects);
    if answer.Err? then answer.error
    else if !IsSubsetOf(t.rights, answer.value.rights) then RightsEscalation
    else if target.domain != domain.id then DomainMismatch
    else if n >= start.room then SpaceFull
    else if n >= start.nodeRoom then NodeCapacity
    else Resource(CapabilityLimit)
  }

  /** `v` with `n` more capabilities charged. */
  ghost function More(v: Account, n: nat): Account {
    v.(usage := v.usage.(capabilities := v.usage.capabilities + n))
  }

  /** Handle `j` of the transaction leads to its `j`-th node, and all other handles lead where they did. */
  ghost predicate Delivered(cells0: seq<Cell>, cells: seq<Cell>, first: nat, handles: seq<Handle>) {
    && Distinct(handles)
    && (forall j :: 0 <= j < |handles| ==> Leads(cells0, handles[j]).None? && Leads(cells, handles[j]) == Some(first + j))
    && (forall h :: h !in handles ==> Leads(cells, h) == Leads(cells0, h))
  }

  lemma DeliverOne(cells0: seq<Cell>, cells: seq<Cell>, first: nat, handles: seq<Handle>, cells': seq<Cell>, h: Handle)
    requires Delivered(cells0, cells, first, handles) && Leads(cells, h).None?
    requires forall g :: Leads(cells', g) == if g == h then Some(first + |handles|) else Leads(cells, g)
    ensures Delivered(cells0, cells', first, handles + [h])
  {
    assert h !in handles;
    var all := handles + [h];
    forall j | 0 <= j < |all|
      ensures Leads(cells0, all[j]).None? && Leads(cells', all[j]) == Some(first + j)
    {
      if j < |handles| {
        assert all[j] == handles[j];
      }
    }
  }

  lemma StartAdded(nodes: seq<Node>, head: Option<nat>, s: Shape)
    requires Represents(nodes, head, s, None)
    ensures Added(s, s, s.forest.next, s.forest.next) && |s.ids| == s.forest.next
  {
    AddedNothing(s);
  }

  /** One more derivation below a node of `s0` that a slot holds. */
  lemma GrowAdded(s0: Shape, s: Shape, lo: nat, hi: nat, p: nat, info: CapabilityInfo, t: Shape)
    requires Added(s0, s, lo, hi) && p in s0.forest.held
    requires p in s.forest.caps && hi < |t.ids| && t.ids[hi].index <= |s.serial| && t == GrowShape(s, Some(p), info, t.ids[hi])
    ensures Added(s0, t, lo, hi + 1) && |t.ids| == hi + 1
    ensures forall k :: 0 <= k < |s.ids| ==> t.ids[k] == s.ids[k]
    ensures forall k :: k in s.forest.caps ==> k in t.forest.caps && t.forest.caps[k] == s.forest.caps[k]
    ensures hi in t.forest.caps && t.forest.caps[hi] == Cap(info, Some(p), false)
  {
    GrowNodes(s0.forest, s.forest, lo, hi, p, info);
    GrowLists(s0, s, p, info, t.ids[hi]);
  }

  lemma AddedFacts(s0: Shape, s: Shape, lo: nat, hi: nat)
    requires Added(s0, s, lo, hi)
    ensures Sized(s0) && Sized(s) && s0.forest.next <= s.forest.next && s.forest.next == hi
    ensures s0.forest.next <= lo <= hi
    ensures forall j :: j in s.forest.caps && j < s0.forest.next ==> j in s0.forest.caps
    ensures forall j :: j in s0.forest.caps ==> j in s.forest.caps && s.forest.caps[j] == s0.forest.caps[j] && s.ids[j] == s0.ids[j]
    ensures s0.forest.held <= s.forest.held
    ensures forall j :: j in s.forest.held ==> j in s0.forest.held || lo <= j < hi
    ensures forall j :: lo <= j < hi ==> j in s.forest.caps
  {
  }

  /** With nothing added left, forest and records are exactly the old ones. */
  lemma Restored(nodes0: seq<Node>, head0: Option<nat>, s0: Shape, nodes: seq<Node>, head: Option<nat>, s: Shape, hi: nat)
    requires Represents(nodes0, head0, s0, None) && Represents(nodes, head, s, None) && Added(s0, s, hi, hi)
    ensures s.forest.caps == s0.forest.caps && s.forest.held == s0.forest.held
    ensures forall k :: k in s0.forest.caps ==>
              k < |s.ids| && k < |s0.ids| && s.ids[k] == s0.ids[k]
              && s.ids[k].index < |nodes| && s.ids[k].index < |nodes0|
              && nodes[s.ids[k].index] == nodes0[s.ids[k].index]
  {
    hide Represents, WellFormed, Listed, AddedLists, Record;
    forall k | k in s0.forest.caps
      ensures k < |s.ids| && k < |s0.ids| && s.ids[k] == s0.ids[k]
      ensures s.ids[k].index < |nodes| && s.ids[k].index < |nodes0|
      ensures nodes[s.ids[k].index] == nodes0[s.ids[k].index]
    {
      AddedFacts(s0, s, hi, hi);
      RecordFacts(nodes0, head0, s0, k);
      RecordFacts(nodes, head, s, k);
      AddedGone(s0, s, hi, k);
    }
  }

  lemma RecordFacts(nodes: seq<Node>, head: Option<nat>, s: Shape, k: nat)
    requires Represents(nodes, head, s, None) && k in s.forest.caps
    ensures WellFormed(s.forest) && Sized(s) && Listed(s) && RecordAt(nodes, s, None, k)
  {
  }

  /** The state at the start of a transaction. */
  datatype Start = Start(nodes: seq<Node>, head: Option<nat>, shape: Shape, registry: Registry, account: Account,
                         room: int, nodeRoom: int, slack: int)

  /** After some transfers: exactly the nodes of `caps` were added, `handles` lead to them, and they are charged. */
  ghost predicate Progress(start: Start, system: CapabilitySystem, target: CapabilitySpace, domain: ResourceDomain,
                           handles: seq<Handle>, caps: seq<Cap>)
    reads system, target, domain
  {
    var n := |handles|;
    && Traded(start, system.shape, system.Registry(), target, handles, caps)
    && domain.View() == More(start.account, n)
    && (n > 0 ==> target.domain == domain.id)
    && target.Room() == start.room - n && system.NodeRoom() == start.nodeRoom - n
    && system.Slack(domain) == start.slack
  }

  /** The nodes and cells of a transaction under way. */
  ghost predicate Traded(start: Start, s: Shape, r: Registry, target: CapabilitySpace, handles: seq<Handle>, caps: seq<Cap>) {
    var first, n := start.shape.forest.next, |handles|;
    && Added(start.shape, s, first, first + n)
    && target in start.registry.cells && target in r.cells
    && r.cells == start.registry.cells[target := r.cells[target]]
    && Delivered(start.registry.cells[target], r.cells[target], first, handles)
    && |caps| == n && CapsAre(s.forest, first, caps)
    && Holding(start.registry.holder, r.holder, first, n)
  }

  lemma TradedFacts(start: Start, s: Shape, r: Registry, target: CapabilitySpace, handles: seq<Handle>, caps: seq<Cap>)
    requires Traded(start, s, r, target, handles, caps)
    ensures Added(start.shape, s, start.shape.forest.next, start.shape.forest.next + |handles|) && |caps| == |handles|
    ensures target in start.registry.cells && target in r.cells && r.cells == start.registry.cells[target := r.cells[target]]
  {
  }

  /** One more derivation of the transaction. */
  lemma TradeOne(start: Start, s: Shape, r: Registry, t: Shape, r': Registry, target: CapabilitySpace, handles: seq<Handle>, caps: seq<Cap>,
                 cap: Cap, h: Handle)
    requires Traded(start, s, r, target, handles, caps) && r.forest == s.forest
    requires cap.parent.Some? && cap.parent.value in start.shape.forest.held && !cap.revoked
    requires target in r.cells && target in r'.cells && Inserted(s, t, cap.parent, cap.info, r.cells[target], r'.cells[target], h)
    requires Moves(r, ActInsert(target, h.slot, cap.parent, cap.info), r')
    ensures Traded(start, t, r', target, handles + [h], caps + [cap])
  {
    hide Added, Delivered, CapsAre, Holding, Moves, Inserted;
    var first := start.shape.forest.next;
    InsertedCells(r, target, h.slot, cap.parent, cap.info, r');
    StepAdds(start.shape, s, t, cap.parent.value, cap.info, start.registry.cells[target], r.cells[target], r'.cells[target], handles, caps, h);
    HoldOne(start.registry.holder, r.holder, first, |handles|, (target, h.slot));
  }

  ghost predicate CapsAre(f: Forest, first: nat, caps: seq<Cap>) {
    forall j :: 0 <= j < |caps| ==> first + j in f.caps && f.caps[first + j] == caps[j]
  }

  ghost predicate Holding(holder0: Holder, holder: Holder, first: nat, n: nat) {
    && (forall k :: k in holder0 ==> k in holder && holder[k] == holder0[k])
    && (forall k :: k in holder ==> k in holder0 || first <= k < first + n)
  }

  lemma HoldOne(holder0: Holder, holder: Holder, first: nat, n: nat, at: (CapabilitySpace, nat))
    requires Holding(holder0, holder, first, n) && first + n !in holder
    ensures Holding(holder0, holder[first + n := at], first, n + 1)
  {
  }

  /** What one derivation does to the transaction's additions. */
  lemma StepAdds(s0: Shape, s: Shape, t: Shape, p: nat, info: CapabilityInfo, cells0: seq<Cell>, cells: seq<Cell>, cells': seq<Cell>,
                 handles: seq<Handle>, caps: seq<Cap>, h: Handle)
    requires var first, n := s0.forest.next, |handles|;
      && Added(s0, s, first, first + n)
      && Delivered(cells0, cells, first, handles)
      && |caps| == n && CapsAre(s.forest, first, caps)
    requires p in s0.forest.held && Inserted(s, t, Some(p), info, cells, cells', h)
    ensures var first, n := s0.forest.next, |handles| + 1;
      && Added(s0, t, first, first + n)
      && Delivered(cells0, cells', first, handles + [h])
      && CapsAre(t.forest, first, caps + [Cap(info, Some(p), false)])
    ensures s.forest.next == s0.forest.next + |handles|
  {
    hide Added, Delivered, Vacant, Filled, Leads;
    var first, hi := s0.forest.next, s0.forest.next + |handles|;
    AddedFacts(s0, s, first, hi);
    GrowAdded(s0, s, first, hi, p, info, t);
    InsertedLeads(s, t, Some(p), info, cells, cells', h);
    DeliverOne(cells0, cells, first, handles, cells', h);
  }

  /** One transfer of a transaction. */
  method CommitStep(t: PreparedTransfer, system: CapabilitySystem, source: CapabilitySpace, target: CapabilitySpace,
                    domain: ResourceDomain, objects: Objects.ObjectArena, ghost start: Start,
                    ghost handles: seq<Handle>, ghost caps: seq<Cap>)
    returns (step: Result<Handle, CapabilityError>)
    requires system.Valid() && domain.Valid() && source in system.spaces && target in system.spaces && source != target
    requires Progress(start, system, target, domain, handles, caps)
    requires Sane(start.registry) && start.registry.forest == start.shape.forest
    requires source in start.registry.cells
    modifies system`nodes, system`freeHead, system`shape, system`cells, system`holder, target, domain
    ensures system.Valid() && domain.Valid()
    ensures step.Ok? <==>
            && Derivable(start.registry, source, t, objects)
            && target.domain == domain.id && |handles| < start.room && |handles| < start.nodeRoom
            && start.account.usage.capabilities + |handles| < start.account.limits.capabilities
    ensures step.Ok? ==>
              && var cap := Granted(start.registry, source, t, objects);
              && Progress(start, system, target, domain, handles + [step.value], caps + [cap])
              && Moves(old(system.Registry()), ActInsert(target, step.value.slot, cap.parent, cap.info), system.Registry())
    ensures step.Err? ==> Progress(start, system, target, domain, handles, caps) && system.Registry() == old(system.Registry())
    ensures step.Err? ==> step.error == StepError(start, source, t, target, domain, objects, |handles|)
  {
    hide Represents, SlotsThreaded, SlotsAged, NoGarbage, WellFormed, Seated, Mirrored, CapabilitySystem.LinkedFor, Traded, Inserted,
         Moves, CapabilitySystem.Verdict, CapabilitySystem.HandleVerdict, Answer, Leads;
    TradedFacts(start, system.shape, system.Registry(), target, handles, caps);
    system.Rooms(target);
    system.VerdictIsAnswer(source, t.handle, objects);
    ghost var first := start.shape.forest.next;
    AnswerKept(start.shape, start.registry, system.shape, system.Registry(), first, first + |handles|, source, t.handle, objects);
    step := system.Derive(source, t.handle, target, domain, t.rights, objects);
    if step.Ok? {
      ghost var cap := Granted(start.registry, source, t, objects);
      AnswerHeld(start.registry, source, t.handle, objects);
      InsertedCells(old(system.Registry()), target, step.value.slot, cap.parent, cap.info, system.Registry());
      TradeOne(start, old(system.shape), old(system.Registry()), system.shape, system.Registry(), target, handles, caps, cap, step.value);
    }
  }

  lemma AnswerKept(s0: Shape, r0: Registry, s: Shape, r: Registry, lo: nat, hi: nat, c: CapabilitySpace, h: Handle, objects: Objects.ObjectArena)
    requires Sane(r0) && Sane(r) && r0.forest == s0.forest && r.forest == s.forest && Added(s0, s, lo, hi)
    requires c in r0.cells && c in r.cells && r.cells[c] == r0.cells[c]
    ensures Answer(r, c, h, objects) == Answer(r0, c, h, objects)
  {
    hide Sane, Added;
    StandingKept(s0, r0, s, r, lo, hi, c, h);
  }

  lemma AnswerHeld(r: Registry, c: CapabilitySpace, h: Handle, objects: Objects.ObjectArena)
    requires Sane(r) && c in r.cells && Answer(r, c, h, objects).Ok?
    ensures Leads(r.cells[c], h).Some? && Leads(r.cells[c], h).value in r.forest.held
  {
    LeadsHeld(r, c, h);
  }

  lemma NextNotHeld(nodes: seq<Node>, head: Option<nat>, s: Shape)
    requires Represents(nodes, head, s, None)
    ensures forall k :: k in s.forest.held ==> k < s.forest.next
  {
  }

  /**
    Everything a client can observe is as at the start: records, holders, the recipient's account, where
    each handle of the target leads, and all other spaces.
  */
  ghost predicate Back(start: Start, system: CapabilitySystem, target: CapabilitySpace, domain: ResourceDomain)
    reads system, target, domain
  {
    && system.shape.forest.caps == start.shape.forest.caps && system.shape.forest.held == start.shape.forest.held
    && (forall k :: k in start.shape.forest.caps ==>
          k < |system.shape.ids| && k < |start.shape.ids| && system.shape.ids[k] == start.shape.ids[k]
          && system.shape.ids[k].index < |system.nodes| && system.shape.ids[k].index < |start.nodes|
          && system.nodes[system.shape.ids[k].index] == start.nodes[system.shape.ids[k].index])
    && system.holder == start.registry.holder
    && target in start.registry.cells && target in system.cells
    && system.cells == start.registry.cells[target := system.cells[target]]
    && (forall h :: Leads(system.cells[target], h) == Leads(start.registry.cells[target], h))
    && domain.View() == start.account
  }

  lemma HoldersBack(holder0: Holder, holder: Holder, after: Holder, first: nat, n: nat)
    requires Holding(holder0, holder, first, n) && HolderLess(holder, after, first, n)
    requires forall k :: k in holder0 ==> k < first
    ensures after == holder0
  {
  }

  /** Undo an unfinished transaction. */
  method Abort(committed: seq<Handle>, system: CapabilitySystem, target: CapabilitySpace, domain: ResourceDomain,
               ghost start: Start, ghost caps: seq<Cap>) returns (ghost run: seq<Registry>)
    requires system.Valid() && domain.Valid() && target in system.spaces
    requires Progress(start, system, target, domain, committed, caps) && start.slack >= 0
    requires Represents(start.nodes, start.head, start.shape, None) && start.registry.holder.Keys == start.shape.forest.held
    modifies system`nodes, system`freeHead, system`shape, system`cells, system`holder, target, domain
    ensures system.Valid() && domain.Valid() && system.Slack(domain) == start.slack
    ensures Back(start, system, target, domain)
    ensures |run| == |committed| + 1 && IsTrace(run, Removals(target, committed))
    ensures run[0] == old(system.Registry()) && run[|committed|] == system.Registry()
  {
    hide Represents, WellFormed, CapabilitySystem.Valid, Added, Traded, IsTrace, Leads, HandlesLess, HolderLess, Holding, Removals, Back;
    NextNotHeld(start.nodes, start.head, start.shape);
    ghost var first, n := start.shape.forest.next, |committed|;
    TradedBack(start, system.shape, system.Registry(), target, committed, caps);
    ghost var board, holder := system.cells, system.holder;
    run := Rollback(committed, system, target, domain, start.shape);
    system.ValidIsSane();
    HoldersBack(start.registry.holder, holder, system.holder, first, n);
    HandlesBack(start.registry.cells[target], board[target], system.cells[target], committed);
    AllBack(start, system, target, domain, first + n);
  }

  lemma AllBack(start: Start, system: CapabilitySystem, target: CapabilitySpace, domain: ResourceDomain, hi: nat)
    requires Represents(start.nodes, start.head, start.shape, None) && Represents(system.nodes, system.freeHead, system.shape, None)
    requires Added(start.shape, system.shape, hi, hi) && system.holder == start.registry.holder && domain.View() == start.account
    requires target in start.registry.cells && target in system.cells && system.cells == start.registry.cells[target := system.cells[target]]
    requires forall h :: Leads(system.cells[target], h) == Leads(start.registry.cells[target], h)
    ensures Back(start, system, target, domain)
  {
    hide Represents, Added, Leads;
    Restored(start.nodes, start.head, start.shape, system.nodes, system.freeHead, system.shape, hi);
  }

  /** What a rollback needs to know of a transaction. */
  lemma TradedBack(start: Start, s: Shape, r: Registry, target: CapabilitySpace, handles: seq<Handle>, caps: seq<Cap>)
    requires Traded(start, s, r, target, handles, caps)
    ensures var first, n := start.shape.forest.next, |handles|;
      && Added(start.shape, s, first, first + n) && Holding(start.registry.holder, r.holder, first, n)
      && target in start.registry.cells && target in r.cells && r.cells == start.registry.cells[target := r.cells[target]]
      && Distinct(handles) && (forall j :: 0 <= j < n ==> Leads(r.cells[target], handles[j]) == Some(first + j))
      && (forall h :: (if h in handles then None else Leads(r.cells[target], h)) == Leads(start.registry.cells[target], h))
  {
    hide Added, CapsAre, Holding, Leads;
  }

  lemma HandlesBack(cells0: seq<Cell>, cells: seq<Cell>, after: seq<Cell>, handles: seq<Handle>)
    requires forall h :: (if h in handles then None else Leads(cells, h)) == Leads(cells0, h)
    requires HandlesLess(cells, after, handles)
    ensures forall h :: Leads(after, h) == Leads(cells0, h)
  {
    hide Leads;
  }

  /** The insertions of a transaction. */
  ghost function Insertions(target: CapabilitySpace, handles: seq<Handle>, caps: seq<Cap>): seq<Act>
    requires |handles| == |caps|
  {
    seq(|handles|, i requires 0 <= i < |handles| => ActInsert(target, handles[i].slot, caps[i].parent, caps[i].info))
  }

  /**
    Commit a transaction: derive every prepared transfer into the target, or take all of them back.
    It succeeds exactly when all transfers are still derivable and there is room for all of them; on
    failure every record, every handle and the recipient's charge are as before. `acts` is what happened
    on the way: insertions and, after a failure, the removal of what was inserted.
  */
  method Commit(transfers: seq<PreparedTransfer>, system: CapabilitySystem, source: CapabilitySpace,
                target: CapabilitySpace, domain: ResourceDomain, objects: Objects.ObjectArena)
    returns (r: Result<seq<Handle>, CapabilityError>, ghost start: Start, ghost handles: seq<Handle>, ghost caps: seq<Cap>,
             ghost run: seq<Registry>)
    requires system.Valid() && domain.Valid() && source in system.spaces && target in system.spaces && source != target
    requires system.Slack(domain) >= 0
    modifies system`nodes, system`freeHead, system`shape, system`cells, system`holder, target, domain
    ensures system.Valid() && domain.Valid() && system.Slack(domain) == old(system.Slack(domain))
    ensures start == Start(old(system.nodes), old(system.freeHead), old(system.shape), old(system.Registry()), old(domain.View()),
                           old(target.Room()), old(system.NodeRoom()), old(system.Slack(domain)))
    ensures Sane(start.registry) && source in start.registry.cells
    ensures r.Ok? <==> CanCommit(transfers, start, source, target, domain, objects)
    ensures |handles| == |caps| <= |transfers|
    ensures forall j :: 0 <= j < |handles| ==> caps[j] == Granted(start.registry, source, transfers[j], objects)
    ensures r.Ok? ==> r.value == handles && |handles| == |transfers| && Progress(start, system, target, domain, handles, caps)
    ensures r.Err? ==> Back(start, system, target, domain)
    ensures r.Err? ==>
              |handles| < |transfers| && r.error == StepError(start, source, transfers[|handles|], target, domain, objects, |handles|)
    ensures var acts := Insertions(target, handles, caps) + if r.Ok? then [] else Removals(target, handles);
      |run| == |acts| + 1 && IsTrace(run, acts) && run[0] == old(system.Registry()) && run[|acts|] == system.Registry()
  {
    hide CapabilitySystem.Valid, WellFormed, Represents, Seated, NoGarbage, Progress, Back, IsTrace,
         Moves, Derivable, Granted, StepError;
    system.ValidIsSane();
    start := Start(system.nodes, system.freeHead, system.shape, system.Registry(), domain.View(),
                   target.Room(), system.NodeRoom(), system.Slack(domain));
    var committed: seq<Handle> := [];
    caps, run := [], [system.Registry()];
    Begin(start, system, target, domain);
    StartTrace(system.Registry(), Insertions(target, [], []));
    for i := 0 to |transfers|
      invariant system.Valid() && domain.Valid()
      invariant |committed| == i && Progress(start, system, target, domain, committed, caps)
      invariant |caps| == i
      invariant forall j :: 0 <= j < i ==>
                  && Derivable(start.registry, source, transfers[j], objects)
                  && caps[j] == Granted(start.registry, source, transfers[j], objects)
      invariant |run| == i + 1 && IsTrace(run, Insertions(target, committed, caps))
      invariant run[0] == old(system.Registry()) && run[i] == system.Registry()
    {
      var step := CommitStep(transfers[i], system, source, target, domain, objects, start, committed, caps);
      if step.Err? {
        ghost var undone := Abort(committed, system, target, domain, start, caps);
        JoinTraces(run, Insertions(target, committed, caps), undone, Removals(target, committed));
        run := run + undone[1..];
        return Err(step.error), start, committed, caps, run;
      }
      ghost var cap := Granted(start.registry, source, transfers[i], objects);
      InsertMore(run, target, committed, caps, step.value, cap, system.Registry());
      run := run + [system.Registry()];
      caps := caps + [cap];
      committed := committed + [step.value];
    }
    ProgressFits(start, system, target, domain, committed, caps);
    assert Insertions(target, committed, caps) + [] == Insertions(target, committed, caps);
    return Ok(committed), start, committed, caps, run;
  }

  lemma InsertMore(run: seq<Registry>, target: CapabilitySpace, handles: seq<Handle>, caps: seq<Cap>, h: Handle, cap: Cap, s: Registry)
    requires |handles| == |caps| && |run| == |handles| + 1 && IsTrace(run, Insertions(target, handles, caps))
    requires Moves(run[|handles|], ActInsert(target, h.slot, cap.parent, cap.info), s)
    ensures IsTrace(run + [s], Insertions(target, handles + [h], caps + [cap]))
  {
    hide IsTrace, Moves;
    ExtendTrace(run, Insertions(target, handles, caps), ActInsert(target, h.slot, cap.parent, cap.info), s);
    assert Insertions(target, handles + [h], caps + [cap])
        == Insertions(target, handles, caps) + [ActInsert(target, h.slot, cap.parent, cap.info)];
  }

  lemma RemoveMore(run: seq<Registry>, target: CapabilitySpace, handles: seq<Handle>, i: nat, s: Registry)
    requires i < |handles| && |run| == i + 1 && IsTrace(run, Removals(target, handles[..i]))
    requires Moves(run[i], ActRemove(target, handles[i].slot), s)
    ensures IsTrace(run + [s], Removals(target, handles[..i + 1]))
  {
    hide IsTrace, Moves;
    ExtendTrace(run, Removals(target, handles[..i]), ActRemove(target, handles[i].slot), s);
    assert Removals(target, handles[..i + 1]) == Removals(target, handles[..i]) + [ActRemove(target, handles[i].slot)];
  }

  lemma Begin(start: Start, system: CapabilitySystem, target: CapabilitySpace, domain: ResourceDomain)
    requires Represents(start.nodes, start.head, start.shape, None)
    requires start.shape == system.shape && start.registry == system.Registry() && start.account == domain.View()
    requires start.room == target.Room() && start.nodeRoom == system.NodeRoom() && start.slack == system.Slack(domain)
    requires target in system.cells
    ensures Progress(start, system, target, domain, [], [])
  {
    StartAdded(start.nodes, start.head, start.shape);
    assert system.cells == system.cells[target := system.cells[target]];
  }

  /** What was delivered had room. */
  lemma ProgressFits(start: Start, system: CapabilitySystem, target: CapabilitySpace, domain: ResourceDomain,
                     handles: seq<Handle>, caps: seq<Cap>)
    requires Progress(start, system, target, domain, handles, caps) && system.Valid() && domain.Valid() && target in system.spaces
    ensures |handles| <= start.room && |handles| <= start.nodeRoom && (handles != [] ==> target.domain == domain.id)
    ensures start.account.usage.capabilities + |handles| <= start.account.limits.capabilities
    ensures system.Slack(domain) == start.slack
  {
    hide Traded;
  }
}
