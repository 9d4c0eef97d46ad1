/**
  What clients see of the capability engine: handles. A registry is a derivation forest together with
  the cells of all capability spaces. Each cell knows how often it was recycled and which node it holds.

  The lemmas follow a handle through every run of engine operations.
*/
module Registries {
  import opened Common
  import opened Abi
  import opened Generations
  import opened Derivation
  import opened CapabilitySpaces

  datatype Cell = Cell(epoch: nat, node: Option<nat>)

  type Board = map<CapabilitySpace, seq<Cell>>

  type Holder = map<nat, (CapabilitySpace, nat)>

  /** `holder` is the way back: the cell that holds each held node. */
  datatype Registry = Registry(forest: Forest, cells: Board, holder: Holder)

  /** The node a handle leads to. */
  ghost function Leads(cells: seq<Cell>, h: Handle): Option<nat> {
    if h.slot < |cells| && GenerationAt(cells[h.slot].epoch) == h.generation then cells[h.slot].node else None
  }

  /** A free cell, or the next one to be added. */
  ghost predicate Vacant(cells: seq<Cell>, i: nat) {
    i <= |cells| && (i < |cells| ==> cells[i].node.None?)
  }

  ghost function Filled(cells: seq<Cell>, i: nat, k: nat): seq<Cell>
    requires i <= |cells|
  {
    if i < |cells| then cells[i := cells[i].(node := Some(k))] else cells + [Cell(0, Some(k))]
  }

  ghost function Emptied(cells: seq<Cell>, i: nat): seq<Cell>
    requires i < |cells|
  {
    cells[i := Cell(cells[i].epoch + 1, None)]
  }

  /** The handle that is handed out for the cell as it is now. */
  ghost function HandleOf(cells: seq<Cell>, i: nat): Handle
    requires i < |cells|
  {
    Handle(i, GenerationAt(cells[i].epoch))
  }

  // ---------- the invariant ----------

  ghost predicate SeatOf(r: Registry, k: nat) {
    && k in r.holder && r.holder[k].0 in r.cells && r.holder[k].1 < |r.cells[r.holder[k].0]|
    && r.cells[r.holder[k].0][r.holder[k].1].node == Some(k)
  }

  ghost predicate Taken(r: Registry, c: CapabilitySpace, i: nat)
    requires c in r.cells && i < |r.cells[c]|
  {
    r.cells[c][i].node.Some? ==>
      r.cells[c][i].node.value in r.holder && r.holder[r.cells[c][i].node.value] == (c, i)
  }

  /** Each held node is in exactly one cell, and each occupied cell holds a held node. */
  ghost predicate Seated(r: Registry) {
    && r.holder.Keys == r.forest.held
    && (forall k {:trigger SeatOf(r, k)} :: k in r.holder ==> SeatOf(r, k))
    && (forall c: CapabilitySpace, i: nat {:trigger Taken(r, c, i)} :: c in r.cells && i < |r.cells[c]| ==> Taken(r, c, i))
  }

  ghost predicate Sane(r: Registry) {
    Good(r.forest) && Seated(r)
  }

  // ---------- the operations ----------

  datatype Act =
    | ActAttach(space: CapabilitySpace)
    | ActInsert(space: CapabilitySpace, slot: nat, parent: Option<nat>, info: CapabilityInfo)
    | ActRemove(space: CapabilitySpace, slot: nat)
    | ActRevoke(node: nat)

  ghost predicate Possible(r: Registry, act: Act)
    requires WellFormed(r.forest)
  {
    match act
    case ActAttach(c) => c !in r.cells
    case ActInsert(c, i, parent, info) => c in r.cells && Vacant(r.cells[c], i) && CanGrow(r.forest, parent, info)
    case ActRemove(c, i) =>
      c in r.cells && i < |r.cells[c]| && r.cells[c][i].node.Some? && r.cells[c][i].node.value in r.forest.held
    case ActRevoke(k) => k in r.forest.caps
  }

  ghost function Perform(r: Registry, act: Act): Registry
    requires WellFormed(r.forest) && Possible(r, act)
  {
    match act
    case ActAttach(c) => r.(cells := r.cells[c := []])
    case ActInsert(c, i, parent, info) =>
      Registry(Grow(r.forest, parent, info), r.cells[c := Filled(r.cells[c], i, r.forest.next)],
               r.holder[r.forest.next := (c, i)])
    case ActRemove(c, i) =>
      var k := r.cells[c][i].node.value;
      Registry(DeleteHeld(r.forest, k), r.cells[c := Emptied(r.cells[c], i)], r.holder - {k})
    case ActRevoke(k) => r.(forest := MarkRevoked(r.forest, k))
  }

  /** What an operation does to the forest. */
  ghost function ForestOp(r: Registry, act: Act): Op
    requires WellFormed(r.forest) && Possible(r, act)
  {
    match act
    case ActAttach(_) => OpOther
    case ActInsert(_, _, parent, info) => OpGrow(parent, info)
    case ActRemove(c, i) => OpDelete(r.cells[c][i].node.value)
    case ActRevoke(k) => OpRevoke(k)
  }

  ghost predicate Moves(r: Registry, act: Act, s: Registry) {
    Sane(r) && Possible(r, act) && s == Perform(r, act)
  }

  lemma PerformSeated(r: Registry, act: Act)
    requires Sane(r) && Possible(r, act)
    ensures Seated(Perform(r, act))
  {
    hide NoGarbage, WellFormed, DeleteHeld, CanGrow, Seated;
    match act
    case ActAttach(c) => AttachSeated(r, c);
    case ActInsert(c, i, parent, info) => InsertSeated(r, c, i, Grow(r.forest, parent, info));
    case ActRemove(c, i) =>
      DeleteHolds(r.forest, r.cells[c][i].node.value);
      RemoveSeated(r, c, i, DeleteHeld(r.forest, r.cells[c][i].node.value));
    case ActRevoke(k) => SameHeldSeated(r, MarkRevoked(r.forest, k));
  }

  lemma AttachSeated(r: Registry, c: CapabilitySpace)
    requires Seated(r) && c !in r.cells
    ensures Seated(r.(cells := r.cells[c := []]))
  {
    var s := r.(cells := r.cells[c := []]);
    forall k | k in s.holder
      ensures SeatOf(s, k)
    {
      assert SeatOf(r, k);
    }
    forall d: CapabilitySpace, i: nat | d in s.cells && i < |s.cells[d]|
      ensures Taken(s, d, i)
    {
      assert Taken(r, d, i);
    }
  }

  lemma SameHeldSeated(r: Registry, f: Forest)
    requires Seated(r) && f.held == r.forest.held
    ensures Seated(r.(forest := f))
  {
    var s := r.(forest := f);
    forall k | k in s.holder
      ensures SeatOf(s, k)
    {
      assert SeatOf(r, k);
    }
    forall d: CapabilitySpace, i: nat | d in s.cells && i < |s.cells[d]|
      ensures Taken(s, d, i)
    {
      assert Taken(r, d, i);
    }
  }

  lemma InsertSeated(r: Registry, c: CapabilitySpace, i: nat, f: Forest)
    requires Sane(r) && c in r.cells && Vacant(r.cells[c], i) && f.held == r.forest.held + {r.forest.next}
    ensures Seated(Registry(f, r.cells[c := Filled(r.cells[c], i, r.forest.next)], r.holder[r.forest.next := (c, i)]))
  {
    hide NoGarbage, WellFormed;
    NextIsNew(r.forest);
    var s := Registry(f, r.cells[c := Filled(r.cells[c], i, r.forest.next)], r.holder[r.forest.next := (c, i)]);
    forall k | k in s.holder
      ensures SeatOf(s, k)
    {
      assert k in r.holder ==> SeatOf(r, k);
    }
    forall d: CapabilitySpace, j: nat | d in s.cells && j < |s.cells[d]|
      ensures Taken(s, d, j)
    {
      assert d in r.cells && j < |r.cells[d]| ==> Taken(r, d, j);
    }
  }

  lemma RemoveSeated(r: Registry, c: CapabilitySpace, i: nat, f: Forest)
    requires Seated(r) && c in r.cells && i < |r.cells[c]| && r.cells[c][i].node.Some?
    requires f.held == r.forest.held - {r.cells[c][i].node.value}
    ensures Seated(Registry(f, r.cells[c := Emptied(r.cells[c], i)], r.holder - {r.cells[c][i].node.value}))
  {
    var gone := r.cells[c][i].node.value;
    assert Taken(r, c, i);
    var s := Registry(f, r.cells[c := Emptied(r.cells[c], i)], r.holder - {gone});
    forall k | k in s.holder
      ensures SeatOf(s, k)
    {
      assert SeatOf(r, k);
    }
    forall d: CapabilitySpace, j: nat | d in s.cells && j < |s.cells[d]|
      ensures Taken(s, d, j)
    {
      assert Taken(r, d, j);
    }
  }

  lemma DeleteHolds(f: Forest, k: nat)
    requires Good(f) && k in f.held
    ensures DeleteHeld(f, k).held == f.held - {k}
  {
    DeleteExact(f, k);
  }

  /** The way back from an occupied cell. */
  lemma HolderOf(r: Registry, c: CapabilitySpace, i: nat)
    requires Sane(r) && c in r.cells && i < |r.cells[c]| && r.cells[c][i].node.Some?
    ensures r.cells[c][i].node.value in r.holder && r.holder[r.cells[c][i].node.value] == (c, i)
    ensures r.cells[c][i].node.value in r.forest.held
  {
    assert Taken(r, c, i);
  }

  lemma NextIsNew(f: Forest)
    requires Good(f)
    ensures f.next !in f.held
  {
  }

  /** Every operation keeps the invariant and is an operation of the forest. */
  lemma MoveKeeps(r: Registry, act: Act, s: Registry)
    requires Moves(r, act, s)
    ensures Sane(s) && Step(r.forest, ForestOp(r, act), s.forest) && Extends(r.forest, s.forest)
  {
    hide Seated, NoGarbage, WellFormed, Extends;
    PerformSeated(r, act);
    ApplyKeeps(r.forest, ForestOp(r, act));
  }

  // ---------- runs ----------

  /** `run` is a history of the engine: each operation leads from one registry to the next. */
  ghost predicate IsTrace(run: seq<Registry>, acts: seq<Act>) {
    && |run| == |acts| + 1
    && Sane(run[0])
    && (forall t :: 0 <= t < |acts| ==> Moves(run[t], acts[t], run[t + 1]))
  }

  lemma TraceSane(run: seq<Registry>, acts: seq<Act>, i: nat)
    requires IsTrace(run, acts) && i < |run|
    ensures Sane(run[i])
  {
    if i > 0 {
      assert Moves(run[i - 1], acts[i - 1], run[i]);
      MoveKeeps(run[i - 1], acts[i - 1], run[i]);
    }
  }

  ghost function Forests(run: seq<Registry>): seq<Forest> {
    seq(|run|, i requires 0 <= i < |run| => run[i].forest)
  }

  ghost function ForestOps(run: seq<Registry>, acts: seq<Act>): seq<Op>
    requires IsTrace(run, acts)
  {
    seq(|acts|, t requires 0 <= t < |acts| => assert Moves(run[t], acts[t], run[t + 1]); ForestOp(run[t], acts[t]))
  }

  /** The forests of a trace are a run of the derivation forest. */
  lemma TraceIsRun(run: seq<Registry>, acts: seq<Act>)
    requires IsTrace(run, acts)
    ensures IsRun(Forests(run), ForestOps(run, acts))
  {
    var forests, ops := Forests(run), ForestOps(run, acts);
    forall t | 0 <= t < |ops|
      ensures Step(forests[t], ops[t], forests[t + 1])
    {
      assert Moves(run[t], acts[t], run[t + 1]);
      MoveKeeps(run[t], acts[t], run[t + 1]);
    }
  }

  lemma ExtendTrace(run: seq<Registry>, acts: seq<Act>, act: Act, s: Registry)
    requires IsTrace(run, acts) && Moves(run[|acts|], act, s)
    ensures IsTrace(run + [s], acts + [act])
  {
    hide Moves, Sane;
    var longer, all := run + [s], acts + [act];
    forall t | 0 <= t < |all|
      ensures Moves(longer[t], all[t], longer[t + 1])
    {
      assert t < |acts| ==> Moves(run[t], acts[t], run[t + 1]);
    }
  }

  /** Two traces that meet make one. */
  lemma {:induction false} JoinTraces(run: seq<Registry>, acts: seq<Act>, run': seq<Registry>, acts': seq<Act>)
    requires IsTrace(run, acts) && IsTrace(run', acts') && run[|acts|] == run'[0]
    ensures IsTrace(run + run'[1..], acts + acts')
    ensures (run + run'[1..])[|acts| + |acts'|] == run'[|acts'|]
  {
    hide Moves, Sane;
    var longer, all := run + run'[1..], acts + acts';
    forall t | 0 <= t < |all|
      ensures Moves(longer[t], all[t], longer[t + 1])
    {
      if t < |acts| {
        assert Moves(run[t], acts[t], run[t + 1]);
      } else {
        assert Moves(run'[t - |acts|], acts'[t - |acts|], run'[t - |acts| + 1]);
      }
    }
  }

  // ---------- the life of a cell ----------

  /** Cells never go away, recycling counts never fall, and a cell that was not recycled keeps its node. */
  ghost predicate CellLater(r: Registry, s: Registry, c: CapabilitySpace, i: nat) {
    c in r.cells && i < |r.cells[c]| ==>
      && c in s.cells && i < |s.cells[c]| && r.cells[c][i].epoch <= s.cells[c][i].epoch
      && (r.cells[c][i].node.Some? && r.cells[c][i].epoch == s.cells[c][i].epoch ==> s.cells[c][i].node == r.cells[c][i].node)
  }

  lemma {:induction false} CellHistory(run: seq<Registry>, acts: seq<Act>, i: nat, j: nat, c: CapabilitySpace, slot: nat)
    requires IsTrace(run, acts) && i <= j < |run|
    ensures CellLater(run[i], run[j], c, slot)
    decreases j - i
  {
    hide Sane, Perform, Possible;
    if i < j {
      CellHistory(run, acts, i, j - 1, c, slot);
      assert Moves(run[j - 1], acts[j - 1], run[j]);
      CellStep(run[j - 1], acts[j - 1], run[j], c, slot);
    }
  }

  lemma CellStep(r: Registry, act: Act, s: Registry, c: CapabilitySpace, slot: nat)
    requires Moves(r, act, s)
    ensures CellLater(r, s, c, slot)
  {
  }

  /**
    A removed handle resolves again, at any later time of any run, exactly when its cell is occupied
    after a whole number of generation periods.
  */
  lemma RemovedHandleResolves(run: seq<Registry>, acts: seq<Act>, t: nat, j: nat)
    requires IsTrace(run, acts) && t < j < |run| && acts[t].ActRemove?
    ensures var c, i := acts[t].space, acts[t].slot;
      && c in run[t].cells && i < |run[t].cells[c]| && c in run[j].cells && i < |run[j].cells[c]|
      && var before, after := run[t].cells[c][i].epoch, run[j].cells[c][i].epoch;
      && before < after
      && (Leads(run[j].cells[c], HandleOf(run[t].cells[c], i)).Some? <==>
          run[j].cells[c][i].node.Some? && (after - before) % PERIOD == 0)
  {
    assert Moves(run[t], acts[t], run[t + 1]);
    var c, i := acts[t].space, acts[t].slot;
    CellHistory(run, acts, t + 1, j, c, i);
    SameGenerationIffWrapped(run[t].cells[c][i].epoch, run[j].cells[c][i].epoch);
  }

  /** A removed handle is handed out again exactly after a whole number of generation periods. */
  lemma ReissuedIffWrapped(run: seq<Registry>, acts: seq<Act>, t: nat, u: nat)
    requires IsTrace(run, acts) && t < u < |acts| && acts[t].ActRemove? && acts[u].ActInsert?
    requires acts[u].space == acts[t].space && acts[u].slot == acts[t].slot
    ensures var c, i := acts[t].space, acts[t].slot;
      && c in run[t].cells && i < |run[t].cells[c]| && c in run[u + 1].cells && i < |run[u + 1].cells[c]|
      && (HandleOf(run[u + 1].cells[c], i) == HandleOf(run[t].cells[c], i) <==>
          (run[u + 1].cells[c][i].epoch - run[t].cells[c][i].epoch) % PERIOD == 0)
  {
    RemovedHandleResolves(run, acts, t, u + 1);
    var c, i := acts[t].space, acts[t].slot;
    SameGenerationIffWrapped(run[t].cells[c][i].epoch, run[u + 1].cells[c][i].epoch);
  }

  // ---------- what a handle is good for ----------

  /** What the engine answers for a handle, as far as it depends on the registry. */
  ghost function Standing(r: Registry, c: CapabilitySpace, h: Handle): Result<CapabilityInfo, CapabilityError>
    requires Sane(r) && c in r.cells
  {
    if !h.IsValid() || h.slot >= |r.cells[c]| then Err(InvalidHandle)
    else
      match Leads(r.cells[c], h)
      case None => Err(StaleHandle)
      case Some(k) =>
        assert Taken(r, c, h.slot);
        if Tainted(r.forest, k) then Err(Revoked) else Ok(r.forest.caps[k].info)
  }

  lemma LeadsHeld(r: Registry, c: CapabilitySpace, h: Handle)
    requires Sane(r) && c in r.cells && Leads(r.cells[c], h).Some?
    ensures Leads(r.cells[c], h).value in r.forest.held && Leads(r.cells[c], h).value in r.forest.caps
    ensures h.IsValid() && h.slot < |r.cells[c]|
  {
    assert Taken(r, c, h.slot);
  }

  /** The handle leads to node `a` or below it. */
  ghost predicate LeadsBelow(r: Registry, c: CapabilitySpace, h: Handle, a: nat)
    requires WellFormed(r.forest)
  {
    c in r.cells && Leads(r.cells[c], h).Some? && Below(r.forest, Leads(r.cells[c], h).value, a)
  }

  /** Revoking a node spoils the handles at and below it and leaves the answer for every other handle alone. */
  lemma RevokeStanding(r: Registry, a: nat, s: Registry, c: CapabilitySpace, h: Handle)
    requires Moves(r, ActRevoke(a), s) && c in r.cells
    ensures Sane(s) && c in s.cells
    ensures Standing(s, c, h) == if LeadsBelow(r, c, h, a) then Err(Revoked) else Standing(r, c, h)
  {
    MoveKeeps(r, ActRevoke(a), s);
    var led := Leads(r.cells[c], h);
    if led.Some? {
      LeadsHeld(r, c, h);
      RevokeSelective(r.forest, a, led.value);
    }
  }

  /** Operation `t` of the trace revokes a node in `lineage`. */
  ghost predicate Strikes(acts: seq<Act>, t: int, lineage: set<nat>) {
    0 <= t < |acts| && acts[t].ActRevoke? && acts[t].node in lineage
  }

  ghost predicate StruckBetween(acts: seq<Act>, i: int, j: int, lineage: set<nat>) {
    exists t :: i <= t < j && Strikes(acts, t, lineage)
  }

  /**
    The fate of a handle over any stretch of any run. While its cell is not recycled it leads to the
    same node, and it is answered `Revoked` exactly if it was before or a node of that lineage has been
    revoked since; otherwise the answer is the same grant as before. Once its cell is recycled it is stale,
    unless the cell is occupied again after a whole number of generation periods.
  */
  lemma HandleFate(run: seq<Registry>, acts: seq<Act>, i: nat, j: nat, c: CapabilitySpace, h: Handle)
    requires IsTrace(run, acts) && i <= j < |run| && c in run[i].cells && Leads(run[i].cells[c], h).Some?
    ensures Sane(run[i]) && Sane(run[j]) && c in run[j].cells && h.slot < |run[j].cells[c]|
    ensures var k := Leads(run[i].cells[c], h).value;
      run[j].cells[c][h.slot].epoch == run[i].cells[c][h.slot].epoch ==>
        && Leads(run[j].cells[c], h) == Some(k) && k in run[i].forest.caps
        && Standing(run[j], c, h) ==
           if StruckBetween(acts, i, j, Lineage(run[i].forest, k)) then Err(Revoked)
           else Standing(run[i], c, h)
    ensures var before, after := run[i].cells[c][h.slot].epoch, run[j].cells[c][h.slot].epoch;
      && before <= after
      && (before < after ==>
            if run[j].cells[c][h.slot].node.Some? && (after - before) % PERIOD == 0 then Leads(run[j].cells[c], h).Some?
            else Standing(run[j], c, h) == Err(StaleHandle))
  {
    hide Seated, NoGarbage, WellFormed, Lineage, Tainted, HitBetween, StruckBetween, IsRun, Moves, Perform;
    var k := Leads(run[i].cells[c], h).value;
    TraceSane(run, acts, i);
    TraceSane(run, acts, j);
    CellHistory(run, acts, i, j, c, h.slot);
    LeadsHeld(run[i], c, h);
    SameGenerationIffWrapped(run[i].cells[c][h.slot].epoch, run[j].cells[c][h.slot].epoch);
    if run[j].cells[c][h.slot].epoch == run[i].cells[c][h.slot].epoch {
      LeadsHeld(run[j], c, h);
      TraceIsRun(run, acts);
      OnlyLineageMatters(Forests(run), ForestOps(run, acts), i, j, k);
      StrikesAreHits(run, acts, i, j, Lineage(run[i].forest, k));
      assert Forests(run)[i] == run[i].forest && Forests(run)[j] == run[j].forest;
    }
  }

  lemma StrikesAreHits(run: seq<Registry>, acts: seq<Act>, i: nat, j: nat, lineage: set<nat>)
    requires IsTrace(run, acts) && i <= j < |run|
    ensures StruckBetween(acts, i, j, lineage) <==> HitBetween(ForestOps(run, acts), i, j, lineage)
  {
    var ops := ForestOps(run, acts);
    forall t | 0 <= t < |acts|
      ensures Strikes(acts, t, lineage) <==> Hits(ops, t, lineage)
    {
      assert Moves(run[t], acts[t], run[t + 1]);
    }
    if t :| i <= t < j && Strikes(acts, t, lineage) {
      assert Hits(ops, t, lineage);
    }
    if t :| i <= t < j && Hits(ops, t, lineage) {
      assert Strikes(acts, t, lineage);
    }
  }

  /**
    Revocation is permanent for handles: a handle that is answered `Revoked` is never good again, short of
    a wrap of its cell's generation.
  */
  lemma RevokedHandleForever(run: seq<Registry>, acts: seq<Act>, i: nat, j: nat, c: CapabilitySpace, h: Handle)
    requires IsTrace(run, acts) && i <= j < |run| && c in run[i].cells
    requires Sane(run[i]) && Standing(run[i], c, h) == Err(Revoked)
    ensures Sane(run[j]) && c in run[j].cells && h.slot < |run[i].cells[c]| && h.slot < |run[j].cells[c]|
    ensures var before, after := run[i].cells[c][h.slot].epoch, run[j].cells[c][h.slot].epoch;
      && before <= after
      && (after == before ==> Standing(run[j], c, h) == Err(Revoked))
      && (after > before ==>
            if run[j].cells[c][h.slot].node.Some? && (after - before) % PERIOD == 0 then Leads(run[j].cells[c], h).Some?
            else Standing(run[j], c, h) == Err(StaleHandle))
  {
    hide Seated, NoGarbage, WellFormed, Tainted, Lineage, Moves, IsTrace;
    HandleFate(run, acts, i, j, c, h);
  }

  /** Once a node is revoked, no handle that leads to it or below it, then or later, is good again. */
  lemma NothingBelowRevoked(run: seq<Registry>, acts: seq<Act>, i: nat, j: nat, a: nat, c: CapabilitySpace, h: Handle)
    requires IsTrace(run, acts) && i <= j < |run| && Sane(run[i]) && Sane(run[j])
    requires a in run[i].forest.caps && run[i].forest.caps[a].revoked
    requires c in run[j].cells && Leads(run[j].cells[c], h).Some?
    requires var k := Leads(run[j].cells[c], h).value; Below(run[j].forest, k, a) || Below(run[i].forest, k, a)
    ensures Standing(run[j], c, h) == Err(Revoked)
  {
    LeadsHeld(run[j], c, h);
    TraceIsRun(run, acts);
    RevocationPermanent(Forests(run), ForestOps(run, acts), i, j, a, Leads(run[j].cells[c], h).value);
  }
}
