/**
  The kernel's global tables together: the capability engine, the objects and all resource domains.
  What every domain is charged is tied to what it really holds, and the tie is kept by every operation.
*/
module Kernels {
  import opened Common
  import opened Abi
  import opened Generations
  import opened Resources
  import opened Objects
  import opened Derivation
  import opened NodeTable
  import opened CapabilitySpaces
  import opened Registries
  import opened CapabilitySystems
  import opened Transfers

  const ONE_CAPABILITY: Amounts := Amounts(0, 1, 0)
  const ONE_OBJECT: Amounts := Amounts(1, 0, 0)

  // ---------- the books ----------

  /** Entry `i` of the books is domain `i`, and its direct charges are its occupied slots and live objects. */
  ghost predicate KeptAt(books: Ledger, accounts: seq<Account>, holder: Holder, slots: seq<ObjectSlot>, i: nat)
    requires i < |books| == |accounts|
  {
    var e, a := books[i], accounts[i];
    && e.limits == a.limits && e.usage == a.usage && e.processRefs == a.processRefs
    && e.childRefs == a.childRefs && e.active == a.active
    && (match e.parent case None => a.parent.None? case Some(p) => p < i && a.parent == Some(accounts[p].id))
    && e.direct.capabilities == |HeldBy(holder, a.id)|
    && e.direct.objects == |OwnedBy(slots, a.id)|
  }

  ghost predicate Named(accounts: seq<Account>) {
    forall i, j :: 0 <= i < j < |accounts| ==> accounts[i].id != accounts[j].id
  }

  ghost predicate Kept(books: Ledger, accounts: seq<Account>, holder: Holder, slots: seq<ObjectSlot>) {
    && |books| == |accounts| && Named(accounts)
    && (forall i {:trigger KeptAt(books, accounts, holder, slots, i)} :: 0 <= i < |books| ==> KeptAt(books, accounts, holder, slots, i))
  }

  ghost function Names(accounts: seq<Account>): set<ObjectId> {
    set i | 0 <= i < |accounts| :: accounts[i].id
  }

  /** Whatever is held or live belongs to some domain. */
  ghost predicate Attributed(names: set<ObjectId>, holder: Holder, slots: seq<ObjectSlot>) {
    && (forall k :: k in holder ==> holder[k].0.domain in names)
    && (forall i :: 0 <= i < |slots| && slots[i].state.Live? ==> slots[i].state.owner in names)
  }

  lemma BlankBooks(r: Registry)
    requires r.holder == map[]
    ensures IsHistory([[]], []) && Kept([], [], r.holder, []) && Attributed(Names([]), r.holder, [])
  {
  }

  lemma SameNames(accounts: seq<Account>, i: nat, a: Account)
    requires i < |accounts| && a.id == accounts[i].id
    ensures Names(accounts[i := a]) == Names(accounts) && a.id in Names(accounts)
  {
    var after := accounts[i := a];
    forall id | id in Names(accounts)
      ensures id in Names(after)
    {
      var j :| 0 <= j < |accounts| && accounts[j].id == id;
      assert after[j].id == id;
    }
  }

  lemma KeptFacts(books: Ledger, accounts: seq<Account>, holder: Holder, slots: seq<ObjectSlot>, i: nat)
    requires Kept(books, accounts, holder, slots) && i < |accounts|
    ensures |books| == |accounts| && Named(accounts) && KeptAt(books, accounts, holder, slots, i)
  {
  }

  lemma ConsistentAt(l: Ledger, d: nat, kind: Kind)
    requires Consistent(l) && d < |l|
    ensures Exact(l, d, kind) && Bounded(l, d)
  {
  }

  /** A charge or a release that matches what the domain has more or less of. */
  lemma KeptUsage(books: Ledger, accounts: seq<Account>, holder: Holder, slots: seq<ObjectSlot>,
                  i: nat, op: LedgerOp, a: Account, holder': Holder, slots': seq<ObjectSlot>)
    requires Kept(books, accounts, holder, slots) && i < |accounts| && Allowed(books, op)
    requires (op.OpCharge? || op.OpRelease?) && op.d == i && a == accounts[i].(usage := Post(books, op)[i].usage)
    requires forall j :: 0 <= j < |accounts| ==>
               && |HeldBy(holder', accounts[j].id)| == Post(books, op)[j].direct.capabilities
               && |OwnedBy(slots', accounts[j].id)| == Post(books, op)[j].direct.objects
    ensures Kept(Post(books, op), accounts[i := a], holder', slots')
  {
    var books', accounts' := Post(books, op), accounts[i := a];
    forall j | 0 <= j < |books|
      ensures KeptAt(books', accounts', holder', slots', j)
    {
      assert KeptAt(books, accounts, holder, slots, j);
    }
  }

  /** A root or child domain with a new name. */
  lemma KeptNew(books: Ledger, accounts: seq<Account>, holder: Holder, slots: seq<ObjectSlot>, op: LedgerOp, accounts': seq<Account>)
    requires Kept(books, accounts, holder, slots) && Allowed(books, op)
    requires match op
             case OpRoot(limits) => |accounts'| == |accounts| + 1 && accounts' == accounts + [accounts'[|accounts|]] &&
               accounts'[|accounts|] == Account(accounts'[|accounts|].id, None, limits, Zero, 0, 0, false)
             case OpChild(p, budget) =>
               p < |accounts| && accounts[p].childRefs < U32_MAX && |accounts'| == |accounts| + 1 &&
               accounts' == accounts[p := Charged(accounts[p], budget).(childRefs := accounts[p].childRefs + 1)] + [accounts'[|accounts|]] &&
               accounts'[|accounts|] == Account(accounts'[|accounts|].id, Some(accounts[p].id), budget, Zero, 0, 0, true)
             case _ => false
    requires forall j :: 0 <= j < |accounts| ==> accounts[j].id != accounts'[|accounts|].id
    requires HeldBy(holder, accounts'[|accounts|].id) == {} && OwnedBy(slots, accounts'[|accounts|].id) == {}
    ensures Kept(Post(books, op), accounts', holder, slots)
  {
    if op.OpChild? {
      assert KeptAt(books, accounts, holder, slots, op.parent);
    }
    forall j | 0 <= j < |accounts'|
      ensures KeptAt(Post(books, op), accounts', holder, slots, j)
    {
      assert j < |accounts| ==> KeptAt(books, accounts, holder, slots, j);
    }
  }

  /** A child that could not be counted. */
  lemma KeptLeak(books: Ledger, accounts: seq<Account>, holder: Holder, slots: seq<ObjectSlot>, p: nat, budget: Amounts)
    requires Kept(books, accounts, holder, slots) && Allowed(books, OpChild(p, budget)) && p < |accounts| && accounts[p].childRefs == U32_MAX
    ensures Kept(Post(books, OpChild(p, budget)), accounts[p := Charged(accounts[p], budget)], holder, slots)
  {
    assert KeptAt(books, accounts, holder, slots, p);
    var books', accounts' := Post(books, OpChild(p, budget)), accounts[p := Charged(accounts[p], budget)];
    forall j | 0 <= j < |books|
      ensures KeptAt(books', accounts', holder, slots, j)
    {
      assert KeptAt(books, accounts, holder, slots, j);
    }
  }

  lemma KeptRefund(books: Ledger, accounts: seq<Account>, holder: Holder, slots: seq<ObjectSlot>, d: nat, p: nat, accounts': seq<Account>)
    requires Kept(books, accounts, holder, slots) && d < |accounts| && Allowed(books, OpRefund(d)) && books[d].parent == Some(p)
    requires accounts[d].limits.Within(accounts[p].usage) && accounts[p].childRefs > 0
    requires accounts' == accounts[d := accounts[d].(active := false)]
                                  [p := Released(accounts[p], accounts[d].limits).(childRefs := accounts[p].childRefs - 1)]
    ensures Kept(Post(books, OpRefund(d)), accounts', holder, slots)
  {
    assert KeptAt(books, accounts, holder, slots, d) && KeptAt(books, accounts, holder, slots, p);
    forall j | 0 <= j < |books|
      ensures KeptAt(Post(books, OpRefund(d)), accounts', holder, slots, j)
    {
      assert KeptAt(books, accounts, holder, slots, j);
    }
  }

  /** The budget of each active child of the domain named `id`. */
  ghost function ChildBudgets(accounts: seq<Account>, id: ObjectId, kind: Kind): (r: seq<nat>)
    ensures |r| == |accounts|
    ensures forall i :: 0 <= i < |r| ==>
              r[i] == if accounts[i].active && accounts[i].parent == Some(id) then Part(accounts[i].limits, 1, kind) else 0
  {
    seq(|accounts|, i requires 0 <= i < |accounts| =>
      if accounts[i].active && accounts[i].parent == Some(id) then Part(accounts[i].limits, 1, kind) else 0)
  }

  lemma SharesAreBudgets(books: Ledger, accounts: seq<Account>, holder: Holder, slots: seq<ObjectSlot>, d: nat, kind: Kind)
    requires Kept(books, accounts, holder, slots) && d < |books|
    ensures Shares(books, d, kind) == ChildBudgets(accounts, accounts[d].id, kind)
  {
    forall i | 0 <= i < |books|
      ensures Shares(books, d, kind)[i] == ChildBudgets(accounts, accounts[d].id, kind)[i]
    {
      assert KeptAt(books, accounts, holder, slots, i);
    }
  }

  /** An insertion or removal touches the count of one domain. */
  lemma InsertCounts(r: Registry, act: Act, s: Registry, d: ObjectId)
    requires Moves(r, act, s) && act.ActInsert?
    ensures |HeldBy(s.holder, d)| == |HeldBy(r.holder, d)| + if act.space.domain == d then 1 else 0
  {
    NextIsNew(r.forest);
    HeldByGrow(r.holder, r.forest.next, (act.space, act.slot), d);
  }

  lemma RemoveCounts(r: Registry, act: Act, s: Registry, d: ObjectId)
    requires Moves(r, act, s) && act.ActRemove?
    ensures |HeldBy(r.holder, d)| == |HeldBy(s.holder, d)| + if act.space.domain == d then 1 else 0
  {
    HolderOf(r, act.space, act.slot);
    HeldByShrink(r.holder, r.cells[act.space][act.slot].node.value, d);
  }

  /** The books after an insertion and its charge. */
  lemma BookInsert(books: Ledger, accounts: seq<Account>, r: Registry, slots: seq<ObjectSlot>, i: nat, act: Act, s: Registry)
    requires Kept(books, accounts, r.holder, slots) && Attributed(Names(accounts), r.holder, slots)
    requires i < |accounts| && CanCharge(accounts[i], ONE_CAPABILITY)
    requires act.ActInsert? && act.space.domain == accounts[i].id && Moves(r, act, s)
    ensures Allowed(books, OpCharge(i, ONE_CAPABILITY))
    ensures var accounts' := accounts[i := Charged(accounts[i], ONE_CAPABILITY)];
      && Kept(Post(books, OpCharge(i, ONE_CAPABILITY)), accounts', s.holder, slots)
      && Attributed(Names(accounts'), s.holder, slots)
  {
    hide Moves;
    assert KeptAt(books, accounts, r.holder, slots, i);
    var op, a := OpCharge(i, ONE_CAPABILITY), Charged(accounts[i], ONE_CAPABILITY);
    forall j | 0 <= j < |accounts|
      ensures |HeldBy(s.holder, accounts[j].id)| == Post(books, op)[j].direct.capabilities
      ensures |OwnedBy(slots, accounts[j].id)| == Post(books, op)[j].direct.objects
    {
      assert KeptAt(books, accounts, r.holder, slots, j);
      InsertCounts(r, act, s, accounts[j].id);
    }
    KeptUsage(books, accounts, r.holder, slots, i, op, a, s.holder, slots);
    SameNames(accounts, i, a);
    InsertHolder(r, act, s);
  }

  lemma InsertHolder(r: Registry, act: Act, s: Registry)
    requires Moves(r, act, s) && act.ActInsert?
    ensures s.holder == r.holder[r.forest.next := (act.space, act.slot)]
  {
  }

  /** The books after a removal and its release. Something was charged to be released. */
  lemma BookRemove(books: Ledger, accounts: seq<Account>, r: Registry, slots: seq<ObjectSlot>, i: nat, act: Act, s: Registry)
    requires Kept(books, accounts, r.holder, slots) && Attributed(Names(accounts), r.holder, slots) && Consistent(books)
    requires i < |accounts| && act.ActRemove? && act.space.domain == accounts[i].id && Moves(r, act, s)
    ensures Allowed(books, OpRelease(i, ONE_CAPABILITY)) && ONE_CAPABILITY.Within(accounts[i].usage)
    ensures var accounts' := accounts[i := Released(accounts[i], ONE_CAPABILITY)];
      && Kept(Post(books, OpRelease(i, ONE_CAPABILITY)), accounts', s.holder, slots)
      && Attributed(Names(accounts'), s.holder, slots)
  {
    hide Moves;
    assert KeptAt(books, accounts, r.holder, slots, i);
    RemoveCounts(r, act, s, accounts[i].id);
    assert Exact(books, i, Capabilities);
    var op, a := OpRelease(i, ONE_CAPABILITY), Released(accounts[i], ONE_CAPABILITY);
    forall j | 0 <= j < |accounts|
      ensures |HeldBy(s.holder, accounts[j].id)| == Post(books, op)[j].direct.capabilities
      ensures |OwnedBy(slots, accounts[j].id)| == Post(books, op)[j].direct.objects
    {
      assert KeptAt(books, accounts, r.holder, slots, j);
      RemoveCounts(r, act, s, accounts[j].id);
    }
    KeptUsage(books, accounts, r.holder, slots, i, op, a, s.holder, slots);
    SameNames(accounts, i, a);
    RemoveHolder(r, act, s);
  }

  lemma RemoveHolder(r: Registry, act: Act, s: Registry)
    requires Moves(r, act, s) && act.ActRemove?
    ensures s.holder.Keys <= r.holder.Keys && forall k :: k in s.holder ==> s.holder[k] == r.holder[k]
  {
  }

  /** A node that was not held before is in the one space that changed. */
  lemma NewlyHeld(r: Registry, s: Registry, target: CapabilitySpace, k: nat)
    requires Sane(r) && Sane(s) && target in s.cells && target in r.cells && s.cells == r.cells[target := s.cells[target]]
    requires k in s.holder && k !in r.holder
    ensures s.holder[k].0 == target
  {
    assert SeatOf(s, k);
    var (c, i) := s.holder[k];
    assert c in r.cells && i < |r.cells[c]| ==> Taken(r, c, i);
  }

  /** The books after a transaction that delivered `n` capabilities. */
  lemma BookCommit(books: Ledger, accounts: seq<Account>, r: Registry, slots: seq<ObjectSlot>, i: nat, first: nat, n: nat,
                   target: CapabilitySpace, s: Registry)
    requires Kept(books, accounts, r.holder, slots) && Attributed(Names(accounts), r.holder, slots)
    requires Sane(r) && Sane(s) && target in s.cells && target in r.cells && s.cells == r.cells[target := s.cells[target]]
    requires i < |accounts| && CanCharge(accounts[i], Amounts(0, n, 0)) && (n > 0 ==> target.domain == accounts[i].id)
    requires Holding(r.holder, s.holder, first, n) && |HeldBy(s.holder, accounts[i].id)| == |HeldBy(r.holder, accounts[i].id)| + n
    ensures Allowed(books, OpCharge(i, Amounts(0, n, 0)))
    ensures var accounts' := accounts[i := Charged(accounts[i], Amounts(0, n, 0))];
      && Kept(Post(books, OpCharge(i, Amounts(0, n, 0))), accounts', s.holder, slots)
      && Attributed(Names(accounts'), s.holder, slots)
  {
    hide Sane, HeldBy, OwnedBy;
    assert KeptAt(books, accounts, r.holder, slots, i);
    var op, a := OpCharge(i, Amounts(0, n, 0)), Charged(accounts[i], Amounts(0, n, 0));
    forall j | 0 <= j < |accounts|
      ensures |HeldBy(s.holder, accounts[j].id)| == Post(books, op)[j].direct.capabilities
      ensures |OwnedBy(slots, accounts[j].id)| == Post(books, op)[j].direct.objects
    {
      assert KeptAt(books, accounts, r.holder, slots, j);
      if j != i {
        OtherHeld(accounts, r, s, target, first, n, i, j);
      }
    }
    KeptUsage(books, accounts, r.holder, slots, i, op, a, s.holder, slots);
    SameNames(accounts, i, a);
    forall k | k in s.holder
      ensures s.holder[k].0.domain in Names(accounts)
    {
      if k !in r.holder {
        NewlyHeld(r, s, target, k);
      }
    }
  }

  lemma OtherHeld(accounts: seq<Account>, r: Registry, s: Registry, target: CapabilitySpace, first: nat, n: nat, i: nat, j: nat)
    requires Sane(r) && Sane(s) && target in s.cells && target in r.cells && s.cells == r.cells[target := s.cells[target]]
    requires i < |accounts| && j < |accounts| && i != j && Named(accounts) && (n > 0 ==> target.domain == accounts[i].id)
    requires Holding(r.holder, s.holder, first, n)
    ensures HeldBy(s.holder, accounts[j].id) == HeldBy(r.holder, accounts[j].id)
  {
    forall k | k in HeldBy(s.holder, accounts[j].id)
      ensures k in HeldBy(r.holder, accounts[j].id)
    {
      if k !in r.holder {
        NewlyHeld(r, s, target, k);
      }
    }
  }

  lemma AttachHolder(r: Registry, c: CapabilitySpace, s: Registry)
    requires Moves(r, ActAttach(c), s)
    ensures s.holder == r.holder
  {
  }

  lemma CommitFacts(start: Start, system: CapabilitySystem, target: CapabilitySpace, domain: ResourceDomain,
                    handles: seq<Handle>, caps: seq<Cap>)
    requires Progress(start, system, target, domain, handles, caps) && domain.Valid()
    ensures var n := |handles|;
      && target in start.registry.cells && target in system.cells && system.cells == start.registry.cells[target := system.cells[target]]
      && Holding(start.registry.holder, system.holder, start.shape.forest.next, n)
      && domain.View() == Charged(start.account, Amounts(0, n, 0)) && CanCharge(start.account, Amounts(0, n, 0))
      && (n > 0 ==> target.domain == domain.id) && system.Slack(domain) == start.slack
  {
    hide Added, Delivered, CapsAre, Holding;
  }

  lemma BackFacts(start: Start, system: CapabilitySystem, target: CapabilitySpace, domain: ResourceDomain)
    requires Back(start, system, target, domain)
    ensures system.holder == start.registry.holder && domain.View() == start.account
  {
  }

  lemma NothingNamed(names: set<ObjectId>, holder: Holder, slots: seq<ObjectSlot>, id: ObjectId)
    requires Attributed(names, holder, slots) && id !in names
    ensures HeldBy(holder, id) == {} && OwnedBy(slots, id) == {}
  {
  }

  lemma MoreNames(accounts: seq<Account>, a: Account)
    ensures Names(accounts + [a]) == Names(accounts) + {a.id}
  {
    var after := accounts + [a];
    assert after[|accounts|] == a;
    forall id | id in Names(accounts)
      ensures id in Names(after)
    {
      var j :| 0 <= j < |accounts| && accounts[j].id == id;
      assert after[j].id == id;
    }
  }

  lemma NotNamed(accounts: seq<Account>, id: ObjectId)
    requires id !in Names(accounts)
    ensures forall j :: 0 <= j < |accounts| ==> accounts[j].id != id
  {
  }

  lemma BookRoot(books: Ledger, accounts: seq<Account>, holder: Holder, slots: seq<ObjectSlot>, a: Account)
    requires Kept(books, accounts, holder, slots) && Attributed(Names(accounts), holder, slots) && a.id !in Names(accounts)
    requires a.limits.Fits() && a == Account(a.id, None, a.limits, Zero, 0, 0, false)
    ensures Allowed(books, OpRoot(a.limits))
    ensures Kept(Post(books, OpRoot(a.limits)), accounts + [a], holder, slots) && Attributed(Names(accounts + [a]), holder, slots)
  {
    hide Names, Post;
    NothingNamed(Names(accounts), holder, slots, a.id);
    NotNamed(accounts, a.id);
    MoreNames(accounts, a);
    KeptNew(books, accounts, holder, slots, OpRoot(a.limits), accounts + [a]);
  }

  lemma BookChild(books: Ledger, accounts: seq<Account>, holder: Holder, slots: seq<ObjectSlot>, p: nat, budget: Amounts, a: Account)
    requires Kept(books, accounts, holder, slots) && Attributed(Names(accounts), holder, slots) && a.id !in Names(accounts)
    requires p < |accounts| && budget.Fits() && CanCharge(accounts[p], budget) && accounts[p].childRefs < U32_MAX
    requires a == Account(a.id, Some(accounts[p].id), budget, Zero, 0, 0, true)
    ensures Allowed(books, OpChild(p, budget))
    ensures var accounts' := accounts[p := Charged(accounts[p], budget).(childRefs := accounts[p].childRefs + 1)] + [a];
      Kept(Post(books, OpChild(p, budget)), accounts', holder, slots) && Attributed(Names(accounts'), holder, slots)
  {
    hide Names, Post;
    assert KeptAt(books, accounts, holder, slots, p);
    NothingNamed(Names(accounts), holder, slots, a.id);
    NotNamed(accounts, a.id);
    var parent := Charged(accounts[p], budget).(childRefs := accounts[p].childRefs + 1);
    SameNames(accounts, p, parent);
    MoreNames(accounts[p := parent], a);
    KeptNew(books, accounts, holder, slots, OpChild(p, budget), accounts[p := parent] + [a]);
  }

  lemma BookLeak(books: Ledger, accounts: seq<Account>, holder: Holder, slots: seq<ObjectSlot>, p: nat, budget: Amounts)
    requires Kept(books, accounts, holder, slots) && Attributed(Names(accounts), holder, slots)
    requires p < |accounts| && budget.Fits() && CanCharge(accounts[p], budget) && accounts[p].childRefs == U32_MAX
    ensures Allowed(books, OpChild(p, budget))
    ensures var accounts' := accounts[p := Charged(accounts[p], budget)];
      Kept(Post(books, OpChild(p, budget)), accounts', holder, slots) && Attributed(Names(accounts'), holder, slots)
  {
    hide Names, Post;
    assert KeptAt(books, accounts, holder, slots, p);
    SameNames(accounts, p, Charged(accounts[p], budget));
    KeptLeak(books, accounts, holder, slots, p, budget);
  }

  lemma BookRefund(books: Ledger, accounts: seq<Account>, holder: Holder, slots: seq<ObjectSlot>, d: nat, p: nat)
    requires Kept(books, accounts, holder, slots) && Attributed(Names(accounts), holder, slots) && Consistent(books)
    requires d < |accounts| && p < |accounts| && CanRefund(accounts[d], accounts[p])
    ensures Allowed(books, OpRefund(d)) && accounts[d].limits.Within(accounts[p].usage) && accounts[p].childRefs > 0
    ensures var accounts' := accounts[d := accounts[d].(active := false)]
                                     [p := Released(accounts[p], accounts[d].limits).(childRefs := accounts[p].childRefs - 1)];
      Kept(Post(books, OpRefund(d)), accounts', holder, slots) && Attributed(Names(accounts'), holder, slots)
  {
    hide Names, Post, Consistent;
    assert KeptAt(books, accounts, holder, slots, d) && KeptAt(books, accounts, holder, slots, p);
    RefundNeverUnderflows(books, d);
    var child, owner := accounts[d].(active := false), Released(accounts[p], accounts[d].limits).(childRefs := accounts[p].childRefs - 1);
    SameNames(accounts, d, child);
    SameNames(accounts[d := child], p, owner);
    KeptRefund(books, accounts, holder, slots, d, p, accounts[d := child][p := owner]);
  }

  lemma BookCreate(books: Ledger, accounts: seq<Account>, holder: Holder, slots: seq<ObjectSlot>, i: nat, id: ObjectId, kind: ObjectType,
                   slots': seq<ObjectSlot>)
    requires Kept(books, accounts, holder, slots) && Attributed(Names(accounts), holder, slots)
    requires i < |accounts| && CanCharge(accounts[i], ONE_OBJECT) && (id.index < |slots| ==> slots[id.index].state.Free?)
    requires forall o :: Lookup(slots', o) == if o == id then Some((kind, accounts[i].id)) else Lookup(slots, o)
    ensures Allowed(books, OpCharge(i, ONE_OBJECT))
    ensures var accounts' := accounts[i := Charged(accounts[i], ONE_OBJECT)];
      Kept(Post(books, OpCharge(i, ONE_OBJECT)), accounts', holder, slots') && Attributed(Names(accounts'), holder, slots')
  {
    hide Lookup;
    assert KeptAt(books, accounts, holder, slots, i);
    var op, a := OpCharge(i, ONE_OBJECT), Charged(accounts[i], ONE_OBJECT);
    forall j | 0 <= j < |accounts|
      ensures |HeldBy(holder, accounts[j].id)| == Post(books, op)[j].direct.capabilities
      ensures |OwnedBy(slots', accounts[j].id)| == Post(books, op)[j].direct.objects
    {
      assert KeptAt(books, accounts, holder, slots, j);
      OwnedByGrow(slots, slots', id, kind, accounts[i].id, accounts[j].id);
    }
    KeptUsage(books, accounts, holder, slots, i, op, a, holder, slots');
    SameNames(accounts, i, a);
    forall j | 0 <= j < |slots'| && slots'[j].state.Live?
      ensures slots'[j].state.owner in Names(accounts)
    {
      OwnedMember(slots, slots', id, kind, accounts[i].id, slots'[j].state.owner, j);
    }
  }

  /** A live object is on the books of its owner. */
  lemma BookedObject(books: Ledger, accounts: seq<Account>, holder: Holder, slots: seq<ObjectSlot>, i: nat, id: ObjectId)
    requires Kept(books, accounts, holder, slots) && Consistent(books) && i < |accounts|
    requires Lookup(slots, id).Some? && Lookup(slots, id).value.1 == accounts[i].id
    ensures Allowed(books, OpRelease(i, ONE_OBJECT)) && ONE_OBJECT.Within(accounts[i].usage)
  {
    hide Consistent;
    KeptFacts(books, accounts, holder, slots, i);
    assert id.index in OwnedBy(slots, accounts[i].id);
    SubsetSize({id.index}, OwnedBy(slots, accounts[i].id));
    ConsistentAt(books, i, Kind.Objects);
  }

  lemma BookDestroy(books: Ledger, accounts: seq<Account>, holder: Holder, slots: seq<ObjectSlot>, i: nat, id: ObjectId, slots': seq<ObjectSlot>)
    requires Kept(books, accounts, holder, slots) && Attributed(Names(accounts), holder, slots) && Consistent(books) && i < |accounts|
    requires Lookup(slots, id).Some? && Lookup(slots, id).value.1 == accounts[i].id
    requires forall o :: Lookup(slots', o) == if o == id then None else Lookup(slots, o)
    ensures Allowed(books, OpRelease(i, ONE_OBJECT)) && ONE_OBJECT.Within(accounts[i].usage)
    ensures var accounts' := accounts[i := Released(accounts[i], ONE_OBJECT)];
      Kept(Post(books, OpRelease(i, ONE_OBJECT)), accounts', holder, slots') && Attributed(Names(accounts'), holder, slots')
  {
    hide Consistent;
    BookedObject(books, accounts, holder, slots, i, id);
    assert KeptAt(books, accounts, holder, slots, i);
    var op, a := OpRelease(i, ONE_OBJECT), Released(accounts[i], ONE_OBJECT);
    forall j | 0 <= j < |accounts|
      ensures |HeldBy(holder, accounts[j].id)| == Post(books, op)[j].direct.capabilities
      ensures |OwnedBy(slots', accounts[j].id)| == Post(books, op)[j].direct.objects
    {
      assert KeptAt(books, accounts, holder, slots, j);
      OwnedByShrink(slots, slots', id, accounts[j].id);
    }
    KeptUsage(books, accounts, holder, slots, i, op, a, holder, slots');
    SameNames(accounts, i, a);
    forall j | 0 <= j < |slots'| && slots'[j].state.Live?
      ensures slots'[j].state.owner in Names(accounts)
    {
      var o := ObjectId(j, slots'[j].generation);
      assert Lookup(slots', o) == if o == id then None else Lookup(slots, o);
    }
  }

  class Kernel {
    const system: CapabilitySystem
    const arena: ObjectArena
    // All domains ever created, their accounts, and the history of the books.
    ghost var domains: seq<ResourceDomain>
    ghost var accounts: seq<Account>
    ghost var ledgers: seq<Ledger>
    ghost var postings: seq<LedgerOp>
    // The history of the capability engine.
    ghost var run: seq<Registry>
    ghost var acts: seq<Act>

    ghost function Books(): Ledger
      requires ledgers != []
      reads this`ledgers
    {
      ledgers[|ledgers| - 1]
    }

    /** The accounts are those of the domains, except possibly domain `i`. */
    ghost predicate Audited(skip: set<ResourceDomain>)
      reads this`accounts, this`domains, domains
    {
      && |accounts| == |domains| && Distinct(domains)
      && (forall i :: 0 <= i < |domains| ==> domains[i].Valid())
      && (forall i :: 0 <= i < |domains| && domains[i] !in skip ==> domains[i].View() == accounts[i])
    }

    /** The books fit the accounts and registry `r`. */
    ghost predicate Booked(r: Registry)
      reads this`accounts, this`ledgers, this`postings, arena
    {
      && |ledgers| == |postings| + 1 && IsHistory(ledgers, postings) && Kept(Books(), accounts, r.holder, arena.slots)
      && Attributed(Names(accounts), r.holder, arena.slots)
    }

    ghost predicate Traced()
      reads this`run, this`acts
    {
      |run| == |acts| + 1 && IsTrace(run, acts)
    }

    ghost predicate Valid()
      reads this, system, system.spaces, arena, domains
    {
      && system.Valid() && arena.Valid()
      && Traced() && run[|acts|] == system.Registry()
      && Booked(system.Registry()) && Audited({})
    }

    constructor (system: CapabilitySystem, arena: ObjectArena)
      requires system.Valid() && system.holder == map[] && arena.Valid() && arena.slots == []
      ensures Valid() && this.system == system && this.arena == arena && domains == []
    {
      hide IsHistory, Kept, Attributed, Names, IsTrace, CapabilitySystem.Sound, CapabilitySystem.LinkedFor, Objects.Threaded,
           Objects.Aged, Sane;
      this.system, this.arena := system, arena;
      domains, accounts, ledgers, postings := [], [], [[]], [];
      run, acts := [system.Registry()], [];
      BlankBooks(system.Registry());
      system.ValidIsSane();
      StartTrace(system.Registry(), []);
    }

    /** Enter one operation in the books. */
    ghost method Enter(op: LedgerOp)
      requires IsHistory(ledgers, postings) && Allowed(Books(), op)
      modifies this`ledgers, this`postings
      ensures IsHistory(ledgers, postings) && Books() == Post(old(Books()), op) && postings == old(postings) + [op]
      ensures ledgers == old(ledgers) + [Books()]
    {
      hide Allowed, Post;
      ledgers, postings := ledgers + [Post(Books(), op)], postings + [op];
      forall i | 0 <= i < |postings|
        ensures Follows(ledgers[i], postings[i], ledgers[i + 1])
      {
        if i < |old(postings)| {
          assert Follows(old(ledgers)[i], old(postings)[i], old(ledgers)[i + 1]);
        }
      }
    }

    /** Enter one operation in the engine's history. */
    ghost method Note(act: Act)
      requires Traced() && Moves(run[|acts|], act, system.Registry())
      modifies this`run, this`acts
      ensures Traced() && run[|acts|] == system.Registry() && acts == old(acts) + [act] && run == old(run) + [system.Registry()]
    {
      ExtendTrace(run, acts, act, system.Registry());
      run, acts := run + [system.Registry()], acts + [act];
    }

    /** Everything but the engine's latest change, and its charge to domain `i`, is entered. */
    ghost predicate Pending(i: nat)
      reads this, system, system.spaces, arena, domains
    {
      && system.Valid() && arena.Valid() && Traced() && Booked(run[|acts|])
      && i < |domains| && Audited({domains[i]})
    }

    ghost method SettleInsert(i: nat, act: Act)
      requires Pending(i) && act.ActInsert? && act.space.domain == accounts[i].id && Moves(run[|acts|], act, system.Registry())
      requires CanCharge(accounts[i], ONE_CAPABILITY) && domains[i].View() == Charged(accounts[i], ONE_CAPABILITY)
      modifies this`accounts, this`ledgers, this`postings, this`run, this`acts
      ensures Valid() && acts == old(acts) + [act] && postings == old(postings) + [OpCharge(i, ONE_CAPABILITY)]
    {
      hide IsHistory, Kept, Attributed, Names, IsTrace, CapabilitySystem.Sound, CapabilitySystem.LinkedFor, Allowed, Post, Moves;
      BookInsert(Books(), accounts, run[|acts|], arena.slots, i, act, system.Registry());
      Enter(OpCharge(i, ONE_CAPABILITY));
      accounts := accounts[i := domains[i].View()];
      Note(act);
    }

    ghost method SettleRemove(i: nat, act: Act)
      requires Pending(i) && act.ActRemove? && act.space.domain == accounts[i].id && Moves(run[|acts|], act, system.Registry())
      requires ONE_CAPABILITY.Within(accounts[i].usage) && domains[i].View() == Released(accounts[i], ONE_CAPABILITY)
      modifies this`accounts, this`ledgers, this`postings, this`run, this`acts
      ensures Valid() && acts == old(acts) + [act] && postings == old(postings) + [OpRelease(i, ONE_CAPABILITY)]
    {
      hide IsHistory, Kept, Attributed, Names, IsTrace, CapabilitySystem.Sound, CapabilitySystem.LinkedFor, Allowed, Post, Moves, Consistent;
      AccountingExact(ledgers, postings, |ledgers| - 1);
      BookRemove(Books(), accounts, run[|acts|], arena.slots, i, act, system.Registry());
      Enter(OpRelease(i, ONE_CAPABILITY));
      accounts := accounts[i := domains[i].View()];
      Note(act);
    }

    /** Enter a stretch of the engine's history. */
    ghost method Follow(steps: seq<Registry>, did: seq<Act>)
      requires Traced() && |steps| == |did| + 1 && IsTrace(steps, did) && run[|acts|] == steps[0] && steps[|did|] == system.Registry()
      modifies this`run, this`acts
      ensures Traced() && run[|acts|] == system.Registry() && acts == old(acts) + did
    {
      hide IsTrace;
      JoinTraces(run, acts, steps, did);
      run, acts := run + steps[1..], acts + did;
    }

    ghost method SettleCommit(i: nat, start: Start, target: CapabilitySpace, handles: seq<Handle>, caps: seq<Cap>)
      requires Pending(i) && Progress(start, system, target, domains[i], handles, caps)
      requires start.registry == run[|acts|] && Sane(start.registry) && start.account == accounts[i]
      requires start.slack == accounts[i].usage.capabilities - |HeldBy(start.registry.holder, accounts[i].id)|
      modifies this`accounts, this`ledgers, this`postings
      ensures Traced() && Booked(system.Registry()) && Audited({})
      ensures postings == old(postings) + [OpCharge(i, Amounts(0, |handles|, 0))]
    {
      hide IsHistory, Kept, Attributed, Names, IsTrace, CapabilitySystem.Sound, CapabilitySystem.LinkedFor, Allowed, Post, Sane, Progress,
           Holding, Represents, ObjectArena.Valid;
      ghost var n := |handles|;
      system.ValidIsSane();
      CommitFacts(start, system, target, domains[i], handles, caps);
      BookCommit(Books(), accounts, start.registry, arena.slots, i, start.shape.forest.next, n, target, system.Registry());
      Enter(OpCharge(i, Amounts(0, n, 0)));
      accounts := accounts[i := domains[i].View()];
    }

    lemma SettleAbort(i: nat, start: Start, target: CapabilitySpace)
      requires Pending(i) && Back(start, system, target, domains[i])
      requires start.registry == run[|acts|] && start.account == accounts[i]
      ensures Booked(system.Registry()) && Audited({})
    {
      hide IsHistory, Kept, Attributed, Names, IsTrace, CapabilitySystem.Sound, CapabilitySystem.LinkedFor, Back;
      BackFacts(start, system, target, domains[i]);
    }

    ghost method SettleTransaction(ok: bool, i: nat, start: Start, target: CapabilitySpace, handles: seq<Handle>, caps: seq<Cap>,
                                   steps: seq<Registry>, did: seq<Act>)
      requires Pending(i) && start.registry == run[|acts|] && Sane(start.registry) && start.account == accounts[i]
      requires start.slack == accounts[i].usage.capabilities - |HeldBy(start.registry.holder, accounts[i].id)|
      requires if ok then Progress(start, system, target, domains[i], handles, caps) else Back(start, system, target, domains[i])
      requires |steps| == |did| + 1 && IsTrace(steps, did) && start.registry == steps[0] && steps[|did|] == system.Registry()
      modifies this`accounts, this`ledgers, this`postings, this`run, this`acts
      ensures Valid() && acts == old(acts) + did
      ensures ok ==> postings == old(postings) + [OpCharge(i, Amounts(0, |handles|, 0))]
      ensures !ok ==> postings == old(postings) && ledgers == old(ledgers) && accounts == old(accounts)
    {
      hide Progress, Back, IsTrace, CapabilitySystem.Valid, ObjectArena.Valid, Booked, Audited, Sane;
      if ok {
        SettleCommit(i, start, target, handles, caps);
      } else {
        SettleAbort(i, start, target);
      }
      Follow(steps, did);
    }

    // ---------- what the books say ----------

    /** What a domain holds is covered by its charge. */
    lemma Covered(d: nat)
      requires Valid() && d < |domains|
      ensures system.Slack(domains[d]) >= 0
    {
      ChargeExplained(d);
    }

    /**
      A domain's capability charge is its occupied slots, its active children's budgets and what failed
      creations of children have left, within its limit. The last part is missing exactly if no creation
      of a child of it has failed at the maximum count of children. The same holds for its objects.
    */
    lemma ChargeExplained(d: nat)
      requires Valid() && d < |domains|
      ensures |accounts| == |domains| && d < |Books()|
      ensures var held, budgets, leaked := |system.HeldIn(domains[d].id)|, Sum(ChildBudgets(accounts, domains[d].id, Capabilities)), Books()[d].leaked.capabilities;
        && domains[d].capabilities == held + budgets + leaked <= domains[d].limits.capabilities
        && system.Slack(domains[d]) == budgets + leaked >= 0
        && (domains[d].capabilities == held + budgets <==> !LeakedBefore(ledgers, postings, |postings|, d, Capabilities))
      ensures var live, budgets := |OwnedBy(arena.slots, domains[d].id)|, Sum(ChildBudgets(accounts, domains[d].id, Kind.Objects));
        && live + budgets <= domains[d].objects <= domains[d].limits.objects
        && (domains[d].objects == live + budgets <==> !LeakedBefore(ledgers, postings, |postings|, d, Kind.Objects))
    {
      hide IsHistory, Kept, Attributed, Names, IsTrace, CapabilitySystem.Sound, CapabilitySystem.LinkedFor, Sum, LeakedBefore, Consistent;
      var books := Books();
      AccountingExact(ledgers, postings, |postings|);
      KeptFacts(books, accounts, system.holder, arena.slots, d);
      forall kind
        ensures Part(books[d].usage, books[d].childRefs, kind)
                == Part(books[d].direct, 0, kind) + Part(books[d].leaked, 0, kind) + Sum(ChildBudgets(accounts, accounts[d].id, kind))
        ensures Part(books[d].leaked, 0, kind) == 0 <==> !LeakedBefore(ledgers, postings, |postings|, d, kind)
      {
        ConsistentAt(books, d, kind);
        SharesAreBudgets(books, accounts, system.holder, arena.slots, d, kind);
        LeakedIff(ledgers, postings, |postings|, d, kind);
      }
      assert Part(books[d].usage, books[d].childRefs, Capabilities) == books[d].usage.capabilities;
      assert Part(books[d].usage, books[d].childRefs, Kind.Objects) == books[d].usage.objects;
    }

    // ---------- what has become of a handle ----------

    /**
      A handle that was removed at step `t` resolves now exactly when its slot is occupied after a whole
      number of generation periods.
    */
    lemma RemovedHandle(t: nat)
      requires Valid() && t < |acts| && acts[t].ActRemove?
      ensures var c, i := acts[t].space, acts[t].slot;
        && c in system.spaces && c in run[t].cells && i < |run[t].cells[c]| && i < |c.slots| && i < |c.epochs|
        && run[t].cells[c][i].epoch < c.epochs[i]
        && (c.NodeFor(HandleOf(run[t].cells[c], i)).Ok? <==>
            c.slots[i].node.Some? && (c.epochs[i] - run[t].cells[c][i].epoch) % PERIOD == 0)
    {
      hide IsTrace, CapabilitySystem.Sound, Seated, SlotsThreaded, SlotsAged, Booked, Audited, ObjectArena.Valid;
      var c, i := acts[t].space, acts[t].slot;
      RemovedHandleResolves(run, acts, t, |acts|);
      var h := HandleOf(run[t].cells[c], i);
      system.NodeForLeads(c, h);
      assert system.Mirrors(c);
      assert MirrorAt(system.cells[c], c.slots, c.epochs, system.shape.ids, i);
    }

    /**
      What a handle that led to a node at step `i` is good for now. While its slot has not been recycled it
      is answered `Revoked` exactly if it was then or a node of that lineage has been revoked since, and
      with the same grant otherwise; once recycled it is stale, unless the slot is occupied again after a
      whole number of generation periods.
    */
    lemma HandleSince(i: nat, c: CapabilitySpace, h: Handle)
      requires Valid() && i <= |acts| && c in run[i].cells && Leads(run[i].cells[c], h).Some?
      ensures Sane(run[i]) && c in system.spaces && h.slot < |run[i].cells[c]| && h.slot < |c.epochs| && h.slot < |c.slots|
      ensures var k := Leads(run[i].cells[c], h).value;
        var before, after := run[i].cells[c][h.slot].epoch, c.epochs[h.slot];
        && k in run[i].forest.caps && before <= after
        && (before == after ==>
              system.HandleVerdict(c, h, arena) ==
                if StruckBetween(acts, i, |acts|, Lineage(run[i].forest, k)) then Err(Revoked) else Answer(run[i], c, h, arena))
        && (before < after && !(c.slots[h.slot].node.Some? && (after - before) % PERIOD == 0) ==>
              system.HandleVerdict(c, h, arena) == Err(StaleHandle))
    {
      hide IsTrace, CapabilitySystem.Sound, Seated, SlotsThreaded, SlotsAged, Booked, Audited, ObjectArena.Valid, Sane, Standing, Lineage,
           StruckBetween, CapabilitySystem.HandleVerdict;
      TraceSane(run, acts, i);
      HandleFate(run, acts, i, |acts|, c, h);
      LeadsHeld(run[i], c, h);
      system.VerdictIsAnswer(c, h, arena);
      assert system.Mirrors(c);
      assert MirrorAt(system.cells[c], c.slots, c.epochs, system.shape.ids, h.slot);
    }

    // ---------- capabilities ----------

    /** Nothing was entered, and no domain changed. */
    twostate predicate Idle()
      reads this
    {
      postings == old(postings) && ledgers == old(ledgers) && acts == old(acts) && run == old(run) && accounts == old(accounts)
    }

    method InsertRoot(target: CapabilitySpace, domain: ResourceDomain, ghost d: nat, id: ObjectId, kind: ObjectType, rights: Rights)
      returns (r: Result<Handle, CapabilityError>)
      requires Valid() && target in system.spaces && d < |domains| && domains[d] == domain
      modifies this, system, target, domain
      ensures Valid() && domains == old(domains)
      ensures r.Ok? <==> old(arena.TypeOf(id)) == Some(kind) && old(system.CanInsert(target, domain))
      ensures r.Err? ==> Idle()
      ensures r.Err? ==>
                r.error == if target.domain == domain.id && old(arena.TypeOf(id)) != Some(kind) then ObjectDestroyed
                           else old(system.InsertError(target, domain))
      ensures r.Ok? ==>
                && acts == old(acts) + [ActInsert(target, r.value.slot, None, CapabilityInfo(id, kind, rights))]
                && postings == old(postings) + [OpCharge(d, ONE_CAPABILITY)]
    {
      hide IsHistory, Kept, Attributed, Names, IsTrace, CapabilitySystem.Sound, CapabilitySystem.LinkedFor, Allowed, Post, Moves, Consistent, Inserted;
      r := system.InsertRoot(target, domain, id, kind, rights, arena);
      if r.Ok? {
        SettleInsert(d, ActInsert(target, r.value.slot, None, CapabilityInfo(id, kind, rights)));
      }
    }

    method InsertDescendant(parent: NodeId, target: CapabilitySpace, domain: ResourceDomain, ghost d: nat, id: ObjectId,
                            kind: ObjectType, rights: Rights) returns (r: Result<Handle, CapabilityError>)
      requires Valid() && target in system.spaces && d < |domains| && domains[d] == domain
      modifies this, system, target, domain
      ensures Valid() && domains == old(domains)
      ensures r.Ok? <==> old(arena.TypeOf(id)) == Some(kind) && old(system.Verdict(parent, arena)).Ok?
                         && IsSubsetOf(rights, old(system.Verdict(parent, arena)).value.rights) && old(system.CanInsert(target, domain))
      ensures r.Err? ==> Idle()
      ensures r.Err? ==>
                r.error == if target.domain != domain.id then DomainMismatch
                           else if old(arena.TypeOf(id)) != Some(kind) then ObjectDestroyed
                           else if old(system.Verdict(parent, arena)).Err? then old(system.Verdict(parent, arena)).error
                           else if !IsSubsetOf(rights, old(system.Verdict(parent, arena)).value.rights) then RightsEscalation
                           else old(system.InsertError(target, domain))
      ensures r.Ok? ==>
                && acts == old(acts) + [ActInsert(target, r.value.slot, old(system.Key(parent)), CapabilityInfo(id, kind, rights))]
                && postings == old(postings) + [OpCharge(d, ONE_CAPABILITY)]
    {
      hide IsHistory, Kept, Attributed, Names, IsTrace, CapabilitySystem.Sound, CapabilitySystem.LinkedFor, Allowed, Post, Moves, Consistent, Inserted, CapabilitySystem.Verdict;
      r := system.InsertDescendant(parent, target, domain, id, kind, rights, arena);
      if r.Ok? {
        SettleInsert(d, ActInsert(target, r.value.slot, old(system.Key(parent)), CapabilityInfo(id, kind, rights)));
      }
    }

    method Derive(source: CapabilitySpace, handle: Handle, target: CapabilitySpace, domain: ResourceDomain, ghost d: nat, rights: Rights)
      returns (r: Result<Handle, CapabilityError>)
      requires Valid() && source in system.spaces && target in system.spaces && source != target && d < |domains| && domains[d] == domain
      modifies this, system, target, domain
      ensures Valid() && domains == old(domains) && source in old(system.cells)
      ensures r.Ok? <==> old(system.CanDerive(source, handle, rights, arena)) && old(system.CanInsert(target, domain))
      ensures r.Err? ==> Idle()
      ensures r.Err? ==> r.error == old(system.DeriveError(source, handle, rights, arena, target, domain))
      ensures old(system.HandleVerdict(source, handle, arena)).Ok? ==>
                (r == Err(RightsEscalation) <==> Exceeds(rights, old(system.HandleVerdict(source, handle, arena)).value.rights))
      ensures r.Ok? ==>
                && acts == old(acts) + [ActInsert(target, r.value.slot, Leads(old(system.cells)[source], handle),
                                                  old(system.HandleVerdict(source, handle, arena)).value.(rights := rights))]
                && postings == old(postings) + [OpCharge(d, ONE_CAPABILITY)]
    {
      hide IsHistory, Kept, Attributed, Names, IsTrace, CapabilitySystem.Sound, CapabilitySystem.LinkedFor, Allowed, Post, Moves, Consistent, Inserted, CapabilitySystem.Verdict;
      r := system.Derive(source, handle, target, domain, rights, arena);
      if r.Ok? {
        SettleInsert(d, ActInsert(target, r.value.slot, Leads(old(system.cells)[source], handle),
                                  old(system.HandleVerdict(source, handle, arena)).value.(rights := rights)));
      }
    }

    /** Delete a handle. What it releases was charged, so the accounting cannot fail. */
    method Delete(space: CapabilitySpace, domain: ResourceDomain, ghost d: nat, handle: Handle)
      returns (r: Result<(), CapabilityError>)
      requires Valid() && space in system.spaces && d < |domains| && domains[d] == domain
      modifies this, system, space, domain
      ensures Valid() && domains == old(domains)
      ensures space.domain != domain.id ==> r == Err(DomainMismatch)
      ensures space.domain == domain.id ==>
                && (r.Ok? <==> old(space.NodeFor(handle)).Ok?)
                && (r.Err? ==> r.error == old(space.NodeFor(handle)).error)
      ensures r.Err? ==> Idle()
      ensures r.Ok? ==>
                && acts == old(acts) + [ActRemove(space, handle.slot)]
                && postings == old(postings) + [OpRelease(d, ONE_CAPABILITY)]
    {
      hide IsHistory, Kept, Attributed, Names, IsTrace, CapabilitySystem.Sound, CapabilitySystem.LinkedFor, Allowed, Post, Moves, Consistent;
      Covered(d);
      r := system.Delete(space, domain, handle);
      if r.Ok? {
        SettleRemove(d, ActRemove(space, handle.slot));
      }
    }

    /** Revoke what a handle leads to. Nothing is charged or released. */
    method Revoke(space: CapabilitySpace, handle: Handle) returns (r: Result<CapabilityInfo, CapabilityError>)
      requires Valid() && space in system.spaces
      modifies this, system
      ensures Valid() && domains == old(domains) && postings == old(postings)
      ensures r.Ok? <==> old(system.HandleVerdict(space, handle, arena)).Ok?
                         && Has(old(system.HandleVerdict(space, handle, arena)).value.rights, 6)
      ensures r.Err? ==> Idle()
      ensures r.Err? ==>
                r.error == if old(system.HandleVerdict(space, handle, arena)).Err? then old(system.HandleVerdict(space, handle, arena)).error
                           else RightsDenied
      ensures r.Ok? ==>
                && space in system.cells && Leads(system.cells[space], handle).Some?
                && acts == old(acts) + [ActRevoke(Leads(system.cells[space], handle).value)]
    {
      hide IsHistory, Kept, Attributed, Names, IsTrace, CapabilitySystem.Sound, CapabilitySystem.LinkedFor, Allowed, Post, Moves, Consistent, CapabilitySystem.Verdict, LeadsBelow;
      r := system.Revoke(space, handle, arena);
      if r.Ok? {
        Note(ActRevoke(Leads(system.cells[space], handle).value));
      }
    }

    /** Revoke everything below a node. */
    method SelectiveRevoke(root: NodeId) returns (infos: seq<CapabilityInfo>, ghost order: seq<nat>)
      requires Valid()
      modifies this, system
      ensures Valid() && domains == old(domains) && postings == old(postings)
      ensures acts == old(acts) + Revocations(order) && Reported(old(system.shape.forest), order, infos)
      ensures system.Key(root).None? ==> order == []
      ensures system.Key(root).Some? ==>
                && WellFormed(old(system.shape.forest)) && Distinct(order)
                && Elements(order) == Derivation.Pending(old(system.shape.forest), system.Key(root).value)
    {
      hide IsHistory, Kept, Attributed, Names, IsTrace, CapabilitySystem.Sound, CapabilitySystem.LinkedFor, Allowed, Post, Moves, Consistent, TornDown, NodeTable.Denotes;
      ghost var steps;
      infos, order, steps := system.SelectiveRevoke(root);
      Follow(steps, Revocations(order));
    }

    /** Put a new, empty space into use. */
    ghost method Attach(space: CapabilitySpace)
      requires Valid() && space.Valid() && space.slots == [] && space !in system.spaces
      modifies this, system
      ensures Valid() && domains == old(domains) && postings == old(postings)
      ensures acts == old(acts) + [ActAttach(space)] && system.spaces == old(system.spaces) + {space}
    {
      hide IsHistory, Kept, Attributed, Names, IsTrace, CapabilitySystem.Sound, CapabilitySystem.LinkedFor, Allowed, Post, Moves, Consistent;
      system.Attach(space);
      AttachHolder(run[|acts|], space, system.Registry());
      Note(ActAttach(space));
    }

    /** Commit a transaction. A failed one leaves a trace in the engine's history but none in the books. */
    method Commit(transfers: seq<PreparedTransfer>, source: CapabilitySpace, target: CapabilitySpace, domain: ResourceDomain, ghost d: nat)
      returns (r: Result<seq<Handle>, CapabilityError>, ghost start: Start, ghost handles: seq<Handle>, ghost caps: seq<Cap>)
      requires Valid() && source in system.spaces && target in system.spaces && source != target && d < |domains| && domains[d] == domain
      modifies this, system, target, domain
      ensures Valid() && domains == old(domains)
      ensures Sane(start.registry) && source in start.registry.cells && start.registry == old(system.Registry())
      ensures start.account == old(domain.View()) && start.room == old(target.Room()) && start.nodeRoom == old(system.NodeRoom())
      ensures r.Ok? <==> CanCommit(transfers, start, source, target, domain, arena)
      ensures r.Ok? ==> r.value == handles && |handles| == |transfers| && Progress(start, system, target, domain, handles, caps)
      ensures |handles| == |caps| <= |transfers| && acts == old(acts) + Insertions(target, handles, caps) + if r.Ok? then [] else Removals(target, handles)
      ensures r.Err? ==>
                |handles| < |transfers| && r.error == StepError(start, source, transfers[|handles|], target, domain, arena, |handles|)
      ensures r.Ok? ==> postings == old(postings) + [OpCharge(d, Amounts(0, |transfers|, 0))]
      ensures r.Err? ==> postings == old(postings) && accounts == old(accounts) && Back(start, system, target, domain)
    {
      hide IsHistory, Kept, Attributed, Names, IsTrace, CapabilitySystem.Sound, CapabilitySystem.LinkedFor, Allowed, Post, Moves, Consistent, Derivable, Granted, Back,
           Progress, CanCommit, Insertions, Removals, ObjectArena.Valid, Sane, Booked, Traced,
           CapabilitySystem.Valid, CapabilitySpace.Valid, StepError;
      ghost var steps;
      Covered(d);
      r, start, handles, caps, steps := Transfers.Commit(transfers, system, source, target, domain, arena);
      SettleTransaction(r.Ok?, d, start, target, handles, caps, steps,
                        Insertions(target, handles, caps) + if r.Ok? then [] else Removals(target, handles));
    }

    // ---------- domains ----------

    /** A domain of its own, with a name no other domain has. */
    method NewRoot(id: ObjectId, limits: Amounts) returns (domain: ResourceDomain)
      requires Valid() && limits.Fits() && id !in Names(accounts)
      modifies this
      ensures Valid() && fresh(domain) && domains == old(domains) + [domain]
      ensures domain.View() == Account(id, None, limits, Zero, 0, 0, false)
      ensures postings == old(postings) + [OpRoot(limits)] && acts == old(acts)
    {
      hide IsHistory, Kept, Attributed, Names, IsTrace, CapabilitySystem.Valid, Allowed, Post, Consistent, Traced, ObjectArena.Valid,
           Named;
      domain := new ResourceDomain(id, limits);
      BookRoot(Books(), accounts, system.holder, arena.slots, domain.View());
      Enter(OpRoot(limits));
      accounts, domains := accounts + [domain.View()], domains + [domain];
    }

    /** Carve a child's budget out of a domain. If the child cannot be counted, its budget stays charged. */
    method NewChild(id: ObjectId, parent: ResourceDomain, ghost p: nat, budget: Amounts) returns (r: Result<ResourceDomain, ResourceError>)
      requires Valid() && p < |domains| && domains[p] == parent && budget.Fits() && id !in Names(accounts)
      modifies this, parent
      ensures Valid() && acts == old(acts)
      ensures r.Ok? <==> CanCharge(old(parent.View()), budget) && old(parent.childRefs) < U32_MAX
      ensures r.Ok? ==> fresh(r.value) && domains == old(domains) + [r.value] && r.value.View() == Account(id, Some(parent.id), budget, Zero, 0, 0, true)
      ensures r.Err? ==> domains == old(domains)
      ensures r.Err? ==> r.error == Exhausted(old(parent.View()).usage.Plus(budget), parent.limits)
      ensures postings == old(postings) + if CanCharge(old(parent.View()), budget) then [OpChild(p, budget)] else []
    {
      hide IsHistory, Kept, Attributed, Names, IsTrace, CapabilitySystem.Valid, Allowed, Post, Consistent, Traced, ObjectArena.Valid,
           Named;
      ghost var a := accounts[p];
      r := ResourceDomain.NewChild(id, parent, budget);
      if r.Ok? {
        SettleChild(p, r.value, budget);
      } else if CanCharge(a, budget) {
        SettleLeak(p, budget);
      }
    }

    ghost method SettleChild(p: nat, child: ResourceDomain, budget: Amounts)
      requires Pending(p) && run[|acts|] == system.Registry() && child !in domains && child.Valid()
      requires child.id !in Names(accounts) && child.View() == Account(child.id, Some(accounts[p].id), budget, Zero, 0, 0, true)
      requires budget.Fits() && CanCharge(accounts[p], budget) && accounts[p].childRefs < U32_MAX
      requires domains[p].View() == Charged(accounts[p], budget).(childRefs := accounts[p].childRefs + 1)
      modifies this`accounts, this`domains, this`ledgers, this`postings
      ensures Valid() && domains == old(domains) + [child] && postings == old(postings) + [OpChild(p, budget)]
    {
      hide IsHistory, Kept, Attributed, Names, IsTrace, CapabilitySystem.Valid, Allowed, Post, ObjectArena.Valid, Named;
      BookChild(Books(), accounts, system.holder, arena.slots, p, budget, child.View());
      Enter(OpChild(p, budget));
      accounts, domains := accounts[p := domains[p].View()] + [child.View()], domains + [child];
    }

    ghost method SettleLeak(p: nat, budget: Amounts)
      requires Pending(p) && run[|acts|] == system.Registry()
      requires budget.Fits() && CanCharge(accounts[p], budget) && accounts[p].childRefs == U32_MAX
      requires domains[p].View() == Charged(accounts[p], budget)
      modifies this`accounts, this`ledgers, this`postings
      ensures Valid() && postings == old(postings) + [OpChild(p, budget)]
    {
      hide IsHistory, Kept, Attributed, Names, IsTrace, CapabilitySystem.Valid, Allowed, Post, ObjectArena.Valid, Named;
      BookLeak(Books(), accounts, system.holder, arena.slots, p, budget);
      Enter(OpChild(p, budget));
      accounts := accounts[p := domains[p].View()];
    }

    /** Return an idle child's budget. The underflow checks never fire. */
    method Refund(child: ResourceDomain, owner: ResourceDomain, ghost d: nat, ghost p: nat) returns (r: Result<(), ResourceError>)
      requires Valid() && d < |domains| && domains[d] == child && p < |domains| && domains[p] == owner && d != p
      modifies this, child, owner
      ensures Valid() && domains == old(domains) && acts == old(acts)
      ensures r.Ok? <==> CanRefund(old(child.View()), old(owner.View()))
      ensures r.Err? ==> r.error == StillReferenced
      ensures postings == old(postings) + if r.Ok? then [OpRefund(d)] else []
    {
      hide IsHistory, Kept, Attributed, Names, IsTrace, CapabilitySystem.Valid, Allowed, Post, Consistent, Traced, ObjectArena.Valid,
           Named;
      ghost var c, o := accounts[d], accounts[p];
      if CanRefund(c, o) {
        AccountingExact(ledgers, postings, |postings|);
        BookRefund(Books(), accounts, system.holder, arena.slots, d, p);
      }
      r := child.RefundToParent(owner);
      if r.Ok? {
        Enter(OpRefund(d));
        accounts := accounts[d := child.View()][p := owner.View()];
      }
    }

    // ---------- objects ----------

    method Create(domain: ResourceDomain, ghost d: nat, factory: Factory, kind: ObjectType) returns (r: Result<ObjectId, ObjectError>)
      requires Valid() && d < |domains| && domains[d] == domain
      modifies this, arena, domain
      ensures Valid() && domains == old(domains) && acts == old(acts)
      ensures r.Ok? <==> factory.domain == domain.id && kind in factory.allowed && old(arena.HasRoom())
                         && CanCharge(old(domain.View()), ONE_OBJECT)
      ensures postings == old(postings) + if r.Ok? then [OpCharge(d, ONE_OBJECT)] else []
      ensures r.Err? ==> r.error == if factory.domain != domain.id then FactoryDomainMismatch
                                    else if kind !in factory.allowed then FactoryDenied
                                    else if !old(arena.HasRoom()) then ArenaFull
                                    else ObjectError.Resource(ObjectLimit)
    {
      hide IsHistory, Kept, Attributed, Names, IsTrace, CapabilitySystem.Valid, Allowed, Post, Consistent, Traced, ObjectArena.Valid,
           Named;
      r := arena.Create(domain, factory, kind);
      if r.Ok? {
        BookCreate(Books(), accounts, system.holder, old(arena.slots), d, r.value, kind, arena.slots);
        Enter(OpCharge(d, ONE_OBJECT));
        accounts := accounts[d := domain.View()];
      } else {
        assert arena.slots == old(arena.slots);
      }
    }

    /** Destroy an object. What it releases was charged, so the accounting cannot fail. */
    method Destroy(domain: ResourceDomain, ghost d: nat, id: ObjectId) returns (r: Result<(), ObjectError>)
      requires Valid() && d < |domains| && domains[d] == domain
      modifies this, arena, domain
      ensures Valid() && domains == old(domains) && acts == old(acts)
      ensures r.Ok? <==> Lookup(old(arena.slots), id).Some? && Lookup(old(arena.slots), id).value.1 == domain.id
      ensures postings == old(postings) + if r.Ok? then [OpRelease(d, ONE_OBJECT)] else []
      ensures r.Err? ==> r.error == if Lookup(old(arena.slots), id).None? then ObjectNotFound else OwnerDomainMismatch
    {
      hide IsHistory, Kept, Attributed, Names, IsTrace, CapabilitySystem.Valid, Allowed, Post, Consistent, Traced, ObjectArena.Valid,
           Named;
      AccountingExact(ledgers, postings, |postings|);
      if Lookup(arena.slots, id).Some? && Lookup(arena.slots, id).value.1 == domain.id {
        BookedObject(Books(), accounts, system.holder, arena.slots, d, id);
      }
      r := arena.Destroy(domain, id);
      if r.Ok? {
        BookDestroy(Books(), accounts, system.holder, old(arena.slots), d, id, arena.slots);
        Enter(OpRelease(d, ONE_OBJECT));
        accounts := accounts[d := domain.View()];
      } else {
        assert arena.slots == old(arena.slots);
      }
    }
  }
}
