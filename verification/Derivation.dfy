/**
  The derivation forest: what the kernel's capability nodes mean, independent of how they are stored.

  Every capability node gets a serial number when it is created; serial numbers are never reused.
  A node records what it grants, which node it was derived from, and whether it was revoked.
  `held` are the nodes some capability slot refers to; the others survive only for their descendants.
*/
module Derivation {
  import opened Common
  import opened Abi

  datatype Cap = Cap(info: CapabilityInfo, parent: Option<nat>, revoked: bool)

  datatype Forest = Forest(caps: map<nat, Cap>, held: set<nat>, next: nat)

  const Empty: Forest := Forest(map[], {}, 0)

  /** Parents exist and are older than their children, and no child has a right its parent lacks. */
  ghost predicate WellFormed(f: Forest) {
    && f.held <= f.caps.Keys
    && (forall k :: k in f.caps ==> k < f.next)
    && (forall k {:trigger ChildOk(f, k)} :: k in f.caps && f.caps[k].parent.Some? ==> ChildOk(f, k))
  }

  ghost predicate ChildOk(f: Forest, k: nat)
    requires k in f.caps && f.caps[k].parent.Some?
  {
    var p := f.caps[k].parent.value;
    p in f.caps && p < k && IsSubsetOf(f.caps[k].info.rights, f.caps[p].info.rights)
  }

  ghost predicate IsChild(f: Forest, k: nat, p: nat) {
    k in f.caps && f.caps[k].parent == Some(p)
  }

  ghost predicate HasChild(f: Forest, p: nat) {
    exists k :: IsChild(f, k, p)
  }

  /** Every node is kept alive by a slot or by a child. */
  ghost predicate NoGarbage(f: Forest) {
    forall k :: k in f.caps ==> k in f.held || HasChild(f, k)
  }

  /** The lineage of `k`: itself and all its ancestors. */
  ghost function Lineage(f: Forest, k: nat): (r: set<nat>)
    requires WellFormed(f) && k in f.caps
    ensures k in r && r <= f.caps.Keys
    ensures forall a :: a in r ==> a <= k
    decreases k
  {
    match f.caps[k].parent
    case None => {k}
    case Some(p) =>
      assert ChildOk(f, k);
      {k} + Lineage(f, p)
  }

  ghost predicate Below(f: Forest, k: nat, a: nat)
    requires WellFormed(f)
  {
    k in f.caps && a in Lineage(f, k)
  }

  /** Some node in the lineage of `k` has been revoked. */
  ghost predicate Tainted(f: Forest, k: nat)
    requires WellFormed(f) && k in f.caps
  {
    exists a :: a in Lineage(f, k) && f.caps[a].revoked
  }

  lemma TaintedStep(f: Forest, k: nat)
    requires WellFormed(f) && k in f.caps
    ensures f.caps[k].parent.None? ==> Tainted(f, k) == f.caps[k].revoked
    ensures f.caps[k].parent.Some? ==>
              ChildOk(f, k) && Tainted(f, k) == (f.caps[k].revoked || Tainted(f, f.caps[k].parent.value))
  {
    if f.caps[k].parent.Some? {
      assert ChildOk(f, k);
      assert Lineage(f, k) == {k} + Lineage(f, f.caps[k].parent.value);
    }
  }

  lemma {:induction false} LineageTransitive(f: Forest, k: nat, b: nat)
    requires WellFormed(f) && k in f.caps && b in Lineage(f, k)
    ensures Lineage(f, b) <= Lineage(f, k)
    decreases k
  {
    if b != k {
      assert ChildOk(f, k);
      LineageTransitive(f, f.caps[k].parent.value, b);
    }
  }

  /** No amplification: a capability's rights are contained in those of its whole lineage. */
  lemma RightsShrinkDownward(f: Forest, k: nat, a: nat)
    requires WellFormed(f) && k in f.caps && a in Lineage(f, k)
    ensures forall i: nat :: i < 32 && Has(f.caps[k].info.rights, i) ==> Has(f.caps[a].info.rights, i)
    ensures f.caps[k].info.rights & f.caps[a].info.rights == f.caps[k].info.rights
  {
    hide Has, IsSubsetOf, Contains, WellFormed, Lineage;
    SubsetDownward(f, k, a);
    SubsetBits(f.caps[k].info.rights, f.caps[a].info.rights);
  }

  lemma {:induction false} SubsetDownward(f: Forest, k: nat, a: nat)
    requires WellFormed(f) && k in f.caps && a in Lineage(f, k)
    ensures a in f.caps && IsSubsetOf(f.caps[k].info.rights, f.caps[a].info.rights)
    decreases k
  {
    if a != k {
      assert ChildOk(f, k);
      var p := f.caps[k].parent.value;
      SubsetDownward(f, p, a);
      SubsetTransitive(f.caps[k].info.rights, f.caps[p].info.rights, f.caps[a].info.rights);
    }
  }

  /** A lineage is no longer than the number of live nodes. */
  lemma LineageBound(f: Forest, k: nat)
    requires WellFormed(f) && k in f.caps
    ensures 1 <= |Lineage(f, k)| <= |f.caps|
    ensures f.caps[k].parent.Some? ==>
              ChildOk(f, k) && |Lineage(f, k)| == 1 + |Lineage(f, f.caps[k].parent.value)|
  {
    SubsetSize(Lineage(f, k), f.caps.Keys);
    SubsetSize({k}, Lineage(f, k));
    if f.caps[k].parent.Some? {
      assert ChildOk(f, k);
      var up := Lineage(f, f.caps[k].parent.value);
      assert k !in up;
      assert Lineage(f, k) == {k} + up;
    }
  }

  // ---------- the three mutations ----------

  /** A new, held, unrevoked leaf. */
  ghost function Grow(f: Forest, parent: Option<nat>, info: CapabilityInfo): Forest {
    Forest(f.caps[f.next := Cap(info, parent, false)], f.held + {f.next}, f.next + 1)
  }

  ghost predicate CanGrow(f: Forest, parent: Option<nat>, info: CapabilityInfo)
    requires WellFormed(f)
  {
    parent.Some? ==>
      && parent.value in f.caps
      && !Tainted(f, parent.value)
      && IsSubsetOf(info.rights, f.caps[parent.value].info.rights)
  }

  ghost function MarkRevoked(f: Forest, k: nat): Forest
    requires k in f.caps
  {
    f.(caps := f.caps[k := f.caps[k].(revoked := true)])
  }

  /** Remove `k` if nothing keeps it alive, and then its parent in turn. */
  ghost function Prune(f: Forest, k: nat): Forest
    requires WellFormed(f) && k in f.caps
    decreases k
  {
    if k in f.held || HasChild(f, k) then f
    else
      var g := f.(caps := f.caps - {k});
      RemoveLeafWellFormed(f, k);
      match f.caps[k].parent
      case None => g
      case Some(p) =>
        assert ChildOk(f, k);
        Prune(g, p)
  }

  /** Give up the slot that holds `k`. */
  ghost function DeleteHeld(f: Forest, k: nat): Forest
    requires WellFormed(f) && k in f.held
  {
    UnholdWellFormed(f, k);
    Prune(Unhold(f, k), k)
  }

  ghost function Unhold(f: Forest, k: nat): Forest {
    f.(held := f.held - {k})
  }

  lemma UnholdWellFormed(f: Forest, k: nat)
    requires WellFormed(f)
    ensures WellFormed(Unhold(f, k))
    ensures NoGarbage(f) ==> NoGarbageBut(Unhold(f, k), k)
  {
    var e := Unhold(f, k);
    forall j | j in e.caps && e.caps[j].parent.Some?
      ensures ChildOk(e, j)
    {
      assert ChildOk(f, j);
    }
    if NoGarbage(f) {
      forall j | j in e.caps && j != k
        ensures j in e.held || HasChild(e, j)
      {
        if j !in f.held {
          var c :| IsChild(f, c, j);
          assert IsChild(e, c, j);
        }
      }
    }
  }

  lemma RemoveLeafWellFormed(f: Forest, k: nat)
    requires WellFormed(f) && k in f.caps && k !in f.held && !HasChild(f, k)
    ensures WellFormed(f.(caps := f.caps - {k}))
  {
    var g := f.(caps := f.caps - {k});
    forall j | j in g.caps && g.caps[j].parent.Some?
      ensures ChildOk(g, j)
    {
      assert ChildOk(f, j);
      assert IsChild(f, j, f.caps[j].parent.value);
    }
  }

  // ---------- what a mutation does to lineages ----------

  /** `g` agrees with `f` on the nodes both have, except that `g` may have revoked more of them. */
  ghost predicate Extends(f: Forest, g: Forest) {
    && f.next <= g.next
    && (forall k :: k in g.caps && k < f.next ==>
          k in f.caps && g.caps[k].parent == f.caps[k].parent && g.caps[k].info == f.caps[k].info
          && (f.caps[k].revoked ==> g.caps[k].revoked))
  }

  /** Lineages never change: a surviving node keeps exactly its ancestors, all of them alive. */
  lemma {:induction false} LineageStable(f: Forest, g: Forest, k: nat)
    requires WellFormed(f) && WellFormed(g) && Extends(f, g)
    requires k in f.caps && k in g.caps
    ensures Lineage(g, k) == Lineage(f, k)
    decreases k
  {
    if f.caps[k].parent.Some? {
      assert ChildOk(f, k) && ChildOk(g, k);
      LineageStable(f, g, f.caps[k].parent.value);
    }
  }

  lemma GrowKeeps(f: Forest, parent: Option<nat>, info: CapabilityInfo)
    requires WellFormed(f) && CanGrow(f, parent, info)
    ensures WellFormed(Grow(f, parent, info)) && Extends(f, Grow(f, parent, info))
    ensures NoGarbage(f) ==> NoGarbage(Grow(f, parent, info))
  {
    var g := Grow(f, parent, info);
    forall k | k in g.caps && g.caps[k].parent.Some?
      ensures ChildOk(g, k)
    {
      if k != f.next {
        assert ChildOk(f, k);
      }
    }
    if NoGarbage(f) {
      forall k | k in g.caps
        ensures k in g.held || HasChild(g, k)
      {
        if k in f.caps && k !in f.held {
          var c :| IsChild(f, c, k);
          assert IsChild(g, c, k);
        }
      }
    }
  }

  lemma RevokeKeeps(f: Forest, k: nat)
    requires WellFormed(f) && k in f.caps
    ensures WellFormed(MarkRevoked(f, k)) && Extends(f, MarkRevoked(f, k))
    ensures NoGarbage(f) ==> NoGarbage(MarkRevoked(f, k))
  {
    var g := MarkRevoked(f, k);
    forall j | j in g.caps && g.caps[j].parent.Some?
      ensures ChildOk(g, j)
    {
      assert ChildOk(f, j);
    }
    if NoGarbage(f) {
      forall j | j in g.caps
        ensures j in g.held || HasChild(g, j)
      {
        if j !in f.held {
          var c :| IsChild(f, c, j);
          assert IsChild(g, c, j);
        }
      }
    }
  }

  /** Everything but `k` is kept alive by a slot or a child. */
  ghost predicate NoGarbageBut(f: Forest, k: nat) {
    forall j :: j in f.caps && j != k ==> j in f.held || HasChild(f, j)
  }

  /** Freeing a leaf leaves at most its parent without support. */
  lemma RemoveLeafSupport(f: Forest, k: nat)
    requires WellFormed(f) && k in f.caps && k !in f.held && !HasChild(f, k) && NoGarbageBut(f, k)
    ensures var g := f.(caps := f.caps - {k});
      match f.caps[k].parent
      case None => NoGarbage(g)
      case Some(p) => p in g.caps && p < k && NoGarbageBut(g, p)
  {
    var g := f.(caps := f.caps - {k});
    assert f.caps[k].parent.Some? ==> ChildOk(f, k);
    forall j | j in g.caps && f.caps[k].parent != Some(j)
      ensures j in g.held || HasChild(g, j)
    {
      if j !in f.held {
        var c :| IsChild(f, c, j);
        assert IsChild(g, c, j);
      }
    }
  }

  lemma {:induction false} PruneKeeps(f: Forest, k: nat)
    requires WellFormed(f) && k in f.caps && NoGarbageBut(f, k)
    ensures var g := Prune(f, k);
      && WellFormed(g) && NoGarbage(g) && Extends(f, g)
      && g.held == f.held && g.next == f.next && g.caps.Keys <= f.caps.Keys
      && (forall j :: j in g.caps ==> g.caps[j] == f.caps[j])
      && (forall j :: j in f.caps && j !in g.caps ==> j in Lineage(f, k))
    decreases k
  {
    if !(k in f.held || HasChild(f, k)) {
      var g := f.(caps := f.caps - {k});
      RemoveLeafWellFormed(f, k);
      RemoveLeafSupport(f, k);
      if f.caps[k].parent.Some? {
        var p := f.caps[k].parent.value;
        PruneKeeps(g, p);
        LineageStable(f, g, p);
      }
    }
  }

  /** Without garbage, every live node has a held node at or below it. */
  lemma {:induction false} HeldBelow(f: Forest, k: nat) returns (d: nat)
    requires WellFormed(f) && NoGarbage(f) && k in f.caps
    ensures d in f.held && k in Lineage(f, d)
    decreases f.next - k
  {
    if k in f.held {
      d := k;
    } else {
      var c :| IsChild(f, c, k);
      assert ChildOk(f, c);
      d := HeldBelow(f, c);
      LineageTransitive(f, d, c);
      assert k in Lineage(f, c);
    }
  }

  /**
    Deleting a capability frees exactly the nodes that no remaining slot descends from;
    the records of all other nodes are untouched.
  */
  lemma DeleteExact(f: Forest, k: nat)
    requires WellFormed(f) && NoGarbage(f) && k in f.held
    ensures var g := DeleteHeld(f, k);
      && WellFormed(g) && NoGarbage(g) && Extends(f, g)
      && g.held == f.held - {k} && g.next == f.next
      && (forall j :: j in g.caps ==> j in f.caps && g.caps[j] == f.caps[j])
      && (forall j :: j in g.caps <==> exists d :: d in f.held && d != k && j in Lineage(f, d))
  {
    UnholdWellFormed(f, k);
    PruneKeeps(Unhold(f, k), k);
    var g := DeleteHeld(f, k);
    forall j | j in g.caps
      ensures exists d :: d in f.held && d != k && j in Lineage(f, d)
    {
      var d := HeldBelow(g, j);
      LineageStable(f, g, d);
    }
    forall j, d | d in f.held && d != k && j in Lineage(f, d)
      ensures j in g.caps
    {
      assert d in g.held;
      LineageStable(f, g, d);
    }
  }

  // ---------- whole runs ----------

  datatype Op =
    | OpGrow(parent: Option<nat>, info: CapabilityInfo)
    | OpRevoke(node: nat)
    | OpDelete(node: nat)
    | OpOther // an operation that leaves the forest alone

  /** The kernel performs `op` only in these states: derivation needs an untainted parent. */
  ghost predicate Enabled(f: Forest, op: Op)
    requires WellFormed(f)
  {
    match op
    case OpGrow(parent, info) => CanGrow(f, parent, info)
    case OpRevoke(k) => k in f.caps
    case OpDelete(k) => k in f.held
    case OpOther => true
  }

  ghost function Apply(f: Forest, op: Op): Forest
    requires WellFormed(f) && Enabled(f, op)
  {
    match op
    case OpGrow(parent, info) => Grow(f, parent, info)
    case OpRevoke(k) => MarkRevoked(f, k)
    case OpDelete(k) => DeleteHeld(f, k)
    case OpOther => f
  }

  ghost predicate Good(f: Forest) {
    WellFormed(f) && NoGarbage(f)
  }

  lemma ApplyKeeps(f: Forest, op: Op)
    requires Good(f) && Enabled(f, op)
    ensures Good(Apply(f, op)) && Extends(f, Apply(f, op))
  {
    match op
    case OpGrow(parent, info) => GrowKeeps(f, parent, info);
    case OpRevoke(k) => RevokeKeeps(f, k);
    case OpDelete(k) => DeleteExact(f, k);
    case OpOther =>
  }

  /** One kernel operation leads from `f` to `g`. */
  ghost predicate Step(f: Forest, op: Op, g: Forest) {
    Good(f) ==> Enabled(f, op) && g == Apply(f, op)
  }

  /** `run` is a history: it starts in a good forest and each operation is one the kernel performs. */
  ghost predicate IsRun(run: seq<Forest>, ops: seq<Op>) {
    && |run| == |ops| + 1
    && Good(run[0])
    && (forall i :: 0 <= i < |ops| ==> Step(run[i], ops[i], run[i + 1]))
  }

  lemma {:induction false} RunGood(run: seq<Forest>, ops: seq<Op>, i: nat)
    requires IsRun(run, ops) && i < |run|
    ensures Good(run[i])
  {
    if i > 0 {
      RunGood(run, ops, i - 1);
      assert Step(run[i - 1], ops[i - 1], run[i]);
      ApplyKeeps(run[i - 1], ops[i - 1]);
    }
  }

  lemma {:induction false} RunExtends(run: seq<Forest>, ops: seq<Op>, i: nat, j: nat)
    requires IsRun(run, ops) && i <= j < |run|
    ensures Good(run[i]) && Good(run[j]) && Extends(run[i], run[j])
    decreases j - i
  {
    RunGood(run, ops, i);
    if i < j {
      RunExtends(run, ops, i, j - 1);
      assert Step(run[j - 1], ops[j - 1], run[j]);
      ApplyKeeps(run[j - 1], ops[j - 1]);
    }
  }

  /** A freed node never comes back. */
  lemma FreedForever(run: seq<Forest>, ops: seq<Op>, i: nat, j: nat, k: nat)
    requires IsRun(run, ops) && i <= j < |run|
    requires k < run[i].next && k !in run[i].caps
    ensures k !in run[j].caps
  {
    RunExtends(run, ops, i, j);
  }

  /**
    Revocation is permanent and covers the whole subtree: once `a` is revoked, no capability that is
    then, or ever becomes, a descendant of `a` is usable again.
  */
  lemma RevocationPermanent(run: seq<Forest>, ops: seq<Op>, i: nat, j: nat, a: nat, k: nat)
    requires IsRun(run, ops) && i <= j < |run|
    requires a in run[i].caps && run[i].caps[a].revoked
    requires k in run[j].caps
    requires Good(run[i]) && Good(run[j])
    requires a in Lineage(run[j], k) || (k in run[i].caps && a in Lineage(run[i], k))
    ensures Tainted(run[j], k)
  {
    RunExtends(run, ops, i, j);
    if k in run[i].caps {
      LineageStable(run[i], run[j], k);
    }
    assert a in Lineage(run[j], k);
    assert a in run[j].caps && run[j].caps[a].revoked;
  }

  lemma RevokedSubtreeShrinksStep(f: Forest, op: Op, a: nat, k: nat)
    requires Good(f) && Enabled(f, op) && WellFormed(Apply(f, op))
    requires a in f.caps && f.caps[a].revoked && Below(Apply(f, op), k, a)
    ensures Below(f, k, a)
  {
    var g := Apply(f, op);
    ApplyKeeps(f, op);
    match op
    case OpGrow(parent, info) =>
      if k == f.next {
        assert ChildOk(g, k);
        LineageStable(f, g, parent.value);
        assert false;
      }
      LineageStable(f, g, k);
    case OpRevoke(_) =>
      LineageStable(f, g, k);
    case OpDelete(d) =>
      DeleteExact(f, d);
      LineageStable(f, g, k);
    case OpOther =>
  }

  /** A revoked subtree only shrinks: nothing is derived below a revoked node any more. */
  lemma {:induction false} RevokedSubtreeShrinks(run: seq<Forest>, ops: seq<Op>, i: nat, j: nat, a: nat, k: nat)
    requires IsRun(run, ops) && i <= j < |run| && Good(run[i]) && Good(run[j])
    requires a in run[i].caps && run[i].caps[a].revoked
    requires Below(run[j], k, a)
    ensures Below(run[i], k, a)
    decreases j - i
  {
    hide Apply, Enabled, Step, NoGarbage, WellFormed, Extends, Lineage;
    if i < j {
      RunStep(run, ops, j - 1);
      RunExtends(run, ops, i, j - 1);
      RevokedEarlier(run[i], run[j - 1], run[j], a, k);
      RevokedSubtreeShrinksStep(run[j - 1], ops[j - 1], a, k);
      RevokedSubtreeShrinks(run, ops, i, j - 1, a, k);
    }
  }

  lemma RunStep(run: seq<Forest>, ops: seq<Op>, i: nat)
    requires IsRun(run, ops) && i < |ops|
    ensures Good(run[i]) && Good(run[i + 1]) && Enabled(run[i], ops[i])
    ensures run[i + 1] == Apply(run[i], ops[i]) && Extends(run[i], run[i + 1])
  {
    RunGood(run, ops, i);
    assert Step(run[i], ops[i], run[i + 1]);
    ApplyKeeps(run[i], ops[i]);
  }

  /** A revoked node with something below it now was there, revoked, all along. */
  lemma RevokedEarlier(f: Forest, g: Forest, h: Forest, a: nat, k: nat)
    requires WellFormed(f) && Extends(f, g) && Extends(g, h) && WellFormed(h) && Below(h, k, a)
    requires a in f.caps && f.caps[a].revoked
    ensures a in g.caps && g.caps[a].revoked
  {
    assert a in h.caps;
  }

  /** Revoking `a` taints its subtree and leaves the standing of every other capability unchanged. */
  lemma RevokeSelective(f: Forest, a: nat, k: nat)
    requires WellFormed(f) && a in f.caps && k in f.caps
    ensures WellFormed(MarkRevoked(f, a))
    ensures Tainted(MarkRevoked(f, a), k) == (a in Lineage(f, k) || Tainted(f, k))
    ensures MarkRevoked(f, a).caps[k].info == f.caps[k].info
  {
    RevokeKeeps(f, a);
    var g := MarkRevoked(f, a);
    LineageStable(f, g, k);
    if Tainted(f, k) {
      var b :| b in Lineage(f, k) && f.caps[b].revoked;
      assert g.caps[b].revoked;
    }
    if a in Lineage(f, k) {
      assert g.caps[a].revoked;
    }
  }

  lemma StandingStep(f: Forest, op: Op, k: nat)
    requires Good(f) && Enabled(f, op) && WellFormed(Apply(f, op))
    requires k in f.caps && k in Apply(f, op).caps
    ensures Tainted(Apply(f, op), k) <==> Tainted(f, k) || (op.OpRevoke? && op.node in Lineage(f, k))
    ensures Apply(f, op).caps[k].info == f.caps[k].info
  {
    var g := Apply(f, op);
    ApplyKeeps(f, op);
    LineageStable(f, g, k);
    match op
    case OpGrow(_, _) =>
      assert forall b :: b in Lineage(f, k) ==> g.caps[b] == f.caps[b];
    case OpRevoke(a) =>
      RevokeSelective(f, a, k);
    case OpDelete(d) =>
      DeleteExact(f, d);
    case OpOther =>
  }

  /** Operation `t` of the history revokes a node in `lineage`. */
  ghost predicate Hits(ops: seq<Op>, t: int, lineage: set<nat>) {
    0 <= t < |ops| && ops[t].OpRevoke? && ops[t].node in lineage
  }

  ghost predicate HitBetween(ops: seq<Op>, i: int, j: int, lineage: set<nat>) {
    exists t :: i <= t < j && Hits(ops, t, lineage)
  }

  /**
    Over a whole run, a surviving capability loses its standing exactly through a revocation in its
    own lineage; every other operation, anywhere in the forest, leaves it as it was.
  */
  lemma {:induction false} OnlyLineageMatters(run: seq<Forest>, ops: seq<Op>, i: nat, j: nat, k: nat)
    requires IsRun(run, ops) && i <= j < |run| && Good(run[i]) && Good(run[j])
    requires k in run[i].caps && k in run[j].caps
    ensures Tainted(run[j], k) <==> Tainted(run[i], k) || HitBetween(ops, i, j, Lineage(run[i], k))
    ensures run[j].caps[k].info == run[i].caps[k].info
    decreases j - i
  {
    hide NoGarbage, Lineage, Tainted, Apply, Enabled;
    if i < j {
      var f, lineage := run[j - 1], Lineage(run[i], k);
      RunExtends(run, ops, i, j - 1);
      RunExtends(run, ops, j - 1, j);
      assert Step(f, ops[j - 1], run[j]);
      OnlyLineageMatters(run, ops, i, j - 1, k);
      LineageStable(run[i], f, k);
      StandingStep(f, ops[j - 1], k);
      assert Tainted(run[j], k) <==> Tainted(f, k) || Hits(ops, j - 1, lineage);
    }
  }

  // ---------- selective teardown ----------

  /** The strict descendants of `root` that are not yet revoked. */
  ghost function Pending(f: Forest, root: nat): set<nat>
    requires WellFormed(f)
  {
    set k | k in f.caps && k != root && root in Lineage(f, k) && !f.caps[k].revoked
  }

  lemma RevokePending(f: Forest, root: nat, k: nat)
    requires WellFormed(f) && k in Pending(f, root)
    ensures WellFormed(MarkRevoked(f, k))
    ensures Pending(MarkRevoked(f, k), root) == Pending(f, root) - {k}
  {
    RevokeKeeps(f, k);
    var g := MarkRevoked(f, k);
    forall j | j in f.caps
      ensures j in g.caps && Lineage(g, j) == Lineage(f, j)
    {
      LineageStable(f, g, j);
    }
  }

  /** Mark every node of `ks` as revoked. */
  ghost function MarkAllRevoked(f: Forest, ks: set<nat>): (g: Forest)
    ensures g.caps.Keys == f.caps.Keys
  {
    f.(caps := map k | k in f.caps :: if k in ks then f.caps[k].(revoked := true) else f.caps[k])
  }

  lemma RevokeNone(f: Forest)
    ensures MarkAllRevoked(f, {}) == f
  {
    assert MarkAllRevoked(f, {}).caps == f.caps;
  }

  lemma RevokeMore(f: Forest, ks: set<nat>, k: nat)
    requires k in f.caps
    ensures k in MarkAllRevoked(f, ks).caps && MarkRevoked(MarkAllRevoked(f, ks), k) == MarkAllRevoked(f, ks + {k})
  {
    assert MarkRevoked(MarkAllRevoked(f, ks), k).caps == MarkAllRevoked(f, ks + {k}).caps;
  }

  /** Adding nodes changes nobody's standing. */
  lemma AdditionsKeepStanding(f: Forest, g: Forest, k: nat)
    requires WellFormed(f) && WellFormed(g) && f.next <= g.next
    requires forall j :: j in g.caps && j < f.next ==> j in f.caps
    requires forall j :: j in f.caps ==> j in g.caps && g.caps[j] == f.caps[j]
    requires k in f.caps
    ensures Tainted(g, k) == Tainted(f, k)
  {
    LineageStable(f, g, k);
    assert forall a :: a in Lineage(f, k) ==> g.caps[a] == f.caps[a];
  }
}
