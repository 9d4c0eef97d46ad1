/** The in-place link surgery on the node vector: what allocating and releasing entries adds up to. */
module NodeLinks {
  import opened Common
  import opened Abi
  import opened Generations
  import opened Derivation
  import opened NodeTable

  // ---------- what releasing does to the child lists ----------

  /** The members of `l` that are in `live`, in order. */
  ghost function Survivors(l: seq<nat>, live: set<nat>): (r: seq<nat>)
    ensures forall x :: x in r <==> x in l && x in live
  {
    if l == [] then [] else (if l[0] in live then [l[0]] else []) + Survivors(l[1..], live)
  }

  lemma {:induction false} SurvivorsAll(l: seq<nat>, live: set<nat>)
    requires forall x :: x in l ==> x in live
    ensures Survivors(l, live) == l
  {
    if l != [] {
      SurvivorsAll(l[1..], live);
      assert l == [l[0]] + l[1..];
    }
  }

  lemma {:induction false} SurvivorsTwice(l: seq<nat>, a: set<nat>, b: set<nat>)
    requires b <= a
    ensures Survivors(Survivors(l, a), b) == Survivors(l, b)
  {
    if l != [] {
      SurvivorsTwice(l[1..], a, b);
      var rest := Survivors(l[1..], a);
      if l[0] in a {
        assert Survivors(l, a) == [l[0]] + rest;
        assert ([l[0]] + rest)[1..] == rest;
      } else {
        assert Survivors(l, a) == rest;
      }
    }
  }

  lemma {:induction false} SurvivorsWithout(l: seq<nat>, at: nat, live: set<nat>)
    requires at < |l| && l[at] !in live
    requires forall x :: x in l && x != l[at] ==> x in live
    requires Distinct(l)
    ensures Survivors(l, live) == Without(l, at)
  {
    if at == 0 {
      SurvivorsAll(l[1..], live);
      assert Without(l, 0) == l[1..];
    } else {
      SurvivorsWithout(l[1..], at - 1, live);
      assert Without(l, at) == [l[0]] + Without(l[1..], at - 1);
    }
  }

  /** `t` is `s` after some nodes were freed: ids are kept and child lists only lose the freed nodes. */
  ghost predicate Trimmed(s: Shape, t: Shape)
    requires Sized(s) && Sized(t)
  {
    && t.ids == s.ids && t.born == s.born
    && t.forest.caps.Keys <= s.forest.caps.Keys
    && (forall p {:trigger t.kids[p]} :: p in t.forest.caps ==> t.kids[p] == Survivors(s.kids[p], t.forest.caps.Keys))
  }

  lemma TrimmedRefl(s: Shape)
    requires Sized(s) && Enlisted(s)
    ensures Trimmed(s, s)
  {
    forall p | p in s.forest.caps
      ensures s.kids[p] == Survivors(s.kids[p], s.forest.caps.Keys)
    {
      assert forall c :: c in s.kids[p] ==> IsChild(s.forest, c, p);
      SurvivorsAll(s.kids[p], s.forest.caps.Keys);
    }
  }

  lemma TrimmedIds(s: Shape, t: Shape)
    requires Sized(s) && Sized(t) && Trimmed(s, t)
    ensures t.ids == s.ids
  {
  }

  lemma TrimmedTrans(s: Shape, t: Shape, u: Shape)
    requires Sized(s) && Sized(t) && Sized(u) && Trimmed(s, t) && Trimmed(t, u)
    ensures Trimmed(s, u)
  {
    forall p | p in u.forest.caps
      ensures u.kids[p] == Survivors(s.kids[p], u.forest.caps.Keys)
    {
      assert t.kids[p] == Survivors(s.kids[p], t.forest.caps.Keys);
      SurvivorsTwice(s.kids[p], t.forest.caps.Keys, u.forest.caps.Keys);
    }
  }

  lemma DropTrims(s: Shape, k: nat, at: nat)
    requires AtPlace(s, k, at) && Enlisted(s) && s.ids[k].index < |s.epochs|
    requires s.kids[k] == []
    ensures Sized(DropShape(s, k, at)) && Trimmed(s, DropShape(s, k, at))
  {
    var t := DropShape(s, k, at);
    forall p | p in t.forest.caps
      ensures t.kids[p] == Survivors(s.kids[p], t.forest.caps.Keys)
    {
      assert forall c :: c in s.kids[p] ==> IsChild(s.forest, c, p);
      if s.forest.caps[k].parent == Some(p) {
        SurvivorsWithout(s.kids[p], at, t.forest.caps.Keys);
      } else {
        SurvivorsAll(s.kids[p], t.forest.caps.Keys);
      }
    }
  }

  // ---------- allocating ----------

  lemma AllocateFacts(nodes: seq<Node>, head: Option<nat>, s: Shape, above: Option<nat>)
    requires Represents(nodes, head, s, None) && |nodes| <= U32_MAX
    requires above.Some? ==> above.value in s.forest.caps
    requires head.Some? || |nodes| < U32_MAX
    ensures head.Some? ==> head.value < |nodes| && nodes[head.value].state == Free(After(s.free, 0))
    ensures above.Some? ==> RecordAt(nodes, s, None, above.value)
                            && ResolvesLive(nodes, s.ids[above.value])
                            && nodes[s.ids[above.value].index].state.references < U32_MAX
  {
    if head.Some? {
      assert FreeAt(nodes, s.free, 0);
    }
    if above.Some? {
      assert RecordAt(nodes, s, None, above.value);
      LiveBound(nodes, s);
      ReferenceBound(s, above.value);
    }
  }

  lemma FreeHeadIs(nodes: seq<Node>, head: Option<nat>, s: Shape)
    requires Represents(nodes, head, s, None)
    ensures Sized(s) && head == First(s.free)
  {
  }

  /** An entry can be taken: the free list is intact, or there is room for one more. */
  predicate CanTake(nodes: seq<Node>, head: Option<nat>, capacity: nat) {
    if head.Some? then head.value < |nodes| && nodes[head.value].state.Free? else |nodes| != capacity
  }

  /** The reference of a new child to this node can be counted. */
  predicate CanReference(nodes: seq<Node>, id: NodeId) {
    ResolvesLive(nodes, id) && nodes[id.index].state.references < U32_MAX
  }

  /** The vector after the three in-place updates of an allocation. */
  ghost function AllocatedNodes(nodes: seq<Node>, head: Option<nat>, info: CapabilityInfo, parent: Option<NodeId>,
                                id: NodeId): seq<Node>
    requires IsNextId(nodes, head, id) && (parent.Some? ==> ResolvesLive(nodes, parent.value))
  {
    var node := Node(id.generation, Live(info, parent, None, None, false, 1));
    if parent.None? then
      if head.Some? then nodes[id.index := node] else nodes + [node]
    else
      var p := parent.value.index;
      var one := nodes[p := nodes[p].(state := nodes[p].state.(references := nodes[p].state.references + 1))];
      var two := if head.Some? then one[id.index := node] else one + [node];
      two[id.index := node.(state := node.state.(nextSibling := two[p].state.firstChild))]
         [p := two[p].(state := two[p].state.(firstChild := Some(id)))]
  }

  lemma AllocateSound(nodes: seq<Node>, head: Option<nat>, s: Shape, above: Option<nat>, info: CapabilityInfo,
                      id: NodeId, nodes': seq<Node>, head': Option<nat>)
    requires Represents(nodes, head, s, None) && NoGarbage(s.forest)
    requires above.Some? ==> above.value in s.forest.caps && RecordAt(nodes, s, None, above.value)
    requires CanGrow(s.forest, above, info)
    requires IsNextId(nodes, head, id)
    requires nodes' == AllocatedNodes(nodes, head, info, IdAt(s, above), id)
    requires head' == if head.Some? then nodes[head.value].state.next else None
    ensures id.index <= |s.serial|
    ensures Represents(nodes', head', GrowShape(s, above, info, id), None)
    ensures NoGarbage(GrowShape(s, above, info, id).forest)
  {
    if head.Some? {
      assert FreeAt(nodes, s.free, 0);
    }
    AllocateGrown(nodes, head, s, above, info, id);
    GrowRepresents(nodes, head, s, above, info, id, nodes', head');
    GrowKeeps(s.forest, above, info);
  }

  /** The three in-place updates of an allocation add up to the new layout. */
  lemma AllocateGrown(nodes: seq<Node>, head: Option<nat>, s: Shape, above: Option<nat>, info: CapabilityInfo, id: NodeId)
    requires Sized(s) && |s.serial| == |nodes| && IsNextId(nodes, head, id)
    requires above.Some? ==> above.value in s.forest.caps && RecordAt(nodes, s, None, above.value)
                             && s.ids[above.value].index != id.index
    ensures Grown(nodes, s, above, info, id, AllocatedNodes(nodes, head, info, IdAt(s, above), id))
  {
  }

  // ---------- releasing ----------

  ghost predicate LineAt(nodes: seq<Node>, line: seq<NodeId>, j: nat)
    requires j < |line|
  {
    ResolvesLive(nodes, line[j]) && nodes[line[j].index].state.nextSibling == After(line, j)
  }

  /** `line` are the children of `parent`, as the links in the vector thread them. */
  ghost predicate IsLine(nodes: seq<Node>, parent: NodeId, line: seq<NodeId>) {
    && ResolvesLive(nodes, parent)
    && nodes[parent.index].state.firstChild == First(line)
    && Distinct(line)
    && (forall j :: 0 <= j < |line| ==> LineAt(nodes, line, j))
  }

  ghost predicate Apart(id: NodeId, parent: NodeId, line: seq<NodeId>) {
    id.index != parent.index && forall j :: 0 <= j < |line| ==> line[j].index != id.index && line[j].index != parent.index
  }

  /** Setting two links puts a new child in front of the children of its parent. */
  lemma LineGrows(nodes: seq<Node>, parent: NodeId, child: NodeId, line: seq<NodeId>, nodes': seq<Node>)
    requires IsLine(nodes, parent, line) && ResolvesLive(nodes, child) && Apart(child, parent, line)
    requires |nodes'| == |nodes|
    requires nodes'[parent.index] == nodes[parent.index].(state := nodes[parent.index].state.(firstChild := Some(child)))
    requires nodes'[child.index] == nodes[child.index].(state := nodes[child.index].state.(nextSibling := First(line)))
    requires forall i :: 0 <= i < |nodes| && i != parent.index && i != child.index ==> nodes'[i] == nodes[i]
    ensures IsLine(nodes', parent, [child] + line)
  {
    var all := [child] + line;
    DistinctCons(child, line);
    forall j | 0 <= j < |all|
      ensures LineAt(nodes', all, j)
    {
      if j > 0 {
        assert LineAt(nodes, line, j - 1);
      }
    }
  }

  ghost function LinkFrom(parent: NodeId, line: seq<NodeId>, at: nat): NodeId
    requires at < |line|
  {
    if at == 0 then parent else line[at - 1]
  }

  ghost function CutNodes(nodes: seq<Node>, parent: NodeId, line: seq<NodeId>, at: nat): seq<Node>
    requires at < |line|
  {
    var t := LinkFrom(parent, line, at).index;
    if t < |nodes| && nodes[t].state.Live? then
      nodes[t := nodes[t].(state := if at == 0 then nodes[t].state.(firstChild := After(line, at))
                                    else nodes[t].state.(nextSibling := After(line, at)))]
    else nodes
  }

  /** The ids of the children of `p` in sibling order. */
  ghost function LineOf(s: Shape, p: nat): (r: seq<NodeId>)
    requires Sized(s) && p in s.forest.caps && forall j :: 0 <= j < |s.kids[p]| ==> s.kids[p][j] in s.forest.caps
    ensures |r| == |s.kids[p]| && forall j :: 0 <= j < |r| ==> r[j] == s.ids[s.kids[p][j]]
  {
    seq(|s.kids[p]|, j requires 0 <= j < |s.kids[p]| => s.ids[s.kids[p][j]])
  }

  lemma LineHolds(nodes: seq<Node>, s: Shape, k: nat, p: nat, nodes': seq<Node>)
    requires WellFormed(s.forest) && Sized(s) && Listed(s) && Indexed(nodes, s) && Recorded(nodes, s, Some(k))
    requires k in s.forest.caps && p in s.forest.caps && RecordAt(nodes, s, Some(k), k)
    requires var i := s.ids[k].index;
      nodes' == nodes[i := nodes[i].(state := nodes[i].state.(references := nodes[i].state.references - 1))]
    ensures forall j :: 0 <= j < |s.kids[p]| ==> s.kids[p][j] in s.forest.caps
    ensures IsLine(nodes', s.ids[p], LineOf(s, p))
  {
    forall c | c in s.kids[p]
      ensures c in s.forest.caps
    {
      assert IsChild(s.forest, c, p);
    }
    var line := LineOf(s, p);
    assert RecordAt(nodes, s, Some(k), p);
    forall j | 0 <= j < |line|
      ensures LineAt(nodes', line, j)
    {
      assert SiblingAt(s, p, j);
      assert RecordAt(nodes, s, Some(k), s.kids[p][j]);
    }
    assert Distinct(line) by {
      assert Distinct(s.kids[p]);
      assert forall c :: c in s.kids[p] ==> s.serial[s.ids[c].index] == c;
    }
  }

  /** What a release finds at `k`: a positive count, and its place in an intact sibling list. */
  lemma ReleaseFacts(nodes: seq<Node>, head: Option<nat>, s: Shape, k: nat) returns (line: seq<NodeId>, at: nat)
    requires Represents(nodes, head, s, Some(k))
    ensures RecordAt(nodes, s, Some(k), k) && ResolvesLive(nodes, s.ids[k]) && s.ids[k].generation <= U32_MAX
    ensures AtPlace(s, k, at)
    ensures match s.forest.caps[k].parent
      case None => true
      case Some(p) =>
        && p < k
        && (forall j :: 0 <= j < |s.kids[p]| ==> s.kids[p][j] in s.forest.caps) && line == LineOf(s, p)
        && After(line, at) == IdAt(s, s.sib[k])
        && LinkFrom(s.ids[p], line, at) == s.ids[LinkedFrom(s, k, at)]
        && s.ids[LinkedFrom(s, k, at)].index != s.ids[k].index
        && IsLine(nodes[s.ids[k].index := nodes[s.ids[k].index].(state := nodes[s.ids[k].index].state.(references := nodes[s.ids[k].index].state.references - 1))],
                  s.ids[p], line)
  {
    assert RecordAt(nodes, s, Some(k), k);
    line, at := [], 0;
    if s.forest.caps[k].parent.Some? {
      var p := s.forest.caps[k].parent.value;
      assert ChildOk(s.forest, k);
      assert IsChild(s.forest, k, p);
      at :| 0 <= at < |s.kids[p]| && s.kids[p][at] == k;
      var i := s.ids[k].index;
      LineHolds(nodes, s, k, p, nodes[i := nodes[i].(state := nodes[i].state.(references := nodes[i].state.references - 1))]);
      line := LineOf(s, p);
      assert SiblingAt(s, p, at);
      if at > 0 {
        assert Distinct(s.kids[p]);
        assert s.kids[p][at - 1] in s.kids[p];
      }
    }
  }

  /** Freeing an unreferenced node keeps the shape and passes the release on to its parent. */
  lemma FreeSound(nodes: seq<Node>, head: Option<nat>, s: Shape, k: nat, line: seq<NodeId>, at: nat, nodes': seq<Node>)
    requires Represents(nodes, head, s, Some(k)) && NoGarbageBut(s.forest, k)
    requires RecordAt(nodes, s, Some(k), k) && References(s, Some(k), k) == 1
    requires AtPlace(s, k, at)
    requires s.forest.caps[k].parent.Some? ==>
               && at < |line|
               && LinkFrom(s.ids[s.forest.caps[k].parent.value], line, at) == s.ids[LinkedFrom(s, k, at)]
               && s.ids[LinkedFrom(s, k, at)].index != s.ids[k].index
               && After(line, at) == IdAt(s, s.sib[k])
    requires var i := s.ids[k].index;
      var one := nodes[i := nodes[i].(state := nodes[i].state.(references := nodes[i].state.references - 1))];
      nodes' == (if s.forest.caps[k].parent.Some? then CutNodes(one, s.ids[s.forest.caps[k].parent.value], line, at)
                 else one)[i := Node(NextGeneration(s.ids[k].generation), Free(head))]
    ensures s.ids[k].index < |s.epochs|
    ensures Represents(nodes', Some(s.ids[k].index), DropShape(s, k, at), s.forest.caps[k].parent)
    ensures Trimmed(s, DropShape(s, k, at))
    ensures match s.forest.caps[k].parent
      case None => NoGarbage(DropShape(s, k, at).forest) && Prune(s.forest, k) == DropShape(s, k, at).forest
      case Some(p) => p < k && p in DropShape(s, k, at).forest.caps && NoGarbageBut(DropShape(s, k, at).forest, p)
                      && Prune(s.forest, k) == Prune(DropShape(s, k, at).forest, p)
  {
    assert !HasChild(s.forest, k);
    FreeDropped(nodes, head, s, k, line, at, nodes');
    DropRepresents(nodes, head, s, k, at, nodes');
    DropTrims(s, k, at);
    RemoveLeafSupport(s.forest, k);
  }

  lemma FreeDropped(nodes: seq<Node>, head: Option<nat>, s: Shape, k: nat, line: seq<NodeId>, at: nat, nodes': seq<Node>)
    requires Sized(s) && Indexed(nodes, s) && k in s.forest.caps && RecordAt(nodes, s, Some(k), k)
    requires s.ids[k].generation <= U32_MAX
    requires AtPlace(s, k, at)
    requires s.forest.caps[k].parent.Some? ==>
               && at < |line|
               && LinkFrom(s.ids[s.forest.caps[k].parent.value], line, at) == s.ids[LinkedFrom(s, k, at)]
               && s.ids[LinkedFrom(s, k, at)].index != s.ids[k].index
               && After(line, at) == IdAt(s, s.sib[k])
    requires var i := s.ids[k].index;
      var one := nodes[i := nodes[i].(state := nodes[i].state.(references := nodes[i].state.references - 1))];
      nodes' == (if s.forest.caps[k].parent.Some? then CutNodes(one, s.ids[s.forest.caps[k].parent.value], line, at)
                 else one)[i := Node(NextGeneration(s.ids[k].generation), Free(head))]
    ensures Dropped(nodes, head, s, k, at, nodes')
  {
  }

  /** When references remain, nothing has lost its support. */
  lemma StillSupported(s: Shape, k: nat)
    requires Sized(s) && Enlisted(s) && k in s.forest.caps && NoGarbageBut(s.forest, k)
    requires References(s, Some(k), k) != 1
    ensures NoGarbage(s.forest) && (WellFormed(s.forest) ==> Prune(s.forest, k) == s.forest)
  {
    if k !in s.forest.held {
      assert IsChild(s.forest, s.kids[k][0], k);
    }
  }

  // ---------- walking ----------

  lemma Basics(nodes: seq<Node>, head: Option<nat>, s: Shape)
    requires Represents(nodes, head, s, None)
    ensures WellFormed(s.forest) && Sized(s) && |s.serial| == |nodes| && |s.epochs| == |nodes|
  {
  }

  /** What the record at a live id says about the forest. */
  lemma WalkFacts(nodes: seq<Node>, head: Option<nat>, s: Shape, id: NodeId)
    requires Represents(nodes, head, s, None) && ResolvesLive(nodes, id)
    ensures var k := s.serial[id.index]; var state := nodes[id.index].state;
      && Denotes(nodes, s, id) == Some(k) && k in s.forest.caps && s.ids[k] == id
      && state.info == s.forest.caps[k].info && state.revoked == s.forest.caps[k].revoked
      && state.parent == IdAt(s, s.forest.caps[k].parent)
      && (if s.kids[k] == [] then state.firstChild.None?
          else s.kids[k][0] < |s.ids| && state.firstChild == Some(s.ids[s.kids[k][0]]))
    ensures var k := s.serial[id.index];
      1 <= |Lineage(s.forest, k)| <= |nodes|
    ensures var k := s.serial[id.index];
      match s.forest.caps[k].parent
      case None => Tainted(s.forest, k) == s.forest.caps[k].revoked && Lineage(s.forest, k) == {k}
      case Some(p) =>
        && p in s.forest.caps && p < k && ResolvesLive(nodes, s.ids[p]) && s.serial[s.ids[p].index] == p
        && Lineage(s.forest, k) == {k} + Lineage(s.forest, p) && k !in Lineage(s.forest, p)
        && |Lineage(s.forest, k)| == 1 + |Lineage(s.forest, p)|
        && Tainted(s.forest, k) == (s.forest.caps[k].revoked || Tainted(s.forest, p))
  {
    var k := s.serial[id.index];
    LiveIds(nodes, head, s, None, id);
    TaintedStep(s.forest, k);
    LineageBound(s.forest, k);
    LiveBound(nodes, s);
    assert s.kids[k] != [] ==> IsChild(s.forest, s.kids[k][0], k);
    if s.forest.caps[k].parent.Some? {
      assert ChildOk(s.forest, k);
      assert RecordAt(nodes, s, None, s.forest.caps[k].parent.value);
    }
  }

  /** A strict descendant lies at or below one of the children. */
  lemma {:induction false} DescendantVia(f: Forest, root: nat, d: nat) returns (c: nat)
    requires WellFormed(f) && d in f.caps && d != root && root in Lineage(f, d)
    ensures IsChild(f, c, root) && c in Lineage(f, d)
    decreases d
  {
    assert ChildOk(f, d);
    var p := f.caps[d].parent.value;
    if p == root {
      c := d;
    } else {
      c := DescendantVia(f, root, p);
    }
  }

  /** What lies at or below a child lies below its parent. */
  lemma ChildPending(f: Forest, root: nat, c: nat)
    requires WellFormed(f) && IsChild(f, c, root)
    ensures Pending(f, c) <= Pending(f, root)
    ensures !f.caps[c].revoked ==> c in Pending(f, root)
  {
    assert ChildOk(f, c);
    forall d | d in Pending(f, c)
      ensures d in Pending(f, root)
    {
      LineageTransitive(f, d, c);
    }
  }

  lemma NothingPending(f: Forest, root: nat)
    requires WellFormed(f)
    requires forall c: nat :: IsChild(f, c, root) ==> f.caps[c].revoked && Pending(f, c) == {}
    ensures Pending(f, root) == {}
  {
    if Pending(f, root) != {} {
      var d :| d in Pending(f, root);
      var c := PendingVia(f, root, d);
    }
  }

  /** A pending descendant is a child that is not revoked, or pending below a child. */
  lemma PendingVia(f: Forest, root: nat, d: nat) returns (c: nat)
    requires WellFormed(f) && d in Pending(f, root)
    ensures IsChild(f, c, root) && ((d == c && !f.caps[c].revoked) || d in Pending(f, c))
  {
    c := DescendantVia(f, root, d);
  }

  /** The children of a live node, found by following its links. */
  lemma ChildFacts(nodes: seq<Node>, head: Option<nat>, s: Shape, k: nat, j: nat)
    requires Represents(nodes, head, s, None) && k in s.forest.caps && j < |s.kids[k]|
    ensures var c := s.kids[k][j];
      && k < c && c < s.forest.next && IsChild(s.forest, c, k) && ResolvesLive(nodes, s.ids[c]) && s.serial[s.ids[c].index] == c
      && nodes[s.ids[c].index].state.revoked == s.forest.caps[c].revoked
      && (if j + 1 < |s.kids[k]| then s.kids[k][j + 1] < |s.ids| && nodes[s.ids[c].index].state.nextSibling == Some(s.ids[s.kids[k][j + 1]])
          else nodes[s.ids[c].index].state.nextSibling.None?)
  {
    var c := s.kids[k][j];
    assert IsChild(s.forest, c, k);
    assert j + 1 < |s.kids[k]| ==> IsChild(s.forest, s.kids[k][j + 1], k);
    assert ChildOk(s.forest, c);
    assert SiblingAt(s, k, j);
    assert RecordAt(nodes, s, None, c);
  }

  /** When every listed child is revoked with nothing pending below it, nothing is pending below `k`. */
  lemma AllChildrenDone(nodes: seq<Node>, head: Option<nat>, s: Shape, k: nat)
    requires Represents(nodes, head, s, None) && k in s.forest.caps
    requires forall j :: 0 <= j < |s.kids[k]| ==> ChildDone(s, k, j)
    ensures Pending(s.forest, k) == {}
  {
    forall c: nat | IsChild(s.forest, c, k)
      ensures s.forest.caps[c].revoked && Pending(s.forest, c) == {}
    {
      var j :| 0 <= j < |s.kids[k]| && s.kids[k][j] == c;
      assert ChildDone(s, k, j);
    }
    NothingPending(s.forest, k);
  }

  ghost predicate ChildDone(s: Shape, k: nat, j: nat)
    requires WellFormed(s.forest) && k < |s.kids| && j < |s.kids[k]|
  {
    var c := s.kids[k][j];
    c in s.forest.caps && s.forest.caps[c].revoked && Pending(s.forest, c) == {}
  }

  /** Everything the in-place revocation of a live node changes, and that ids keep their meaning. */
  lemma RevokeSound(nodes: seq<Node>, head: Option<nat>, s: Shape, id: NodeId)
    requires Represents(nodes, head, s, None) && NoGarbage(s.forest) && ResolvesLive(nodes, id)
    ensures var k := s.serial[id.index];
      var nodes' := nodes[id.index := nodes[id.index].(state := nodes[id.index].state.(revoked := true))];
      && Denotes(nodes, s, id) == Some(k)
      && k in s.forest.caps && s.forest.caps[k].info == nodes[id.index].state.info
      && Represents(nodes', head, s.(forest := MarkRevoked(s.forest, k)), None)
      && NoGarbage(MarkRevoked(s.forest, k))
      && forall other :: Denotes(nodes', s.(forest := MarkRevoked(s.forest, k)), other) == Denotes(nodes, s, other)
  {
    hide Represents, WellFormed, NoGarbage;
    Basics(nodes, head, s);
    var k := s.serial[id.index];
    WalkFacts(nodes, head, s, id);
    RevokeRepresents(nodes, head, s, k);
    RevokeKeeps(s.forest, k);
  }

  /** From `s` to `t`, exactly the pending descendant `d` of `root` was revoked, and `info` is what it granted. */
  ghost predicate WasRevoked(s: Shape, root: nat, d: nat, info: CapabilityInfo, t: Shape) {
    && WellFormed(s.forest)
    && d in Pending(s.forest, root) && d in s.forest.caps
    && info == s.forest.caps[d].info
    && t == s.(forest := MarkRevoked(s.forest, d))
  }

  lemma EmptyRepresents()
    ensures Represents([], None, EmptyShape, None) && NoGarbage(EmptyShape.forest)
  {
  }

  /** The state in which a slot has been emptied but its reference is not yet given up. */
  lemma UnholdSound(nodes: seq<Node>, head: Option<nat>, s: Shape, k: nat)
    requires Represents(nodes, head, s, None) && NoGarbage(s.forest) && k in s.forest.held
    ensures k in s.forest.caps
    ensures Represents(nodes, head, s.(forest := Unhold(s.forest, k)), Some(k))
    ensures NoGarbageBut(Unhold(s.forest, k), k)
    ensures WellFormed(s.forest) && WellFormed(Unhold(s.forest, k))
  {
    UnholdRepresents(nodes, head, s, k);
    UnholdWellFormed(s.forest, k);
  }

  lemma HeldDenotes(nodes: seq<Node>, head: Option<nat>, s: Shape, k: nat)
    requires Represents(nodes, head, s, None) && k in s.forest.held
    ensures k in s.forest.caps && k < |s.ids| && Denotes(nodes, s, s.ids[k]) == Some(k)
  {
    assert RecordAt(nodes, s, None, k);
  }
}
