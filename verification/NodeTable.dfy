/**
  How the derivation forest is laid out in the node vector: generation-tagged ids, intrusive
  first-child/next-sibling lists, reference counts and an embedded free list.

  `Represents` is the shape invariant. The lemmas say which in-place updates keep it.
*/
module NodeTable {
  import opened Common
  import opened Abi
  import opened Generations
  import opened Derivation

  datatype NodeId = NodeId(index: nat, generation: nat)

  datatype NodeState =
    | Free(next: Option<nat>)
    | Live(info: CapabilityInfo, parent: Option<NodeId>, firstChild: Option<NodeId>,
           nextSibling: Option<NodeId>, revoked: bool, references: nat)

  datatype Node = Node(generation: nat, state: NodeState)

  /**
    Where everything is. By serial number: `ids` is the id a node was given, `born` the recycling
    count of its entry at that time, `kids` its children in sibling order and `sib` its successor in
    that order. By entry: `serial` is the node an entry holds and `epochs` its recycling count.
    `free` is the free list.
  */
  datatype Shape = Shape(
    forest: Forest,
    ids: seq<NodeId>,
    born: seq<nat>,
    kids: seq<seq<nat>>,
    sib: seq<Option<nat>>,
    serial: seq<nat>,
    epochs: seq<nat>,
    free: seq<nat>)

  ghost const EmptyShape: Shape := Shape(Empty, [], [], [], [], [], [], [])

  ghost function IdAt(s: Shape, k: Option<nat>): Option<NodeId> {
    if k.Some? && k.value < |s.ids| then Some(s.ids[k.value]) else None
  }

  ghost predicate Sized(s: Shape) {
    && |s.ids| == s.forest.next && |s.born| == s.forest.next
    && |s.kids| == s.forest.next && |s.sib| == s.forest.next
    && |s.serial| == |s.epochs|
    && (forall k :: k in s.forest.caps ==> k < s.forest.next)
  }

  /** One reference for the slot that holds the node, one for each child, one for a pending release. */
  ghost function References(s: Shape, debt: Option<nat>, k: nat): nat
    requires k < |s.kids|
  {
    (if k in s.forest.held then 1 else 0) + |s.kids[k]| + (if debt == Some(k) then 1 else 0)
  }

  /** The record the vector must hold for node `k`. */
  ghost function Record(s: Shape, debt: Option<nat>, k: nat): Node
    requires Sized(s) && k in s.forest.caps
  {
    var cap := s.forest.caps[k];
    Node(s.ids[k].generation,
         Live(cap.info, IdAt(s, cap.parent), IdAt(s, First(s.kids[k])), IdAt(s, s.sib[k]),
              cap.revoked, References(s, debt, k)))
  }

  ghost predicate RecordAt(nodes: seq<Node>, s: Shape, debt: Option<nat>, k: nat)
    requires Sized(s) && k in s.forest.caps
  {
    s.ids[k].index < |nodes| && nodes[s.ids[k].index] == Record(s, debt, k)
  }

  ghost predicate Recorded(nodes: seq<Node>, s: Shape, debt: Option<nat>)
    requires Sized(s)
  {
    forall k {:trigger RecordAt(nodes, s, debt, k)} :: k in s.forest.caps ==> RecordAt(nodes, s, debt, k)
  }

  /** Live entries and live nodes correspond one to one. */
  ghost predicate Indexed(nodes: seq<Node>, s: Shape)
    requires Sized(s)
  {
    && |s.serial| == |nodes|
    && (forall k :: k in s.forest.caps ==> s.ids[k].index < |nodes| && s.serial[s.ids[k].index] == k
                                           && nodes[s.ids[k].index].state.Live?)
    && (forall i :: 0 <= i < |nodes| && nodes[i].state.Live? ==>
          s.serial[i] in s.forest.caps && s.ids[s.serial[i]].index == i)
  }

  ghost predicate SiblingAt(s: Shape, p: nat, j: nat)
    requires p < |s.kids| && j < |s.kids[p]|
  {
    s.kids[p][j] < |s.sib| && s.sib[s.kids[p][j]] == After(s.kids[p], j)
  }

  ghost predicate SiblingOk(s: Shape, k: nat)
    requires Sized(s) && k in s.forest.caps
  {
    && (s.forest.caps[k].parent.None? ==> s.sib[k].None?)
    && (s.sib[k].Some? ==> s.sib[k].value in s.forest.caps)
  }

  /** Each child list holds exactly the children of its node, each once. */
  ghost predicate Enlisted(s: Shape)
    requires Sized(s)
  {
    && (forall p :: p in s.forest.caps ==> Distinct(s.kids[p]))
    && (forall p, c :: p in s.forest.caps && c in s.kids[p] ==> IsChild(s.forest, c, p))
    && (forall c: nat, p: nat :: IsChild(s.forest, c, p) ==> p in s.forest.caps && c in s.kids[p])
  }

  /** The sibling links thread the child lists. */
  ghost predicate Chained(s: Shape)
    requires Sized(s)
  {
    && (forall p, j :: p in s.forest.caps && 0 <= j < |s.kids[p]| ==> SiblingAt(s, p, j))
    && (forall k {:trigger SiblingOk(s, k)} :: k in s.forest.caps ==> SiblingOk(s, k))
  }

  ghost predicate Listed(s: Shape)
    requires Sized(s)
  {
    Enlisted(s) && Chained(s)
  }

  ghost predicate FreeAt(nodes: seq<Node>, free: seq<nat>, j: nat)
    requires j < |free|
  {
    free[j] < |nodes| && nodes[free[j]].state == Free(After(free, j))
  }

  /** The free list threads every free entry of the vector exactly once. */
  ghost predicate Threaded(nodes: seq<Node>, head: Option<nat>, free: seq<nat>) {
    && head == First(free)
    && Distinct(free)
    && (forall j :: 0 <= j < |free| ==> FreeAt(nodes, free, j))
    && (forall i :: i in free ==> i < |nodes| && nodes[i].state.Free?)
    && (forall i :: 0 <= i < |nodes| && nodes[i].state.Free? ==> i in free)
  }

  /** Generations follow recycling counts, and an entry has moved on from every node it no longer holds. */
  ghost predicate Aged(nodes: seq<Node>, s: Shape)
    requires Sized(s)
  {
    && |s.epochs| == |nodes|
    && (forall i :: 0 <= i < |nodes| ==> nodes[i].generation == GenerationAt(s.epochs[i]))
    && (forall k :: 0 <= k < s.forest.next ==>
          && s.ids[k].index < |nodes|
          && s.ids[k].generation == GenerationAt(s.born[k])
          && (if k in s.forest.caps then s.born[k] == s.epochs[s.ids[k].index]
              else s.born[k] < s.epochs[s.ids[k].index]))
  }

  /** The shape invariant, with at most one node whose count still includes a pending release. */
  ghost predicate Represents(nodes: seq<Node>, head: Option<nat>, s: Shape, debt: Option<nat>) {
    && WellFormed(s.forest)
    && Sized(s)
    && Indexed(nodes, s)
    && Recorded(nodes, s, debt)
    && Listed(s)
    && Threaded(nodes, head, s.free)
    && Aged(nodes, s)
    && (debt.Some? ==> debt.value in s.forest.caps)
  }

  /** The entry exists and carries the id's generation. */
  predicate Resolves(nodes: seq<Node>, id: NodeId) {
    id.index < |nodes| && nodes[id.index].generation == id.generation
  }

  predicate ResolvesLive(nodes: seq<Node>, id: NodeId) {
    Resolves(nodes, id) && nodes[id.index].state.Live?
  }

  /** The live node an id denotes, by serial number. */
  ghost function Denotes(nodes: seq<Node>, s: Shape, id: NodeId): Option<nat> {
    if ResolvesLive(nodes, id) && id.index < |s.serial| then Some(s.serial[id.index]) else None
  }

  /** Ids of live nodes and serial numbers correspond one to one. */
  lemma LiveIds(nodes: seq<Node>, head: Option<nat>, s: Shape, debt: Option<nat>, id: NodeId)
    requires Represents(nodes, head, s, debt)
    ensures ResolvesLive(nodes, id) ==>
              var k := s.serial[id.index]; k in s.forest.caps && s.ids[k] == id && RecordAt(nodes, s, debt, k)
    ensures forall k :: k in s.forest.caps && s.ids[k] == id ==> Denotes(nodes, s, id) == Some(k)
  {
    if ResolvesLive(nodes, id) {
      assert RecordAt(nodes, s, debt, s.serial[id.index]);
    }
    forall k | k in s.forest.caps && s.ids[k] == id
      ensures Denotes(nodes, s, id) == Some(k)
    {
      assert RecordAt(nodes, s, debt, k);
    }
  }

  /**
    The id of a freed node resolves again exactly when its entry has since been recycled a whole
    number of generation periods; short of such a wrap it stays stale.
  */
  lemma StaleIdIffNoWrap(nodes: seq<Node>, head: Option<nat>, s: Shape, k: nat)
    requires Represents(nodes, head, s, None)
    requires k < s.forest.next && k !in s.forest.caps
    ensures s.ids[k].index < |s.epochs| && s.born[k] < s.epochs[s.ids[k].index]
    ensures Resolves(nodes, s.ids[k]) <==> (s.epochs[s.ids[k].index] - s.born[k]) % PERIOD == 0
  {
    SameGenerationIffWrapped(s.born[k], s.epochs[s.ids[k].index]);
  }

  // ---------- counting ----------

  /** Live and free entries together fill the vector at most once. */
  lemma LiveBound(nodes: seq<Node>, s: Shape)
    requires Sized(s) && Indexed(nodes, s) && Distinct(s.free)
    requires forall i :: i in s.free ==> i < |nodes| && nodes[i].state.Free?
    ensures |s.forest.caps| + |s.free| <= |nodes|
  {
    var places := set k | k in s.forest.caps :: s.ids[k].index;
    PlacesSize(s, s.forest.caps.Keys, places);
    ElementsBound(s.free);
    assert places !! Elements(s.free);
    IndexSetBound(places + Elements(s.free), |nodes|);
  }

  lemma {:induction false} PlacesSize(s: Shape, ks: set<nat>, places: set<nat>)
    requires forall k :: k in ks ==> k < |s.ids| && s.ids[k].index < |s.serial| && s.serial[s.ids[k].index] == k
    requires places == set k | k in ks :: s.ids[k].index
    ensures |places| == |ks|
    decreases |ks|
  {
    if ks != {} {
      var k :| k in ks;
      var rest := set j | j in ks - {k} :: s.ids[j].index;
      PlacesSize(s, ks - {k}, rest);
      assert places == rest + {s.ids[k].index};
    }
  }

  lemma {:induction false} IndexSetBound(a: set<nat>, n: nat)
    requires forall i :: i in a ==> i < n
    ensures |a| <= n
  {
    if n == 0 {
      assert a == {};
    } else {
      IndexSetBound(a - {n - 1}, n - 1);
      assert a <= (a - {n - 1}) + {n - 1};
      SubsetSize(a, (a - {n - 1}) + {n - 1});
    }
  }

  /** No reference count exceeds the number of live nodes. */
  lemma ReferenceBound(s: Shape, k: nat)
    requires WellFormed(s.forest) && Sized(s) && Listed(s) && k in s.forest.caps
    ensures References(s, None, k) <= |s.forest.caps|
  {
    var others := s.forest.caps.Keys - {k};
    forall c | c in s.kids[k]
      ensures c in others
    {
      assert IsChild(s.forest, c, k);
      assert ChildOk(s.forest, c);
    }
    DistinctWithin(s.kids[k], others);
  }

  // ---------- creating a node ----------

  ghost function GrowShape(s: Shape, parent: Option<nat>, info: CapabilityInfo, id: NodeId): Shape
    requires Sized(s) && (parent.Some? ==> parent.value in s.forest.caps)
    requires id.index <= |s.serial|
  {
    var k := s.forest.next;
    var recycled := id.index < |s.serial|;
    Shape(
      Grow(s.forest, parent, info),
      s.ids + [id],
      s.born + [if recycled then s.epochs[id.index] else 0],
      (if parent.Some? then s.kids[parent.value := [k] + s.kids[parent.value]] else s.kids) + [[]],
      s.sib + [if parent.Some? then First(s.kids[parent.value]) else None],
      if recycled then s.serial[id.index := k] else s.serial + [k],
      if recycled then s.epochs else s.epochs + [0],
      if s.free == [] then [] else s.free[1..])
  }

  ghost function NewNode(s: Shape, parent: Option<nat>, info: CapabilityInfo, id: NodeId): Node
    requires Sized(s) && (parent.Some? ==> parent.value in s.forest.caps)
  {
    var next := if parent.Some? then IdAt(s, First(s.kids[parent.value])) else None;
    Node(id.generation, Live(info, IdAt(s, parent), None, next, false, 1))
  }

  /** The vector after a node was put at `id` in front of the children of `parent`. */
  ghost predicate Grown(nodes: seq<Node>, s: Shape, parent: Option<nat>, info: CapabilityInfo, id: NodeId, nodes': seq<Node>)
    requires Sized(s) && (parent.Some? ==> parent.value in s.forest.caps && RecordAt(nodes, s, None, parent.value))
  {
    && |nodes'| == (if id.index < |nodes| then |nodes| else |nodes| + 1)
    && id.index < |nodes'|
    && nodes'[id.index] == NewNode(s, parent, info, id)
    && (parent.Some? ==>
          var i := s.ids[parent.value].index;
          i != id.index &&
          nodes'[i] == Node(nodes[i].generation,
                            nodes[i].state.(firstChild := Some(id), references := nodes[i].state.references + 1)))
    && (forall i :: 0 <= i < |nodes| && i != id.index && (parent.Some? ==> i != s.ids[parent.value].index) ==>
          nodes'[i] == nodes[i])
  }

  /** `id` is the entry the allocator picks: the head of the free list, or one past the end. */
  ghost predicate IsNextId(nodes: seq<Node>, head: Option<nat>, id: NodeId) {
    match head
    case Some(i) => i < |nodes| && nodes[i].state.Free? && id == NodeId(i, nodes[i].generation)
    case None => id == NodeId(|nodes|, 1)
  }

  lemma GrowRepresents(nodes: seq<Node>, head: Option<nat>, s: Shape, parent: Option<nat>, info: CapabilityInfo,
                       id: NodeId, nodes': seq<Node>, head': Option<nat>)
    requires Represents(nodes, head, s, None)
    requires CanGrow(s.forest, parent, info)
    requires IsNextId(nodes, head, id)
    requires (parent.Some? ==> RecordAt(nodes, s, None, parent.value)) && Grown(nodes, s, parent, info, id, nodes')
    requires head' == (if head.Some? then After(s.free, 0) else None)
    ensures Represents(nodes', head', GrowShape(s, parent, info, id), None)
  {
    GrowKeeps(s.forest, parent, info);
    GrowListed(s, parent, info, id);
    GrowIndexed(nodes, head, s, parent, info, id, nodes');
    GrowAged(nodes, head, s, parent, info, id, nodes');
    GrowRecorded(nodes, head, s, parent, info, id, nodes');
    GrowThreaded(nodes, head, s, parent, info, id, nodes', head');
  }

  lemma GrowIndexed(nodes: seq<Node>, head: Option<nat>, s: Shape, parent: Option<nat>, info: CapabilityInfo,
                    id: NodeId, nodes': seq<Node>)
    requires Sized(s) && Indexed(nodes, s)
    requires IsNextId(nodes, head, id)
    requires parent.Some? ==> parent.value in s.forest.caps && RecordAt(nodes, s, None, parent.value)
    requires Grown(nodes, s, parent, info, id, nodes')
    ensures Sized(GrowShape(s, parent, info, id)) && Indexed(nodes', GrowShape(s, parent, info, id))
  {
    hide Grown, RecordAt, GrowShape, Indexed;
    GrowLive(nodes, head, s, parent, info, id, nodes');
    GrowSized(s, parent, info, id);
    OneMoreIndexed(nodes, s, id, nodes', GrowShape(s, parent, info, id));
  }

  lemma GrowSized(s: Shape, parent: Option<nat>, info: CapabilityInfo, id: NodeId)
    requires Sized(s) && id.index <= |s.serial| && (parent.Some? ==> parent.value in s.forest.caps)
    ensures var t := GrowShape(s, parent, info, id);
      Sized(t) && t.ids == s.ids + [id] && t.forest.caps.Keys == s.forest.caps.Keys + {s.forest.next}
  {
  }

  lemma OneMoreIndexed(nodes: seq<Node>, s: Shape, id: NodeId, nodes': seq<Node>, t: Shape)
    requires Sized(s) && Indexed(nodes, s) && Sized(t)
    requires t.ids == s.ids + [id] && t.forest.caps.Keys == s.forest.caps.Keys + {s.forest.next}
    requires |t.serial| == |nodes'| && |nodes| <= |nodes'| <= |nodes| + 1 && id.index < |nodes'|
    requires |nodes'| > |nodes| ==> id.index == |nodes|
    requires id.index < |nodes| ==> nodes[id.index].state.Free?
    requires forall i :: 0 <= i < |nodes'| ==>
      && (nodes'[i].state.Live? <==> i == id.index || (i < |nodes| && nodes[i].state.Live?))
      && t.serial[i] == if i == id.index then s.forest.next else s.serial[i]
    ensures Indexed(nodes', t)
  {
  }

  /** Growing brings exactly one entry to life. */
  lemma GrowLive(nodes: seq<Node>, head: Option<nat>, s: Shape, parent: Option<nat>, info: CapabilityInfo,
                 id: NodeId, nodes': seq<Node>)
    requires Sized(s) && Indexed(nodes, s)
    requires IsNextId(nodes, head, id)
    requires parent.Some? ==> parent.value in s.forest.caps && RecordAt(nodes, s, None, parent.value)
    requires Grown(nodes, s, parent, info, id, nodes')
    ensures id.index <= |s.serial| && (id.index < |nodes| ==> nodes[id.index].state.Free?)
    ensures var t := GrowShape(s, parent, info, id);
      && |t.serial| == |nodes'| && |nodes| <= |nodes'| <= |nodes| + 1 && id.index < |nodes'|
      && (|nodes'| > |nodes| ==> id.index == |nodes|)
      && (forall i :: 0 <= i < |nodes'| ==>
            && (nodes'[i].state.Live? <==> i == id.index || (i < |nodes| && nodes[i].state.Live?))
            && t.serial[i] == if i == id.index then s.forest.next else s.serial[i])
  {
  }

  lemma GrowAged(nodes: seq<Node>, head: Option<nat>, s: Shape, parent: Option<nat>, info: CapabilityInfo,
                 id: NodeId, nodes': seq<Node>)
    requires Sized(s) && |s.serial| == |nodes| && Aged(nodes, s)
    requires IsNextId(nodes, head, id)
    requires parent.Some? ==> parent.value in s.forest.caps && RecordAt(nodes, s, None, parent.value)
    requires Grown(nodes, s, parent, info, id, nodes')
    ensures Aged(nodes', GrowShape(s, parent, info, id))
  {
    hide GenerationAt;
    FirstGeneration();
  }

  lemma GrowRecorded(nodes: seq<Node>, head: Option<nat>, s: Shape, parent: Option<nat>, info: CapabilityInfo,
                     id: NodeId, nodes': seq<Node>)
    requires WellFormed(s.forest) && Sized(s) && Indexed(nodes, s) && Recorded(nodes, s, None) && Listed(s)
    requires IsNextId(nodes, head, id)
    requires parent.Some? ==> parent.value in s.forest.caps && RecordAt(nodes, s, None, parent.value)
    requires Grown(nodes, s, parent, info, id, nodes')
    ensures Recorded(nodes', GrowShape(s, parent, info, id), None)
  {
    var s' := GrowShape(s, parent, info, id);
    forall k | k in s'.forest.caps
      ensures RecordAt(nodes', s', None, k)
    {
      if k in s.forest.caps {
        assert RecordAt(nodes, s, None, k) && SiblingOk(s, k);
        assert s.forest.caps[k].parent.Some? ==> ChildOk(s.forest, k);
        assert s.kids[k] != [] ==> IsChild(s.forest, s.kids[k][0], k);
        GrowRecordAt(nodes, s, parent, info, id, nodes', k);
      } else if parent.Some? && s.kids[parent.value] != [] {
        assert IsChild(s.forest, s.kids[parent.value][0], parent.value);
      }
    }
  }

  lemma GrowRecordAt(nodes: seq<Node>, s: Shape, parent: Option<nat>, info: CapabilityInfo,
                     id: NodeId, nodes': seq<Node>, k: nat)
    requires Sized(s) && |s.serial| == |nodes| && id.index <= |nodes|
    requires parent.Some? ==> parent.value in s.forest.caps && RecordAt(nodes, s, None, parent.value)
    requires Grown(nodes, s, parent, info, id, nodes')
    requires k in s.forest.caps && RecordAt(nodes, s, None, k) && SiblingOk(s, k)
    requires s.ids[k].index != id.index
    requires parent.Some? && parent.value != k ==> s.ids[k].index != s.ids[parent.value].index
    requires s.forest.caps[k].parent.Some? ==> ChildOk(s.forest, k)
    requires s.kids[k] != [] ==> s.kids[k][0] in s.forest.caps
    ensures RecordAt(nodes', GrowShape(s, parent, info, id), None, k)
  {
    var s' := GrowShape(s, parent, info, id);
    assert IdAt(s', s.sib[k]) == IdAt(s, s.sib[k]);
    assert IdAt(s', s.forest.caps[k].parent) == IdAt(s, s.forest.caps[k].parent);
    assert s.kids[k] != [] ==> IdAt(s', First(s.kids[k])) == IdAt(s, First(s.kids[k]));
  }

  lemma GrowThreaded(nodes: seq<Node>, head: Option<nat>, s: Shape, parent: Option<nat>, info: CapabilityInfo,
                     id: NodeId, nodes': seq<Node>, head': Option<nat>)
    requires Sized(s) && |s.serial| == |nodes| && Threaded(nodes, head, s.free)
    requires IsNextId(nodes, head, id)
    requires parent.Some? ==> parent.value in s.forest.caps && RecordAt(nodes, s, None, parent.value)
    requires Grown(nodes, s, parent, info, id, nodes')
    requires head' == (if head.Some? then After(s.free, 0) else None)
    ensures Threaded(nodes', head', GrowShape(s, parent, info, id).free)
  {
    if head.Some? {
      var free' := s.free[1..];
      assert FreeAt(nodes, s.free, 0);
      forall j | 0 <= j < |free'|
        ensures FreeAt(nodes', free', j)
      {
        assert FreeAt(nodes, s.free, j + 1);
      }
      forall i | 0 <= i < |nodes'| && nodes'[i].state.Free?
        ensures i in free'
      {
        assert i in s.free && i != s.free[0];
      }
      forall i | i in free'
        ensures i < |nodes'| && nodes'[i].state.Free?
      {
        assert i in s.free;
      }
    }
  }

  lemma GrowListed(s: Shape, parent: Option<nat>, info: CapabilityInfo, id: NodeId)
    requires WellFormed(s.forest) && Sized(s) && Listed(s) && id.index <= |s.serial|
    requires parent.Some? ==> parent.value in s.forest.caps
    ensures Sized(GrowShape(s, parent, info, id)) && Listed(GrowShape(s, parent, info, id))
  {
    GrowEnlisted(s, parent, info, id);
    GrowChained(s, parent, info, id);
  }

  lemma GrowEnlisted(s: Shape, parent: Option<nat>, info: CapabilityInfo, id: NodeId)
    requires WellFormed(s.forest) && Sized(s) && Enlisted(s) && id.index <= |s.serial|
    requires parent.Some? ==> parent.value in s.forest.caps
    ensures Sized(GrowShape(s, parent, info, id)) && Enlisted(GrowShape(s, parent, info, id))
  {
    var s' := GrowShape(s, parent, info, id);
    var k := s.forest.next;
    forall c: nat, p: nat | IsChild(s'.forest, c, p)
      ensures p in s'.forest.caps && c in s'.kids[p]
    {
      if c != k {
        assert IsChild(s.forest, c, p);
      }
    }
    forall p | p in s'.forest.caps
      ensures Distinct(s'.kids[p])
      ensures forall c :: c in s'.kids[p] ==> IsChild(s'.forest, c, p)
    {
      if p != k {
        forall c | c in s.kids[p]
          ensures c != k && IsChild(s'.forest, c, p)
        {
          assert IsChild(s.forest, c, p);
        }
        DistinctCons(k, s.kids[p]);
      }
    }
  }

  lemma GrowChained(s: Shape, parent: Option<nat>, info: CapabilityInfo, id: NodeId)
    requires WellFormed(s.forest) && Sized(s) && Listed(s) && id.index <= |s.serial|
    requires parent.Some? ==> parent.value in s.forest.caps
    ensures Sized(GrowShape(s, parent, info, id)) && Chained(GrowShape(s, parent, info, id))
  {
    var s' := GrowShape(s, parent, info, id);
    var k := s.forest.next;
    forall p, j | p in s'.forest.caps && 0 <= j < |s'.kids[p]|
      ensures SiblingAt(s', p, j)
    {
      assert p != k;
      var j0 := if parent == Some(p) then j - 1 else j;
      if j0 >= 0 {
        assert SiblingAt(s, p, j0);
        assert IsChild(s.forest, s.kids[p][j0], p);
      }
    }
    forall j | j in s'.forest.caps
      ensures SiblingOk(s', j)
    {
      if j != k {
        assert SiblingOk(s, j);
      } else if parent.Some? && s.kids[parent.value] != [] {
        assert IsChild(s.forest, s.kids[parent.value][0], parent.value);
      }
    }
  }

  // ---------- revoking a node ----------

  lemma RevokeRepresents(nodes: seq<Node>, head: Option<nat>, s: Shape, k: nat)
    requires Represents(nodes, head, s, None) && k in s.forest.caps
    ensures var i := s.ids[k].index;
      && nodes[i].state.Live?
      && Represents(nodes[i := nodes[i].(state := nodes[i].state.(revoked := true))], head,
                    s.(forest := MarkRevoked(s.forest, k)), None)
  {
    RevokeKeeps(s.forest, k);
    var i := s.ids[k].index;
    var nodes' := nodes[i := nodes[i].(state := nodes[i].state.(revoked := true))];
    RevokeListed(s, k);
    RevokeRecorded(nodes, s, k, nodes');
    StateUpdateKeeps(nodes, head, s, i, nodes');
    assert Aged(nodes', s.(forest := MarkRevoked(s.forest, k)));
  }

  lemma RevokeRecorded(nodes: seq<Node>, s: Shape, k: nat, nodes': seq<Node>)
    requires Sized(s) && Indexed(nodes, s) && Recorded(nodes, s, None) && k in s.forest.caps
    requires var i := s.ids[k].index; nodes' == nodes[i := nodes[i].(state := nodes[i].state.(revoked := true))]
    ensures Sized(s.(forest := MarkRevoked(s.forest, k))) && Recorded(nodes', s.(forest := MarkRevoked(s.forest, k)), None)
    ensures Indexed(nodes', s.(forest := MarkRevoked(s.forest, k)))
  {
    var s' := s.(forest := MarkRevoked(s.forest, k));
    forall j | j in s'.forest.caps
      ensures RecordAt(nodes', s', None, j)
    {
      assert RecordAt(nodes, s, None, j);
    }
  }

  /** Rewriting the state of a live entry touches neither the free list nor any generation. */
  lemma StateUpdateKeeps(nodes: seq<Node>, head: Option<nat>, s: Shape, i: nat, nodes': seq<Node>)
    requires i < |nodes| && nodes[i].state.Live? && |nodes'| == |nodes|
    requires nodes'[i].state.Live? && nodes'[i].generation == nodes[i].generation
    requires forall j :: 0 <= j < |nodes| && j != i ==> nodes'[j] == nodes[j]
    requires Sized(s) && Threaded(nodes, head, s.free) && Aged(nodes, s)
    ensures Threaded(nodes', head, s.free) && Aged(nodes', s)
  {
    forall j | 0 <= j < |s.free|
      ensures FreeAt(nodes', s.free, j)
    {
      assert FreeAt(nodes, s.free, j);
    }
  }

  lemma RevokeListed(s: Shape, k: nat)
    requires Sized(s) && Listed(s) && k in s.forest.caps
    ensures Sized(s.(forest := MarkRevoked(s.forest, k))) && Listed(s.(forest := MarkRevoked(s.forest, k)))
  {
    var s' := s.(forest := MarkRevoked(s.forest, k));
    assert forall c: nat, p: nat :: IsChild(s'.forest, c, p) <==> IsChild(s.forest, c, p);
    forall p, j | p in s'.forest.caps && 0 <= j < |s'.kids[p]|
      ensures SiblingAt(s', p, j)
    {
      assert SiblingAt(s, p, j);
    }
    forall j | j in s'.forest.caps
      ensures SiblingOk(s', j)
    {
      assert SiblingOk(s, j);
    }
  }

  // ---------- releasing references ----------

  /** Giving up the slot turns its reference into a pending release. */
  lemma UnholdRepresents(nodes: seq<Node>, head: Option<nat>, s: Shape, k: nat)
    requires Represents(nodes, head, s, None) && k in s.forest.held
    ensures Represents(nodes, head, s.(forest := Unhold(s.forest, k)), Some(k))
  {
    UnholdWellFormed(s.forest, k);
    var s' := s.(forest := Unhold(s.forest, k));
    assert Listed(s') by {
      UnholdListed(s, k);
    }
    forall j | j in s'.forest.caps
      ensures RecordAt(nodes, s', Some(k), j)
    {
      assert RecordAt(nodes, s, None, j);
    }
  }

  lemma UnholdListed(s: Shape, k: nat)
    requires Sized(s) && Listed(s)
    ensures Sized(s.(forest := Unhold(s.forest, k))) && Listed(s.(forest := Unhold(s.forest, k)))
  {
    var s' := s.(forest := Unhold(s.forest, k));
    assert forall c: nat, p: nat :: IsChild(s'.forest, c, p) <==> IsChild(s.forest, c, p);
    forall p, j | p in s'.forest.caps && 0 <= j < |s'.kids[p]|
      ensures SiblingAt(s', p, j)
    {
      assert SiblingAt(s, p, j);
    }
    forall j | j in s'.forest.caps
      ensures SiblingOk(s', j)
    {
      assert SiblingOk(s, j);
    }
  }

  /** A pending release is settled by counting down, as long as other references remain. */
  lemma SettleRepresents(nodes: seq<Node>, head: Option<nat>, s: Shape, k: nat, nodes': seq<Node>)
    requires Represents(nodes, head, s, Some(k)) && RecordAt(nodes, s, Some(k), k)
    requires var i := s.ids[k].index;
      nodes' == nodes[i := nodes[i].(state := nodes[i].state.(references := nodes[i].state.references - 1))]
    ensures Represents(nodes', head, s, None)
  {
    var i := s.ids[k].index;
    StateUpdateKeeps(nodes, head, s, i, nodes');
    SettleRecorded(nodes, s, k, nodes');
  }

  lemma SettleRecorded(nodes: seq<Node>, s: Shape, k: nat, nodes': seq<Node>)
    requires Sized(s) && Indexed(nodes, s) && Recorded(nodes, s, Some(k)) && k in s.forest.caps
    requires RecordAt(nodes, s, Some(k), k)
    requires var i := s.ids[k].index;
      nodes' == nodes[i := nodes[i].(state := nodes[i].state.(references := nodes[i].state.references - 1))]
    ensures Indexed(nodes', s) && Recorded(nodes', s, None)
  {
    forall j | j in s.forest.caps
      ensures RecordAt(nodes', s, None, j)
    {
      assert RecordAt(nodes, s, Some(k), j);
    }
  }

  // ---------- freeing a node ----------

  /** `at` is the position of `k` among its siblings (any number if it has no parent). */
  ghost predicate AtPlace(s: Shape, k: nat, at: nat) {
    && Sized(s) && k in s.forest.caps
    && (s.forest.caps[k].parent.Some? ==>
          var p := s.forest.caps[k].parent.value;
          && p in s.forest.caps && at < |s.kids[p]| && s.kids[p][at] == k
          && (at > 0 ==> s.kids[p][at - 1] in s.forest.caps))
  }

  /** The node whose link leads to `k`: its parent if `k` is the first child, else the sibling before. */
  ghost function LinkedFrom(s: Shape, k: nat, at: nat): (q: nat)
    requires AtPlace(s, k, at) && s.forest.caps[k].parent.Some?
    ensures q in s.forest.caps
  {
    var p := s.forest.caps[k].parent.value;
    if at == 0 then p else s.kids[p][at - 1]
  }

  ghost function DropShape(s: Shape, k: nat, at: nat): Shape
    requires AtPlace(s, k, at) && s.ids[k].index < |s.epochs|
  {
    var i := s.ids[k].index;
    var s1 := s.(forest := s.forest.(caps := s.forest.caps - {k}),
                 epochs := s.epochs[i := s.epochs[i] + 1],
                 free := [i] + s.free);
    match s.forest.caps[k].parent
    case None => s1
    case Some(p) =>
      var s2 := s1.(kids := s.kids[p := Without(s.kids[p], at)]);
      if at == 0 then s2 else s2.(sib := s.sib[LinkedFrom(s, k, at) := s.sib[k]])
  }

  /** ... and then its entry was put on the free list. */
  ghost predicate Dropped(nodes: seq<Node>, head: Option<nat>, s: Shape, k: nat, at: nat, nodes': seq<Node>)
    requires AtPlace(s, k, at)
  {
    var i := s.ids[k].index;
    && |nodes'| == |nodes| && i < |nodes|
    && nodes[i].generation <= U32_MAX
    && nodes'[i] == Node(NextGeneration(nodes[i].generation), Free(head))
    && match s.forest.caps[k].parent
       case None => forall m :: 0 <= m < |nodes| && m != i ==> nodes'[m] == nodes[m]
       case Some(p) =>
         var t := s.ids[LinkedFrom(s, k, at)].index;
         && t < |nodes| && nodes[t].state.Live? && t != i
         && nodes'[t] == nodes[t].(state := if at == 0 then nodes[t].state.(firstChild := IdAt(s, s.sib[k]))
                                            else nodes[t].state.(nextSibling := IdAt(s, s.sib[k])))
         && (forall m :: 0 <= m < |nodes| && m != i && m != t ==> nodes'[m] == nodes[m])
  }

  lemma DropRepresents(nodes: seq<Node>, head: Option<nat>, s: Shape, k: nat, at: nat, nodes': seq<Node>)
    requires Represents(nodes, head, s, Some(k))
    requires k !in s.forest.held && s.kids[k] == []
    requires AtPlace(s, k, at) && Dropped(nodes, head, s, k, at, nodes')
    ensures s.ids[k].index < |s.epochs|
    ensures Represents(nodes', Some(s.ids[k].index), DropShape(s, k, at), s.forest.caps[k].parent)
  {
    hide Dropped, Aged;
    assert !HasChild(s.forest, k);
    RemoveLeafWellFormed(s.forest, k);
    assert s.forest.caps[k].parent.Some? ==> ChildOk(s.forest, k);
    DropEnlisted(s, k, at);
    DropChained(s, k, at);
    DropIndexed(nodes, head, s, k, at, nodes');
    DropAged(nodes, head, s, k, at, nodes');
    DropRecorded(nodes, head, s, k, at, nodes');
    DropThreaded(nodes, head, s, k, at, nodes');
  }

  lemma DropIndexed(nodes: seq<Node>, head: Option<nat>, s: Shape, k: nat, at: nat, nodes': seq<Node>)
    requires AtPlace(s, k, at) && Indexed(nodes, s) && |s.epochs| == |nodes|
    requires Dropped(nodes, head, s, k, at, nodes')
    ensures Sized(DropShape(s, k, at)) && Indexed(nodes', DropShape(s, k, at))
  {
  }

  lemma DropAged(nodes: seq<Node>, head: Option<nat>, s: Shape, k: nat, at: nat, nodes': seq<Node>)
    requires AtPlace(s, k, at) && Indexed(nodes, s) && Aged(nodes, s)
    requires Dropped(nodes, head, s, k, at, nodes')
    ensures Sized(DropShape(s, k, at)) && Aged(nodes', DropShape(s, k, at))
  {
    hide GenerationAt;
    NextGenerationAdvances(s.epochs[s.ids[k].index]);
  }

  lemma DropThreaded(nodes: seq<Node>, head: Option<nat>, s: Shape, k: nat, at: nat, nodes': seq<Node>)
    requires AtPlace(s, k, at) && Threaded(nodes, head, s.free) && |s.epochs| == |nodes|
    requires s.ids[k].index < |nodes| && nodes[s.ids[k].index].state.Live?
    requires Dropped(nodes, head, s, k, at, nodes')
    ensures Threaded(nodes', Some(s.ids[k].index), DropShape(s, k, at).free)
  {
    var i := s.ids[k].index;
    var free' := [i] + s.free;
    DistinctCons(i, s.free);
    forall j | 0 <= j < |free'|
      ensures FreeAt(nodes', free', j)
    {
      if j > 0 {
        assert FreeAt(nodes, s.free, j - 1);
      }
    }
  }

  lemma DropEnlisted(s: Shape, k: nat, at: nat)
    requires AtPlace(s, k, at) && Enlisted(s) && s.ids[k].index < |s.epochs|
    requires s.kids[k] == []
    ensures Sized(DropShape(s, k, at)) && Enlisted(DropShape(s, k, at))
  {
    var s' := DropShape(s, k, at);
    var parent := s.forest.caps[k].parent;
    forall p | p in s'.forest.caps
      ensures Distinct(s'.kids[p])
      ensures forall c :: c in s'.kids[p] <==> c in s.kids[p] && c != k
    {
      if parent == Some(p) {
        WithoutElements(s.kids[p], at);
      }
    }
    forall c: nat, p: nat | IsChild(s'.forest, c, p)
      ensures p in s'.forest.caps && c in s'.kids[p]
    {
      assert IsChild(s.forest, c, p);
    }
    forall p, c | p in s'.forest.caps && c in s'.kids[p]
      ensures IsChild(s'.forest, c, p)
    {
      assert IsChild(s.forest, c, p);
    }
  }

  lemma DropChained(s: Shape, k: nat, at: nat)
    requires AtPlace(s, k, at) && Listed(s) && s.ids[k].index < |s.epochs|
    requires s.kids[k] == []
    ensures Sized(DropShape(s, k, at)) && Chained(DropShape(s, k, at))
  {
    var s' := DropShape(s, k, at);
    forall p, j | p in s'.forest.caps && 0 <= j < |s'.kids[p]|
      ensures SiblingAt(s', p, j)
    {
      DropSiblingAt(s, k, at, p, j);
    }
    forall m | m in s'.forest.caps
      ensures SiblingOk(s', m)
    {
      DropSiblingOk(s, k, at, m);
    }
  }

  lemma DropSiblingAt(s: Shape, k: nat, at: nat, p: nat, j: nat)
    requires AtPlace(s, k, at) && Listed(s) && s.ids[k].index < |s.epochs|
    requires p in s.forest.caps && p != k && j < |DropShape(s, k, at).kids[p]|
    ensures SiblingAt(DropShape(s, k, at), p, j)
  {
    var s' := DropShape(s, k, at);
    var parent := s.forest.caps[k].parent;
    if parent == Some(p) {
      var j0 := if j < at then j else j + 1;
      assert s'.kids[p][j] == s.kids[p][j0];
      assert SiblingAt(s, p, j0);
      assert SiblingAt(s, p, at);
      assert Distinct(s.kids[p]);
    } else {
      assert SiblingAt(s, p, j);
      if parent.Some? && at > 0 {
        var q := s.kids[parent.value][at - 1];
        assert IsChild(s.forest, q, parent.value) && IsChild(s.forest, s.kids[p][j], p);
      }
    }
  }

  lemma DropSiblingOk(s: Shape, k: nat, at: nat, m: nat)
    requires AtPlace(s, k, at) && Listed(s) && s.ids[k].index < |s.epochs|
    requires m in s.forest.caps && m != k
    ensures Sized(DropShape(s, k, at)) && SiblingOk(DropShape(s, k, at), m)
  {
    assert SiblingOk(s, m) && SiblingOk(s, k);
    var parent := s.forest.caps[k].parent;
    if parent.Some? && at > 0 && m == s.kids[parent.value][at - 1] {
      assert SiblingAt(s, parent.value, at - 1);
    }
    if s.sib[m] == Some(k) {
      var p := s.forest.caps[m].parent.value;
      assert IsChild(s.forest, m, p);
      var j :| 0 <= j < |s.kids[p]| && s.kids[p][j] == m;
      assert SiblingAt(s, p, j);
      assert IsChild(s.forest, s.kids[p][j + 1], p);
      assert Distinct(s.kids[p]);
      assert at == j + 1;
      assert SiblingAt(s, p, at);
      if at + 1 < |s.kids[p]| {
        assert IsChild(s.forest, s.kids[p][at + 1], p);
      }
    }
  }

  lemma DropRecorded(nodes: seq<Node>, head: Option<nat>, s: Shape, k: nat, at: nat, nodes': seq<Node>)
    requires AtPlace(s, k, at) && Listed(s) && Indexed(nodes, s) && Recorded(nodes, s, Some(k))
    requires |s.epochs| == |nodes| && WellFormed(s.forest)
    requires Dropped(nodes, head, s, k, at, nodes')
    ensures Sized(DropShape(s, k, at)) && Recorded(nodes', DropShape(s, k, at), s.forest.caps[k].parent)
  {
    var parent := s.forest.caps[k].parent;
    if parent.Some? {
      assert SiblingAt(s, parent.value, at);
      assert Distinct(s.kids[parent.value]);
      if at > 0 {
        assert IsChild(s.forest, s.kids[parent.value][at - 1], parent.value);
        assert ChildOk(s.forest, s.kids[parent.value][at - 1]);
      }
    }
    forall m | m in DropShape(s, k, at).forest.caps
      ensures RecordAt(nodes', DropShape(s, k, at), parent, m)
    {
      assert RecordAt(nodes, s, Some(k), m);
      DropRecordAt(nodes, head, s, k, at, nodes', m);
    }
  }

  lemma DropRecordAt(nodes: seq<Node>, head: Option<nat>, s: Shape, k: nat, at: nat, nodes': seq<Node>, m: nat)
    requires AtPlace(s, k, at) && s.ids[k].index < |s.epochs|
    requires m in s.forest.caps && m != k && RecordAt(nodes, s, Some(k), m)
    requires s.ids[m].index != s.ids[k].index
    requires s.forest.caps[k].parent.Some? ==>
               var p := s.forest.caps[k].parent.value;
               var q := LinkedFrom(s, k, at);
               && SiblingAt(s, p, at)
               && (m != q ==> s.ids[m].index != s.ids[q].index)
               && (at > 0 ==> q != p && s.kids[p][0] != k)
    requires Dropped(nodes, head, s, k, at, nodes')
    ensures Sized(DropShape(s, k, at)) && RecordAt(nodes', DropShape(s, k, at), s.forest.caps[k].parent, m)
  {
    var s' := DropShape(s, k, at);
    if s.forest.caps[k].parent == Some(m) {
      assert First(s'.kids[m]) == if at == 0 then s.sib[k] else First(s.kids[m]);
    }
  }
}
