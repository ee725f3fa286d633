/** The canonical descriptor of a workflow module, and the inspection that guards it (structure.ts). */
module WorkflowDescriptor {
  import opened Optional
  import opened Sorting
  import opened WorkflowModel
  import opened Containment
  import opened ContainmentFacts

  datatype NodeKind = OperationKind | SubgraphKind(graphKey: Text) | CheckpointKind

  datatype NodeDescriptor = NodeDescriptor(id: Text, kind: NodeKind, title: Option<Text>, description: Option<Text>)

  datatype EdgeDescriptor = EdgeDescriptor(id: Text, from: Text, to: seq<Text>, title: Option<Text>)

  datatype OutcomeDescriptor = OutcomeDescriptor(id: Text, kind: OutcomeKind, reason: Option<Text>, title: Option<Text>)

  datatype GraphDescriptor = GraphDescriptor(
    key: Text, title: Text, description: Option<Text>, stateFields: seq<Text>, entry: Text,
    nodes: seq<NodeDescriptor>, edges: seq<EdgeDescriptor>, outcomes: seq<OutcomeDescriptor>)

  datatype Descriptor = Descriptor(rootGraphKey: Text, graphs: seq<GraphDescriptor>)

  // ----- Describing -----

  // Described graphs are validated first, so a missing string is never printed.
  function TextOf(t: Option<Text>): Text {
    if t.Some? then t.value else []
  }

  function KeyIn(arena: map<GraphId, Graph>, g: Option<GraphId>): Text {
    if g.Some? && g.value in arena then TextOf(arena[g.value].key) else []
  }

  function DescribeNode(arena: map<GraphId, Graph>, id: Text, node: Option<NodeReg>): NodeDescriptor {
    match node
    case Some(Subgraph(graph, _, _, _, title, description)) =>
      NodeDescriptor(id, SubgraphKind(KeyIn(arena, graph)), title, description)
    case Some(Checkpoint(_, _, title, description)) => NodeDescriptor(id, CheckpointKind, title, description)
    case Some(Operation(_, _, title, description)) => NodeDescriptor(id, OperationKind, title, description)
    case _ => NodeDescriptor(id, OperationKind, None, None)
  }

  // The declared order, without repetitions.
  function Destinations(to: seq<Option<Text>>): seq<Text> {
    if to == [] then []
    else
      var earlier := Destinations(to[..|to| - 1]);
      var last := TextOf(to[|to| - 1]);
      if last in earlier then earlier else earlier + [last]
  }

  function DescribeEdge(id: Text, edge: Option<EdgeReg>): EdgeDescriptor {
    match edge
    case Some(Edge(from, to, _, title)) =>
      EdgeDescriptor(id, TextOf(from), if to.Some? then Destinations(to.value) else [], title)
    case _ => EdgeDescriptor(id, [], [], None)
  }

  function DescribeOutcome(id: Text, outcome: Option<OutcomeReg>): OutcomeDescriptor {
    match outcome
    case Some(Outcome(kind, _, reason, title)) =>
      OutcomeDescriptor(id, if kind == Some(Failure) then Failure else Success, reason, title)
    case _ => OutcomeDescriptor(id, Success, None, None)
  }

  // One description per id, in the order of the ids.
  function Along<T, D>(ids: seq<Text>, c: Collection<T>, describe: (Text, Option<T>) -> D): seq<D> {
    if ids == [] then [] else [describe(ids[0], Get(c, ids[0]))] + Along(ids[1..], c, describe)
  }

  function DescribeGraph(arena: map<GraphId, Graph>, g: Graph): GraphDescriptor {
    GraphDescriptor(
      TextOf(g.key), TextOf(g.title), g.description, SortedIds(g.state), TextOf(g.entry),
      Along(SortedIds(g.nodes), g.nodes, (id, node) => DescribeNode(arena, id, node)),
      Along(SortedIds(g.edges), g.edges, DescribeEdge),
      Along(SortedIds(g.outcomes), g.outcomes, DescribeOutcome))
  }

  function DescribeAll(arena: map<GraphId, Graph>, graphs: seq<GraphId>): seq<GraphDescriptor>
    requires forall g :: g in graphs ==> g in arena
  {
    if graphs == [] then [] else [DescribeGraph(arena, arena[graphs[0]])] + DescribeAll(arena, graphs[1..])
  }

  predicate KeyLe(a: GraphDescriptor, b: GraphDescriptor) {
    TextLe(a.key, b.key)
  }

  // ----- Registration order -----

  // The same registrations, declared in any order.
  ghost predicate SameRegistrations<T>(a: Collection<T>, b: Collection<T>) {
    if a.Entries? then b.Entries? && multiset(a.entries) == multiset(b.entries) && DistinctKeys(a) && DistinctKeys(b)
    else b.NotAnObject?
  }

  ghost predicate SameGraph(a: Graph, b: Graph) {
    && a.(state := b.state, nodes := b.nodes, edges := b.edges, outcomes := b.outcomes) == b
    && SameRegistrations(a.state, b.state) && SameRegistrations(a.nodes, b.nodes)
    && SameRegistrations(a.edges, b.edges) && SameRegistrations(a.outcomes, b.outcomes)
  }

  ghost predicate SameGraphs(a: map<GraphId, Graph>, b: map<GraphId, Graph>) {
    a.Keys == b.Keys && forall g :: g in a ==> SameGraph(a[g], b[g])
  }

  lemma {:induction false} FindIsEntry<T>(entries: seq<(Text, T)>, id: Text)
    ensures Find(entries, id).Some? ==> (id, Find(entries, id).value) in entries
    ensures Find(entries, id).None? ==> forall entry :: entry in entries ==> entry.0 != id
  {
    if entries != [] {
      FindIsEntry(entries[1..], id);
      assert entries == [entries[0]] + entries[1..];
    }
  }

  lemma GetIgnoresOrder<T>(a: Collection<T>, b: Collection<T>, id: Text)
    requires SameRegistrations(a, b)
    ensures Get(a, id) == Get(b, id)
  {
    if a.Entries? {
      FindIsEntry(a.entries, id);
      FindIsEntry(b.entries, id);
      forall entry ensures entry in a.entries <==> entry in b.entries {
        assert entry in multiset(a.entries) <==> entry in multiset(b.entries);
      }
      assert forall x, y :: x in a.entries && y in a.entries && x.0 == y.0 ==> x == y;
    }
  }

  lemma KeysWithoutOne<T>(s: seq<(Text, T)>, j: nat)
    requires j < |s|
    ensures multiset(Keys(s)) == multiset(Keys(Without(s, j))) + multiset{s[j].0}
  {
    var head, tail := s[..j], s[j + 1..];
    assert s == head + s[j..] && s[j..][1..] == tail;
    KeysOfConcat(head, s[j..]);
    KeysOfConcat(head, tail);
    assert Keys(s[j..]) == [s[j].0] + Keys(tail);
  }

  lemma KeysOfConcat<T>(a: seq<(Text, T)>, b: seq<(Text, T)>)
    ensures Keys(a + b) == Keys(a) + Keys(b)
  {
    var joined, apart := Keys(a + b), Keys(a) + Keys(b);
    assert |joined| == |apart|;
    assert forall i :: 0 <= i < |joined| ==> joined[i] == apart[i];
  }

  lemma {:induction false} KeysIgnoreOrder<T>(a: seq<(Text, T)>, b: seq<(Text, T)>)
    requires multiset(a) == multiset(b)
    ensures multiset(Keys(a)) == multiset(Keys(b))
    decreases |a|
  {
    if a == [] {
      assert |multiset(b)| == 0;
    } else {
      assert a[0] in multiset(b);
      var j :| 0 <= j < |b| && b[j] == a[0];
      WithoutOne(a, 0);
      WithoutOne(b, j);
      KeysIgnoreOrder(Without(a, 0), Without(b, j));
      KeysWithoutOne(a, 0);
      KeysWithoutOne(b, j);
    }
  }

  lemma SortedIdsIgnoreOrder<T>(a: Collection<T>, b: Collection<T>)
    requires SameRegistrations(a, b)
    ensures SortedIds(a) == SortedIds(b)
  {
    TextOrderIsTotal();
    if a.Entries? {
      KeysIgnoreOrder(a.entries, b.entries);
      SortForgetsOrder(Keys(a.entries), Keys(b.entries), TextLe);
    }
  }

  lemma {:induction false} AlongIgnoresOrder<T, D>(ids: seq<Text>, a: Collection<T>, b: Collection<T>,
                                                   describe: (Text, Option<T>) -> D)
    requires SameRegistrations(a, b)
    ensures Along(ids, a, describe) == Along(ids, b, describe)
  {
    if ids != [] {
      GetIgnoresOrder(a, b, ids[0]);
      AlongIgnoresOrder(ids[1..], a, b, describe);
    }
  }

  lemma {:induction false} ChildrenIgnoreOrder(a: Collection<NodeReg>, b: Collection<NodeReg>, ids: seq<Text>)
    requires SameRegistrations(a, b)
    ensures ChildrenAlong(a, ids) == ChildrenAlong(b, ids)
  {
    if ids != [] {
      GetIgnoresOrder(a, b, ids[0]);
      ChildrenIgnoreOrder(a, b, ids[1..]);
    }
  }

  lemma SameSize<T>(a: Collection<T>, b: Collection<T>)
    requires SameRegistrations(a, b)
    ensures a.Entries? ==> |a.entries| == |b.entries|
  {
    if a.Entries? {
      assert |multiset(a.entries)| == |multiset(b.entries)|;
    }
  }

  lemma OutlineIgnoresOrder(a: Graph, b: Graph)
    requires SameGraph(a, b)
    ensures OutlineOf(a) == OutlineOf(b)
  {
    SameSize(a.nodes, b.nodes);
    SameSize(a.edges, b.edges);
    SameSize(a.outcomes, b.outcomes);
    SortedIdsIgnoreOrder(a.nodes, b.nodes);
    ChildrenIgnoreOrder(a.nodes, b.nodes, SortedIds(a.nodes));
  }

  lemma DescriptionIgnoresOrder(arena: map<GraphId, Graph>, other: map<GraphId, Graph>, g: GraphId)
    requires SameGraphs(arena, other) && g in arena
    ensures DescribeGraph(arena, arena[g]) == DescribeGraph(other, other[g])
  {
    var a, b := arena[g], other[g];
    SortedIdsIgnoreOrder(a.state, b.state);
    SortedIdsIgnoreOrder(a.nodes, b.nodes);
    SortedIdsIgnoreOrder(a.edges, b.edges);
    SortedIdsIgnoreOrder(a.outcomes, b.outcomes);
    var describe := (id, node) => DescribeNode(arena, id, node);
    AlongIgnoresOrder(SortedIds(a.nodes), a.nodes, b.nodes, describe);
    NodesIgnoreArena(SortedIds(b.nodes), b.nodes, arena, other);
    AlongIgnoresOrder(SortedIds(a.edges), a.edges, b.edges, DescribeEdge);
    AlongIgnoresOrder(SortedIds(a.outcomes), a.outcomes, b.outcomes, DescribeOutcome);
  }

  lemma {:induction false} NodesIgnoreArena(ids: seq<Text>, c: Collection<NodeReg>, arena: map<GraphId, Graph>,
                                            other: map<GraphId, Graph>)
    requires SameGraphs(arena, other)
    ensures Along(ids, c, (id, node) => DescribeNode(arena, id, node)) ==
              Along(ids, c, (id, node) => DescribeNode(other, id, node))
  {
    forall g ensures KeyIn(arena, g) == KeyIn(other, g) {
      assert g.Some? && g.value in arena ==> SameGraph(arena[g.value], other[g.value]);
    }
    if ids != [] {
      NodesIgnoreArena(ids[1..], c, arena, other);
    }
  }

  lemma {:induction false} AllIgnoreOrder(arena: map<GraphId, Graph>, other: map<GraphId, Graph>, graphs: seq<GraphId>)
    requires SameGraphs(arena, other) && forall g :: g in graphs ==> g in arena
    ensures DescribeAll(arena, graphs) == DescribeAll(other, graphs)
  {
    if graphs != [] {
      DescriptionIgnoresOrder(arena, other, graphs[0]);
      AllIgnoreOrder(arena, other, graphs[1..]);
    }
  }

  ghost predicate Inspectable(arena: map<GraphId, Graph>, root: GraphId) {
    Closed(OutlinesOf(arena)) && root in arena
  }

  lemma CollectedAreKnown(o: Outlines, root: GraphId)
    requires Closed(o) && root in o
    ensures forall g :: g in Descended(o, START, root).graphs ==> g in o
  {
    CollectsExactlyTheReachable(o, root);
    DescendedOnWalk(o, root, START, root);
  }

  // The descriptor of an accepted module: every collected graph, by key.
  ghost function DescriptorOf(arena: map<GraphId, Graph>, root: GraphId): Descriptor
    requires Inspectable(arena, root)
  {
    CollectedAreKnown(OutlinesOf(arena), root);
    Descriptor(TextOf(arena[root].key),
               Sort(DescribeAll(arena, Descended(OutlinesOf(arena), START, root).graphs), KeyLe))
  }

  /** One structure, one descriptor: the order in which fields, nodes, edges, outcomes and embedded graphs
      were registered, in any graph of the module, leaves no trace. */
  lemma DescriptorIgnoresRegistrationOrder(arena: map<GraphId, Graph>, other: map<GraphId, Graph>, root: GraphId)
    requires Inspectable(arena, root) && SameGraphs(arena, other)
    ensures Inspectable(other, root) && DescriptorOf(arena, root) == DescriptorOf(other, root)
  {
    forall g | g in arena ensures OutlineOf(arena[g]) == OutlineOf(other[g]) {
      OutlineIgnoresOrder(arena[g], other[g]);
    }
    assert OutlinesOf(arena) == OutlinesOf(other);
    CollectedAreKnown(OutlinesOf(arena), root);
    AllIgnoreOrder(arena, other, Descended(OutlinesOf(arena), START, root).graphs);
  }
}
