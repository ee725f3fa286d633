/**
 What a descriptor says of the registrations it was made from, and that it says all of them: modules with the
 same descriptor have the same described structure (structure.ts, `describeGraph` and what it calls).
 */
module DescriptorMeaning {
  import opened Optional
  import opened Sorting
  import opened WorkflowModel
  import opened Containment
  import opened GraphRules
  import opened WorkflowDescriptor

  // ----- What one description says of one registration -----

  ghost predicate NodeSays(arena: map<GraphId, Graph>, node: NodeReg, d: NodeDescriptor) {
    match node
    case Operation(_, _, title, description) =>
      d.kind == OperationKind && d.title == title && d.description == description
    case Subgraph(graph, _, _, _, title, description) =>
      && graph.Some? && graph.value in arena && d.kind.SubgraphKind?
      && arena[graph.value].key == Some(d.kind.graphKey) && d.title == title && d.description == description
    case Checkpoint(_, _, title, description) =>
      d.kind == CheckpointKind && d.title == title && d.description == description
    case UnbrandedNode => false
  }

  ghost predicate EdgeSays(edge: EdgeReg, d: EdgeDescriptor) {
    && edge.Edge? && edge.from == Some(d.from) && edge.title == d.title
    && edge.to.Some? && |edge.to.value| == |d.to|
    && forall i :: 0 <= i < |d.to| ==> edge.to.value[i] == Some(d.to[i])
  }

  ghost predicate OutcomeSays(outcome: OutcomeReg, d: OutcomeDescriptor) {
    outcome.Outcome? && outcome.kind == Some(d.kind) && outcome.reason == d.reason && outcome.title == d.title
  }

  // ----- What a list of descriptions says of a collection -----

  ghost predicate Registered<T>(c: Collection<T>, id: Text, value: T) {
    c.Entries? && (id, value) in c.entries
  }

  ghost predicate InOrder(ids: seq<Text>) {
    forall i, j :: 0 <= i < j < |ids| ==> ids[i] != ids[j] && TextLe(ids[i], ids[j])
  }

  function NodeIds(ds: seq<NodeDescriptor>): (ids: seq<Text>)
    ensures |ids| == |ds| && forall i :: 0 <= i < |ds| ==> ids[i] == ds[i].id
  {
    seq(|ds|, i requires 0 <= i < |ds| => ds[i].id)
  }

  function EdgeIds(ds: seq<EdgeDescriptor>): (ids: seq<Text>)
    ensures |ids| == |ds| && forall i :: 0 <= i < |ds| ==> ids[i] == ds[i].id
  {
    seq(|ds|, i requires 0 <= i < |ds| => ds[i].id)
  }

  function OutcomeIds(ds: seq<OutcomeDescriptor>): (ids: seq<Text>)
    ensures |ids| == |ds| && forall i :: 0 <= i < |ds| ==> ids[i] == ds[i].id
  {
    seq(|ds|, i requires 0 <= i < |ds| => ds[i].id)
  }

  ghost predicate Named<T(!new)>(c: Collection<T>, id: Text) {
    exists value :: Registered(c, id, value)
  }

  // Exactly the registered names, each once, in code-unit order.
  ghost predicate Lists<T(!new)>(c: Collection<T>, ids: seq<Text>) {
    InOrder(ids) && forall id :: id in ids <==> Named(c, id)
  }

  ghost predicate NodesSay(arena: map<GraphId, Graph>, c: Collection<NodeReg>, ds: seq<NodeDescriptor>) {
    && Lists(c, NodeIds(ds))
    && forall i, node :: 0 <= i < |ds| && Registered(c, ds[i].id, node) ==> NodeSays(arena, node, ds[i])
  }

  ghost predicate EdgesSay(c: Collection<EdgeReg>, ds: seq<EdgeDescriptor>) {
    && Lists(c, EdgeIds(ds))
    && forall i, edge :: 0 <= i < |ds| && Registered(c, ds[i].id, edge) ==> EdgeSays(edge, ds[i])
  }

  ghost predicate OutcomesSay(c: Collection<OutcomeReg>, ds: seq<OutcomeDescriptor>) {
    && Lists(c, OutcomeIds(ds))
    && forall i, outcome :: 0 <= i < |ds| && Registered(c, ds[i].id, outcome) ==> OutcomeSays(outcome, ds[i])
  }

  ghost predicate GraphSays(arena: map<GraphId, Graph>, g: Graph, d: GraphDescriptor) {
    && g.key == Some(d.key) && g.title == Some(d.title) && g.description == d.description && g.entry == Some(d.entry)
    && Lists(g.state, d.stateFields) && NodesSay(arena, g.nodes, d.nodes)
    && EdgesSay(g.edges, d.edges) && OutcomesSay(g.outcomes, d.outcomes)
  }

  // ----- A collection's ids, in order -----

  lemma {:induction false} CountedOnce<T>(s: seq<T>, x: T)
    requires forall i, j :: 0 <= i < j < |s| ==> s[i] != s[j]
    ensures multiset(s)[x] <= 1
  {
    if s != [] {
      assert s == [s[0]] + s[1..];
      CountedOnce(s[1..], x);
      if x == s[0] {
        assert x !in s[1..];
      }
    }
  }

  lemma CountedTwice<T>(s: seq<T>, i: nat, j: nat)
    requires i < j < |s| && s[i] == s[j]
    ensures multiset(s)[s[i]] >= 2
  {
    assert s == s[..j] + s[j..];
    assert s[i] in s[..j] && s[i] in s[j..];
  }

  lemma SortedIdsList<T(!new)>(c: Collection<T>)
    requires c.Entries? && DistinctKeys(c)
    ensures Lists(c, SortedIds(c))
  {
    TextOrderIsTotal();
    var keys, sorted := Keys(c.entries), SortedIds(c);
    SortIsSorted(keys, TextLe);
    forall i, j | 0 <= i < j < |sorted|
      ensures sorted[i] != sorted[j]
    {
      if sorted[i] == sorted[j] {
        CountedTwice(sorted, i, j);
        CountedOnce(keys, sorted[i]);
      }
    }
    forall id
      ensures id in sorted <==> Named(c, id)
    {
      assert id in multiset(sorted) <==> id in multiset(keys);
      KeysAreNames(c, id);
    }
  }

  lemma KeysAreNames<T(!new)>(c: Collection<T>, id: Text)
    requires c.Entries?
    ensures id in Keys(c.entries) <==> Named(c, id)
  {
    var keys := Keys(c.entries);
    if id in keys {
      var i :| 0 <= i < |keys| && keys[i] == id;
      assert Registered(c, id, c.entries[i].1);
    }
    if value :| Registered(c, id, value) {
      var i :| 0 <= i < |c.entries| && c.entries[i] == (id, value);
      assert keys[i] == id;
    }
  }

  lemma RegisteredIsFound<T>(c: Collection<T>, id: Text, value: T)
    requires DistinctKeys(c) && Registered(c, id, value)
    ensures Get(c, id) == Some(value)
  {
    FindIsEntry(c.entries, id);
    var i :| 0 <= i < |c.entries| && c.entries[i] == (id, value);
    var j :| 0 <= j < |c.entries| && c.entries[j] == (id, Find(c.entries, id).value);
  }

  lemma {:induction false} AlongAt<T, D>(ids: seq<Text>, c: Collection<T>, describe: (Text, Option<T>) -> D)
    ensures |Along(ids, c, describe)| == |ids|
    ensures forall i :: 0 <= i < |ids| ==> Along(ids, c, describe)[i] == describe(ids[i], Get(c, ids[i]))
  {
    if ids != [] {
      AlongAt(ids[1..], c, describe);
    }
  }

  // ----- What is described, is described truly -----

  // An embedded graph that is known and has a key.
  ghost predicate Embeds(arena: map<GraphId, Graph>, node: NodeReg) {
    node.Subgraph? ==> node.graph.Some? && node.graph.value in arena && arena[node.graph.value].key.Some?
  }

  lemma NodesAreDescribed(arena: map<GraphId, Graph>, c: Collection<NodeReg>)
    requires GoodNodes(c) && DistinctKeys(c) && forall id, node :: Registered(c, id, node) ==> Embeds(arena, node)
    ensures NodesSay(arena, c, Along(SortedIds(c), c, (id, node) => DescribeNode(arena, id, node)))
  {
    var ids := SortedIds(c);
    var ds := Along(ids, c, (id, node) => DescribeNode(arena, id, node));
    SortedIdsList(c);
    AlongAt(ids, c, (id, node) => DescribeNode(arena, id, node));
    assert forall i :: 0 <= i < |ids| ==> ds[i].id == ids[i];
    assert NodeIds(ds) == ids;
    forall i, node | 0 <= i < |ds| && Registered(c, ds[i].id, node)
      ensures NodeSays(arena, node, ds[i])
    {
      RegisteredIsFound(c, ds[i].id, node);
      NodeIsDescribed(arena, ds[i].id, node);
    }
  }

  lemma NodeIsDescribed(arena: map<GraphId, Graph>, id: Text, node: NodeReg)
    requires GoodNode(node) && Embeds(arena, node)
    ensures NodeSays(arena, node, DescribeNode(arena, id, Some(node)))
  {
  }

  lemma EdgesAreDescribed(c: Collection<EdgeReg>, nodeIds: seq<Text>, outcomeIds: seq<Text>)
    requires GoodEdges(c, nodeIds, outcomeIds) && DistinctKeys(c)
    ensures EdgesSay(c, Along(SortedIds(c), c, DescribeEdge))
  {
    var ids := SortedIds(c);
    var ds := Along(ids, c, DescribeEdge);
    SortedIdsList(c);
    AlongAt(ids, c, DescribeEdge);
    assert forall i :: 0 <= i < |ids| ==> ds[i].id == ids[i];
    assert EdgeIds(ds) == ids;
    forall i, edge | 0 <= i < |ds| && Registered(c, ds[i].id, edge)
      ensures EdgeSays(edge, ds[i])
    {
      RegisteredIsFound(c, ds[i].id, edge);
      EdgeIsDescribed(ds[i].id, edge, nodeIds, outcomeIds);
    }
  }

  lemma EdgeIsDescribed(id: Text, edge: EdgeReg, nodeIds: seq<Text>, outcomeIds: seq<Text>)
    requires GoodEdge(edge, nodeIds, outcomeIds)
    ensures EdgeSays(edge, DescribeEdge(id, Some(edge)))
  {
    DestinationsAsDeclared(edge.to.value);
  }

  lemma OutcomesAreDescribed(c: Collection<OutcomeReg>)
    requires GoodOutcomes(c) && DistinctKeys(c)
    ensures OutcomesSay(c, Along(SortedIds(c), c, DescribeOutcome))
  {
    var ids := SortedIds(c);
    var ds := Along(ids, c, DescribeOutcome);
    SortedIdsList(c);
    AlongAt(ids, c, DescribeOutcome);
    assert forall i :: 0 <= i < |ids| ==> ds[i].id == ids[i];
    assert OutcomeIds(ds) == ids;
    forall i, outcome | 0 <= i < |ds| && Registered(c, ds[i].id, outcome)
      ensures OutcomeSays(outcome, ds[i])
    {
      RegisteredIsFound(c, ds[i].id, outcome);
      OutcomeIsDescribed(ds[i].id, outcome);
    }
  }

  lemma OutcomeIsDescribed(id: Text, outcome: OutcomeReg)
    requires GoodOutcome(outcome)
    ensures OutcomeSays(outcome, DescribeOutcome(id, Some(outcome)))
  {
    assert outcome.kind.value == Success || outcome.kind.value == Failure;
  }

  /** On an accepted graph the declared destinations are described as declared, in the author's order. */
  lemma {:induction false} DestinationsAsDeclared(to: seq<Option<Text>>)
    requires forall i :: 0 <= i < |to| ==> to[i].Some?
    requires forall i, j :: 0 <= i < j < |to| ==> to[i] != to[j]
    ensures |Destinations(to)| == |to| && forall i :: 0 <= i < |to| ==> to[i] == Some(Destinations(to)[i])
  {
    if to != [] {
      DestinationsAsDeclared(to[..|to| - 1]);
    }
  }

  /** A well-formed graph's description lists exactly its fields, nodes, edges and outcomes, each with what was
      registered. */
  lemma GraphIsDescribed(arena: map<GraphId, Graph>, g: Graph)
    requires GoodHeader(g) && GoodBody(g) && IsObject(g)
    requires forall id, node :: Registered(g.nodes, id, node) ==> Embeds(arena, node)
    ensures GraphSays(arena, g, DescribeGraph(arena, g))
  {
    SortedIdsList(g.state);
    NodesAreDescribed(arena, g.nodes);
    EdgesAreDescribed(g.edges, Ids(g.nodes), Ids(g.outcomes));
    OutcomesAreDescribed(g.outcomes);
  }

  // ----- The same, read off one entry at a time -----

  lemma ListedOutcome(c: Collection<OutcomeReg>, ds: seq<OutcomeDescriptor>, d: OutcomeDescriptor)
    requires OutcomesSay(c, ds)
    ensures d in ds <==> exists output :: Registered(c, d.id, Outcome(Some(d.kind), output, d.reason, d.title))
  {
    if d in ds {
      assert d.id in OutcomeIds(ds) by {
        var i :| 0 <= i < |ds| && ds[i] == d;
        assert OutcomeIds(ds)[i] == d.id;
      }
      var outcome :| Registered(c, d.id, outcome);
      assert outcome == Outcome(Some(d.kind), outcome.output, d.reason, d.title);
    }
    if output :| Registered(c, d.id, Outcome(Some(d.kind), output, d.reason, d.title)) {
      assert Named(c, d.id) && d.id in OutcomeIds(ds);
      var i :| 0 <= i < |ds| && OutcomeIds(ds)[i] == d.id;
      assert OutcomeSays(Outcome(Some(d.kind), output, d.reason, d.title), ds[i]);
    }
  }

  function Wrapped(to: seq<Text>): (r: seq<Option<Text>>)
    ensures |r| == |to| && forall i :: 0 <= i < |to| ==> r[i] == Some(to[i])
  {
    seq(|to|, i requires 0 <= i < |to| => Some(to[i]))
  }

  lemma ListedEdge(c: Collection<EdgeReg>, ds: seq<EdgeDescriptor>, d: EdgeDescriptor)
    requires EdgesSay(c, ds)
    ensures d in ds <==> exists choose :: Registered(c, d.id, Edge(Some(d.from), Some(Wrapped(d.to)), choose, d.title))
  {
    if d in ds {
      assert d.id in EdgeIds(ds) by {
        var i :| 0 <= i < |ds| && ds[i] == d;
        assert EdgeIds(ds)[i] == d.id;
      }
      var edge :| Registered(c, d.id, edge);
      assert EdgeSays(edge, d);
      assert edge.to.value == Wrapped(d.to);
      assert edge == Edge(Some(d.from), Some(Wrapped(d.to)), edge.choose, d.title);
    }
    if choose :| Registered(c, d.id, Edge(Some(d.from), Some(Wrapped(d.to)), choose, d.title)) {
      assert Named(c, d.id) && d.id in EdgeIds(ds);
      var i :| 0 <= i < |ds| && EdgeIds(ds)[i] == d.id;
      assert EdgeSays(Edge(Some(d.from), Some(Wrapped(d.to)), choose, d.title), ds[i]);
      assert ds[i].to == d.to;
    }
  }

  lemma ListedNode(arena: map<GraphId, Graph>, c: Collection<NodeReg>, ds: seq<NodeDescriptor>, d: NodeDescriptor)
    requires NodesSay(arena, c, ds)
    ensures d in ds <==> exists node :: Registered(c, d.id, node) && NodeSays(arena, node, d)
  {
    if d in ds {
      assert d.id in NodeIds(ds) by {
        var i :| 0 <= i < |ds| && ds[i] == d;
        assert NodeIds(ds)[i] == d.id;
      }
      var node :| Registered(c, d.id, node);
      assert NodeSays(arena, node, d);
    }
    if node :| Registered(c, d.id, node) && NodeSays(arena, node, d) {
      assert Named(c, d.id) && d.id in NodeIds(ds);
      var i :| 0 <= i < |ds| && NodeIds(ds)[i] == d.id;
      assert NodeSays(arena, node, ds[i]);
    }
  }

  // ----- Equal descriptions come from alike registrations -----

  ghost predicate AlikeNodes(a: map<GraphId, Graph>, x: NodeReg, b: map<GraphId, Graph>, y: NodeReg) {
    && x.Operation? == y.Operation? && x.Checkpoint? == y.Checkpoint? && x.Subgraph? == y.Subgraph?
    && !x.UnbrandedNode? && !y.UnbrandedNode? && x.title == y.title && x.description == y.description
    && (x.Subgraph? ==>
          && x.graph.Some? && x.graph.value in a && y.graph.Some? && y.graph.value in b
          && a[x.graph.value].key.Some? && a[x.graph.value].key == b[y.graph.value].key)
  }

  ghost predicate AlikeEdges(x: EdgeReg, y: EdgeReg) {
    x.Edge? && y.Edge? && x.from == y.from && x.to == y.to && x.title == y.title
  }

  ghost predicate AlikeOutcomes(x: OutcomeReg, y: OutcomeReg) {
    x.Outcome? && y.Outcome? && x.kind == y.kind && x.reason == y.reason && x.title == y.title
  }

  // The same names are registered, and alike.
  ghost predicate AlikeGraphs(a: map<GraphId, Graph>, g: Graph, b: map<GraphId, Graph>, h: Graph) {
    && g.key == h.key && g.title == h.title && g.description == h.description && g.entry == h.entry
    && (forall id :: Named(g.state, id) <==> Named(h.state, id))
    && (forall id, x :: Registered(g.nodes, id, x) ==> exists y :: Registered(h.nodes, id, y) && AlikeNodes(a, x, b, y))
    && (forall id, y :: Registered(h.nodes, id, y) ==> exists x :: Registered(g.nodes, id, x) && AlikeNodes(a, x, b, y))
    && (forall id, x :: Registered(g.edges, id, x) ==> exists y :: Registered(h.edges, id, y) && AlikeEdges(x, y))
    && (forall id, y :: Registered(h.edges, id, y) ==> exists x :: Registered(g.edges, id, x) && AlikeEdges(x, y))
    && (forall id, x :: Registered(g.outcomes, id, x) ==>
          exists y :: Registered(h.outcomes, id, y) && AlikeOutcomes(x, y))
    && (forall id, y :: Registered(h.outcomes, id, y) ==>
          exists x :: Registered(g.outcomes, id, x) && AlikeOutcomes(x, y))
  }

  lemma SameNodes(a: map<GraphId, Graph>, c: Collection<NodeReg>, b: map<GraphId, Graph>, e: Collection<NodeReg>,
                  ds: seq<NodeDescriptor>, id: Text, x: NodeReg)
    requires NodesSay(a, c, ds) && NodesSay(b, e, ds) && Registered(c, id, x)
    ensures exists y :: Registered(e, id, y) && AlikeNodes(a, x, b, y) && AlikeNodes(b, y, a, x)
  {
    assert Named(c, id) && id in NodeIds(ds);
    var i :| 0 <= i < |ds| && NodeIds(ds)[i] == id;
    assert Named(e, id);
    var y :| Registered(e, ds[i].id, y);
    assert AlikeNodes(a, x, b, y) && AlikeNodes(b, y, a, x);
  }

  lemma SameEdges(c: Collection<EdgeReg>, e: Collection<EdgeReg>, ds: seq<EdgeDescriptor>, id: Text, x: EdgeReg)
    requires EdgesSay(c, ds) && EdgesSay(e, ds) && Registered(c, id, x)
    ensures exists y :: Registered(e, id, y) && AlikeEdges(x, y) && AlikeEdges(y, x)
  {
    assert Named(c, id) && id in EdgeIds(ds);
    var i :| 0 <= i < |ds| && EdgeIds(ds)[i] == id;
    assert Named(e, id);
    var y :| Registered(e, ds[i].id, y);
    assert EdgeSays(x, ds[i]) && EdgeSays(y, ds[i]);
    assert x.to.value == y.to.value;
    assert AlikeEdges(x, y) && AlikeEdges(y, x);
  }

  lemma SameOutcomes(c: Collection<OutcomeReg>, e: Collection<OutcomeReg>, ds: seq<OutcomeDescriptor>,
                     id: Text, x: OutcomeReg)
    requires OutcomesSay(c, ds) && OutcomesSay(e, ds) && Registered(c, id, x)
    ensures exists y :: Registered(e, id, y) && AlikeOutcomes(x, y) && AlikeOutcomes(y, x)
  {
    assert Named(c, id) && id in OutcomeIds(ds);
    var i :| 0 <= i < |ds| && OutcomeIds(ds)[i] == id;
    assert Named(e, id);
    var y :| Registered(e, ds[i].id, y);
    assert AlikeOutcomes(x, y) && AlikeOutcomes(y, x);
  }

  /** Graphs with one description are alike in everything that is described. */
  lemma OneDescriptionIsAlike(a: map<GraphId, Graph>, g: Graph, b: map<GraphId, Graph>, h: Graph, d: GraphDescriptor)
    requires GraphSays(a, g, d) && GraphSays(b, h, d)
    ensures AlikeGraphs(a, g, b, h)
  {
    forall id, x | Registered(g.nodes, id, x)
      ensures exists y :: Registered(h.nodes, id, y) && AlikeNodes(a, x, b, y)
    {
      SameNodes(a, g.nodes, b, h.nodes, d.nodes, id, x);
    }
    forall id, y | Registered(h.nodes, id, y)
      ensures exists x :: Registered(g.nodes, id, x) && AlikeNodes(a, x, b, y)
    {
      SameNodes(b, h.nodes, a, g.nodes, d.nodes, id, y);
    }
    forall id, x | Registered(g.edges, id, x)
      ensures exists y :: Registered(h.edges, id, y) && AlikeEdges(x, y)
    {
      SameEdges(g.edges, h.edges, d.edges, id, x);
    }
    forall id, y | Registered(h.edges, id, y)
      ensures exists x :: Registered(g.edges, id, x) && AlikeEdges(x, y)
    {
      SameEdges(h.edges, g.edges, d.edges, id, y);
    }
    forall id, x | Registered(g.outcomes, id, x)
      ensures exists y :: Registered(h.outcomes, id, y) && AlikeOutcomes(x, y)
    {
      SameOutcomes(g.outcomes, h.outcomes, d.outcomes, id, x);
    }
    forall id, y | Registered(h.outcomes, id, y)
      ensures exists x :: Registered(g.outcomes, id, x) && AlikeOutcomes(x, y)
    {
      SameOutcomes(h.outcomes, g.outcomes, d.outcomes, id, y);
    }
  }
}
