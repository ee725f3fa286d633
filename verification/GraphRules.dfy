/** The rules one graph must satisfy, and the validators that check them (structure.ts, `validateGraph`). */
module GraphRules {
  import opened Optional
  import opened Sorting
  import opened WorkflowModel

  datatype Code =
    | InvalidIdentifier | MissingTitle | MissingInit | InvalidLabel | InvalidStateField | EmptyState
    | EmptyGraph | MissingCallback | SubgraphMissingGraph | UnknownNodeKind | NoOutcomes | IdentifierCollision
    | MissingEntry | EntryNotExecutable | EdgeSourceUnknown | DuplicateEdgeSource | MissingOutgoingEdge
    | EmptyDestinationSet | DuplicateDestination | EdgeDestinationUnknown

  // A finding about one graph, located at a node, edge, outcome or field where it has one.
  datatype Problem = Problem(code: Code, at: Option<Text>)

  // ----- The rules -----

  predicate IsLetter(c: CodeUnit) {
    65 <= c <= 90 || 97 <= c <= 122
  }

  // A letter, then letters, digits, "_" and "-", at most 64 characters in all.
  predicate IsIdentifier(id: Text) {
    && 1 <= |id| <= 64 && IsLetter(id[0])
    && forall i :: 1 <= i < |id| ==> IsLetter(id[i]) || 48 <= id[i] <= 57 || id[i] == 95 || id[i] == 45
  }

  predicate GoodHeader(g: Graph) {
    && g.key.Some? && IsIdentifier(g.key.value)
    && g.title.Some? && g.title.value != []
    && g.init && g.caption != NotAFunction
  }

  predicate GoodNode(node: NodeReg) {
    match node
    case Operation(run, caption, _, _) => run && caption != NotAFunction
    case Subgraph(graph, parameters, onResult, caption, _, _) =>
      graph.Some? && parameters && onResult && caption != NotAFunction
    case Checkpoint(plan, caption, _, _) => plan && caption != NotAFunction
    case UnbrandedNode => false
  }

  predicate GoodOutcome(outcome: OutcomeReg) {
    outcome.Outcome? && outcome.output && outcome.kind.Some?
  }

  predicate GoodState(state: Collection<StateReg>) {
    state.Entries? && state.entries != [] && forall i :: 0 <= i < |state.entries| ==> state.entries[i].1.Field?
  }

  predicate GoodNodes(nodes: Collection<NodeReg>) {
    && nodes.Entries? && nodes.entries != []
    && forall i :: 0 <= i < |nodes.entries| ==> IsIdentifier(nodes.entries[i].0) && GoodNode(nodes.entries[i].1)
  }

  predicate GoodOutcomes(outcomes: Collection<OutcomeReg>) {
    && outcomes.Entries? && outcomes.entries != []
    && forall i :: 0 <= i < |outcomes.entries| ==>
         IsIdentifier(outcomes.entries[i].0) && GoodOutcome(outcomes.entries[i].1)
  }

  // Declared, non-empty, without repetition, and each naming a node or an outcome.
  predicate GoodDestinations(to: Option<seq<Option<Text>>>, nodeIds: seq<Text>, outcomeIds: seq<Text>) {
    && to.Some? && to.value != []
    && (forall i :: 0 <= i < |to.value| ==>
          to.value[i].Some? && (to.value[i].value in nodeIds || to.value[i].value in outcomeIds))
    && (forall i, j :: 0 <= i < j < |to.value| ==> to.value[i] != to.value[j])
  }

  predicate GoodEdge(edge: EdgeReg, nodeIds: seq<Text>, outcomeIds: seq<Text>) {
    edge.Edge? && edge.choose && edge.from.Some? && edge.from.value in nodeIds
    && GoodDestinations(edge.to, nodeIds, outcomeIds)
  }

  // The routers of a node: the branded edges routing from it.
  function Routers(entries: seq<(Text, EdgeReg)>, node: Text): seq<Text> {
    if entries == [] then []
    else
      var (id, edge) := entries[|entries| - 1];
      Routers(entries[..|entries| - 1], node) + if edge.Edge? && edge.from == Some(node) then [id] else []
  }

  predicate GoodEdges(edges: Collection<EdgeReg>, nodeIds: seq<Text>, outcomeIds: seq<Text>) {
    && edges.Entries?
    && (forall i :: 0 <= i < |edges.entries| ==>
          IsIdentifier(edges.entries[i].0) && GoodEdge(edges.entries[i].1, nodeIds, outcomeIds))
    && (forall node :: node in nodeIds ==> |Routers(edges.entries, node)| == 1)
  }

  predicate Collision(g: Graph) {
    exists id :: id in Ids(g.nodes) && id in Ids(g.outcomes)
  }

  predicate GoodBody(g: Graph) {
    && GoodState(g.state) && GoodNodes(g.nodes) && GoodOutcomes(g.outcomes) && !Collision(g)
    && g.entry.Some? && g.entry.value in Ids(g.nodes)
    && GoodEdges(g.edges, Ids(g.nodes), Ids(g.outcomes))
  }

  // ----- What the rules amount to -----

  predicate RoutesFrom(entries: seq<(Text, EdgeReg)>, i: nat, node: Text) {
    i < |entries| && entries[i].1.Edge? && entries[i].1.from == Some(node)
  }

  ghost predicate HasSource(entries: seq<(Text, EdgeReg)>, i: nat, ids: seq<Text>) {
    exists node :: node in ids && RoutesFrom(entries, i, node)
  }

  lemma {:induction false} OneRouter(entries: seq<(Text, EdgeReg)>, node: Text)
    ensures |Routers(entries, node)| == 0 <==> forall i: nat :: !RoutesFrom(entries, i, node)
    ensures |Routers(entries, node)| == 1 <==>
            exists i: nat :: RoutesFrom(entries, i, node) && forall j: nat :: RoutesFrom(entries, j, node) ==> j == i
  {
    if entries != [] {
      var n := |entries| - 1;
      var init := entries[..n];
      OneRouter(init, node);
      assert forall i: nat :: RoutesFrom(entries, i, node) <==>
               RoutesFrom(init, i, node) || (i == n && RoutesFrom(entries, n, node));
      if RoutesFrom(entries, n, node) && |Routers(init, node)| > 0 {
        var i: nat :| RoutesFrom(init, i, node);
        assert RoutesFrom(entries, i, node) && i != n;
      }
      if |Routers(init, node)| == 1 && !RoutesFrom(entries, n, node) {
        var i: nat :| RoutesFrom(init, i, node) && forall j: nat :: RoutesFrom(init, j, node) ==> j == i;
        assert RoutesFrom(entries, i, node);
      }
    }
  }

  ghost function NodeSet(ids: seq<Text>): set<Text> {
    set id | id in ids
  }

  lemma {:induction false} AsManyEdgesAsNodes(entries: seq<(Text, EdgeReg)>, nodes: set<Text>)
    requires forall i: nat :: i < |entries| ==>
               entries[i].1.Edge? && entries[i].1.from.Some? && entries[i].1.from.value in nodes
    requires forall i, j :: 0 <= i < j < |entries| ==> entries[i].1.from != entries[j].1.from
    requires forall node :: node in nodes ==> exists i: nat :: RoutesFrom(entries, i, node)
    ensures |entries| == |nodes|
  {
    if entries == [] {
      assert nodes == {};
    } else {
      var n := |entries| - 1;
      var last := entries[n].1.from.value;
      forall node | node in nodes - {last} ensures exists i: nat :: RoutesFrom(entries[..n], i, node) {
        var i: nat :| RoutesFrom(entries, i, node);
        assert RoutesFrom(entries[..n], i, node);
      }
      AsManyEdgesAsNodes(entries[..n], nodes - {last});
    }
  }

  /** An accepted graph's edges are in bijection with its nodes: every edge routes from a node, every node
      has exactly one router, and so there are as many of one as of the other. */
  lemma EdgesMatchNodes(g: Graph)
    requires IsObject(g) && GoodBody(g)
    ensures forall i: nat :: i < |g.edges.entries| ==> HasSource(g.edges.entries, i, Ids(g.nodes))
    ensures forall node :: node in Ids(g.nodes) ==>
              exists i: nat :: RoutesFrom(g.edges.entries, i, node) && forall j: nat ::
                RoutesFrom(g.edges.entries, j, node) ==> j == i
    ensures |g.edges.entries| == |g.nodes.entries|
  {
    var edges, ids := g.edges.entries, Ids(g.nodes);
    forall i: nat | i < |edges| ensures HasSource(edges, i, ids) {
      assert GoodEdge(edges[i].1, ids, Ids(g.outcomes));
      assert RoutesFrom(edges, i, edges[i].1.from.value);
    }
    forall node | node in ids
      ensures exists i: nat :: RoutesFrom(edges, i, node) && forall j: nat :: RoutesFrom(edges, j, node) ==> j == i
    {
      OneRouter(edges, node);
    }
    forall i, j | 0 <= i < j < |edges| ensures edges[i].1.from != edges[j].1.from {
      var node := edges[j].1.from.value;
      assert RoutesFrom(edges, j, node);
      assert !RoutesFrom(edges, i, node);
    }
    AsManyEdgesAsNodes(edges, NodeSet(ids));
    DistinctIdsCount(ids);
  }

  lemma {:induction false} DistinctIdsCount(ids: seq<Text>)
    requires forall i, j :: 0 <= i < j < |ids| ==> ids[i] != ids[j]
    ensures |NodeSet(ids)| == |ids|
  {
    if ids != [] {
      var n := |ids| - 1;
      DistinctIdsCount(ids[..n]);
      assert NodeSet(ids) == NodeSet(ids[..n]) + {ids[n]};
    }
  }

  // ----- The validators -----

  method ValidateGraph(g: Graph) returns (problems: seq<Problem>)
    ensures problems == [] <==> GoodHeader(g) && (OverAnyLimit(g) || GoodBody(g))
  {
    problems := [];
    if g.key.None? || !IsIdentifier(g.key.value) {
      problems := problems + [Problem(InvalidIdentifier, None)];
    }
    if g.title.None? || g.title.value == [] {
      problems := problems + [Problem(MissingTitle, None)];
    }
    if !g.init {
      problems := problems + [Problem(MissingInit, None)];
    }
    if g.caption == NotAFunction {
      problems := problems + [Problem(InvalidLabel, None)];
    }
    // Its limits were reported when it was collected.
    if OverAnyLimit(g) {
      return;
    }
    var state := ValidateState(g.state);
    var nodes := ValidateNodes(g.nodes);
    var outcomes := ValidateOutcomes(g.outcomes);
    var collisions := ValidateNamespace(Ids(g.nodes), Ids(g.outcomes));
    var entry := ValidateEntry(g.entry, Ids(g.nodes), Ids(g.outcomes));
    var edges := ValidateEdges(g.edges, Ids(g.nodes), Ids(g.outcomes));
    problems := problems + state + nodes + outcomes + collisions + entry + edges;
  }

  method ValidateState(state: Collection<StateReg>) returns (problems: seq<Problem>)
    ensures problems == [] <==> GoodState(state)
  {
    if state.NotAnObject? {
      return [Problem(InvalidStateField, None)];
    }
    problems := if state.entries == [] then [Problem(EmptyState, None)] else [];
    for i := 0 to |state.entries|
      invariant problems == [] <==> (state.entries != [] && forall k :: 0 <= k < i ==> state.entries[k].1.Field?)
    {
      if !state.entries[i].1.Field? {
        problems := problems + [Problem(InvalidStateField, Some(state.entries[i].0))];
      }
    }
  }

  method ValidateNodes(nodes: Collection<NodeReg>) returns (problems: seq<Problem>)
    ensures problems == [] <==> GoodNodes(nodes)
  {
    if nodes.NotAnObject? {
      return [Problem(EmptyGraph, None)];
    }
    problems := if nodes.entries == [] then [Problem(EmptyGraph, None)] else [];
    for i := 0 to |nodes.entries|
      invariant problems == [] <==>
                  (nodes.entries != [] && forall k :: 0 <= k < i ==>
                     IsIdentifier(nodes.entries[k].0) && GoodNode(nodes.entries[k].1))
    {
      var (id, node) := nodes.entries[i];
      if !IsIdentifier(id) {
        problems := problems + [Problem(InvalidIdentifier, Some(id))];
      }
      var more := ValidateNode(node, id);
      problems := problems + more;
    }
  }

  method ValidateNode(node: NodeReg, id: Text) returns (problems: seq<Problem>)
    ensures problems == [] <==> GoodNode(node)
  {
    problems := [];
    match node {
      case Operation(run, caption, _, _) =>
        if !run {
          problems := problems + [Problem(MissingCallback, Some(id))];
        }
      case Subgraph(graph, parameters, onResult, caption, _, _) =>
        if !parameters {
          problems := problems + [Problem(MissingCallback, Some(id))];
        }
        if !onResult {
          problems := problems + [Problem(MissingCallback, Some(id))];
        }
        if graph.None? {
          problems := problems + [Problem(SubgraphMissingGraph, Some(id))];
        }
      case Checkpoint(plan, caption, _, _) =>
        if !plan {
          problems := problems + [Problem(MissingCallback, Some(id))];
        }
      case UnbrandedNode =>
        problems := problems + [Problem(UnknownNodeKind, Some(id))];
    }
    if !node.UnbrandedNode? && node.caption == NotAFunction {
      problems := problems + [Problem(InvalidLabel, Some(id))];
    }
  }

  method ValidateOutcomes(outcomes: Collection<OutcomeReg>) returns (problems: seq<Problem>)
    ensures problems == [] <==> GoodOutcomes(outcomes)
  {
    if outcomes.NotAnObject? {
      return [Problem(NoOutcomes, None)];
    }
    problems := if outcomes.entries == [] then [Problem(NoOutcomes, None)] else [];
    for i := 0 to |outcomes.entries|
      invariant problems == [] <==>
                  (outcomes.entries != []
                   && forall k :: 0 <= k < i ==>
                      IsIdentifier(outcomes.entries[k].0) && GoodOutcome(outcomes.entries[k].1))
    {
      var (id, outcome) := outcomes.entries[i];
      if !IsIdentifier(id) {
        problems := problems + [Problem(InvalidIdentifier, Some(id))];
      }
      if !outcome.Outcome? {
        problems := problems + [Problem(MissingCallback, Some(id))];
      } else {
        if !outcome.output {
          problems := problems + [Problem(MissingCallback, Some(id))];
        }
        if outcome.kind.None? {
          problems := problems + [Problem(MissingCallback, Some(id))];
        }
      }
    }
  }

  method ValidateNamespace(nodeIds: seq<Text>, outcomeIds: seq<Text>) returns (problems: seq<Problem>)
    ensures forall id :: Problem(IdentifierCollision, Some(id)) in problems <==> id in nodeIds && id in outcomeIds
    ensures problems == [] <==> !exists id :: id in nodeIds && id in outcomeIds
  {
    problems := [];
    for i := 0 to |nodeIds|
      invariant forall id :: Problem(IdentifierCollision, Some(id)) in problems <==>
                  id in nodeIds[..i] && id in outcomeIds
      invariant problems == [] <==> forall k :: 0 <= k < i ==> nodeIds[k] !in outcomeIds
    {
      assert nodeIds[..i + 1] == nodeIds[..i] + [nodeIds[i]];
      if nodeIds[i] in outcomeIds {
        problems := problems + [Problem(IdentifierCollision, Some(nodeIds[i]))];
      }
    }
    assert nodeIds[..|nodeIds|] == nodeIds;
  }

  method ValidateEntry(entry: Option<Text>, nodeIds: seq<Text>, outcomeIds: seq<Text>) returns (problems: seq<Problem>)
    ensures problems == [] <==> entry.Some? && entry.value in nodeIds
    ensures Problem(EntryNotExecutable, None) in problems <==>
              entry.Some? && entry.value !in nodeIds && entry.value in outcomeIds
  {
    if entry.None? || entry.value !in nodeIds {
      if entry.Some? && entry.value in outcomeIds {
        return [Problem(EntryNotExecutable, None)];
      }
      return [Problem(MissingEntry, None)];
    }
    return [];
  }

  method ValidateDestinations(to: Option<seq<Option<Text>>>, edgeId: Text, nodeIds: seq<Text>, outcomeIds: seq<Text>)
    returns (problems: seq<Problem>)
    ensures problems == [] <==> GoodDestinations(to, nodeIds, outcomeIds)
    ensures forall p :: p in problems ==> p.code in {EmptyDestinationSet, DuplicateDestination, EdgeDestinationUnknown}
  {
    if to.None? || to.value == [] {
      return [Problem(EmptyDestinationSet, Some(edgeId))];
    }
    problems := [];
    var seen: set<Text> := {};
    for i := 0 to |to.value|
      invariant forall d :: d in seen <==> exists k :: 0 <= k < i && to.value[k] == Some(d)
      invariant forall p :: p in problems ==>
                  p.code in {EmptyDestinationSet, DuplicateDestination, EdgeDestinationUnknown}
      invariant problems == [] <==>
                  && (forall k :: 0 <= k < i ==>
                        to.value[k].Some? && (to.value[k].value in nodeIds || to.value[k].value in outcomeIds))
                  && (forall j, k :: 0 <= j < k < i ==> to.value[j] != to.value[k])
    {
      var destination := to.value[i];
      if destination.None? {
        problems := problems + [Problem(EdgeDestinationUnknown, Some(edgeId))];
      } else if destination.value in seen {
        problems := problems + [Problem(DuplicateDestination, Some(edgeId))];
      } else {
        seen := seen + {destination.value};
        if destination.value !in nodeIds && destination.value !in outcomeIds {
          problems := problems + [Problem(EdgeDestinationUnknown, Some(edgeId))];
        }
      }
    }
  }

  // Edge ids by the registered node they route from.
  ghost predicate SourcesOf(sources: map<Text, seq<Text>>, entries: seq<(Text, EdgeReg)>, nodeIds: seq<Text>) {
    forall node :: (node in sources <==> node in nodeIds && Routers(entries, node) != [])
                   && (node in sources ==> sources[node] == Routers(entries, node))
  }

  /** Beyond rejecting exactly the ill-formed edges, the findings name exactly the nodes with no router
      and exactly the nodes with more than one. */
  method ValidateEdges(edges: Collection<EdgeReg>, nodeIds: seq<Text>, outcomeIds: seq<Text>)
    returns (problems: seq<Problem>)
    ensures problems == [] <==> GoodEdges(edges, nodeIds, outcomeIds)
    ensures edges.Entries? ==> forall node ::
              && (Problem(DuplicateEdgeSource, Some(node)) in problems <==>
                    node in nodeIds && |Routers(edges.entries, node)| > 1)
              && (Problem(MissingOutgoingEdge, Some(node)) in problems <==>
                    node in nodeIds && |Routers(edges.entries, node)| == 0)
  {
    if edges.NotAnObject? {
      return [Problem(MissingOutgoingEdge, None)];
    }
    var sources, found := CollectSources(edges.entries, nodeIds, outcomeIds);
    var duplicates := ReportDuplicates(sources);
    var missing := ReportMissing(sources, nodeIds);
    problems := found + duplicates + missing;
  }

  method CollectSources(entries: seq<(Text, EdgeReg)>, nodeIds: seq<Text>, outcomeIds: seq<Text>)
    returns (sources: map<Text, seq<Text>>, problems: seq<Problem>)
    ensures SourcesOf(sources, entries, nodeIds)
    ensures problems == [] <==>
            forall i :: 0 <= i < |entries| ==> IsIdentifier(entries[i].0) && GoodEdge(entries[i].1, nodeIds, outcomeIds)
    ensures forall p :: p in problems ==> p.code !in {DuplicateEdgeSource, MissingOutgoingEdge}
  {
    sources, problems := map[], [];
    for i := 0 to |entries|
      invariant SourcesOf(sources, entries[..i], nodeIds)
      invariant problems == [] <==>
                  forall k :: 0 <= k < i ==> IsIdentifier(entries[k].0) && GoodEdge(entries[k].1, nodeIds, outcomeIds)
      invariant forall p :: p in problems ==> p.code !in {DuplicateEdgeSource, MissingOutgoingEdge}
    {
      assert entries[..i + 1] == entries[..i] + [entries[i]];
      var (id, edge) := entries[i];
      sources := AddSource(sources, id, edge, nodeIds, entries[..i]);
      var more := ValidateEdge(edge, id, nodeIds, outcomeIds);
      problems := problems + more;
    }
    assert entries[..|entries|] == entries;
  }

  method ValidateEdge(edge: EdgeReg, id: Text, nodeIds: seq<Text>, outcomeIds: seq<Text>)
    returns (problems: seq<Problem>)
    ensures problems == [] <==> IsIdentifier(id) && GoodEdge(edge, nodeIds, outcomeIds)
    ensures forall p :: p in problems ==> p.code !in {DuplicateEdgeSource, MissingOutgoingEdge}
  {
    problems := if IsIdentifier(id) then [] else [Problem(InvalidIdentifier, Some(id))];
    if !edge.Edge? {
      problems := problems + [Problem(MissingCallback, Some(id))];
      return;
    }
    if !edge.choose {
      problems := problems + [Problem(MissingCallback, Some(id))];
    }
    if edge.from.None? || edge.from.value !in nodeIds {
      problems := problems + [Problem(EdgeSourceUnknown, Some(id))];
    }
    var more := ValidateDestinations(edge.to, id, nodeIds, outcomeIds);
    problems := problems + more;
  }

  method AddSource(sources: map<Text, seq<Text>>, id: Text, edge: EdgeReg, nodeIds: seq<Text>,
                   ghost entries: seq<(Text, EdgeReg)>)
    returns (more: map<Text, seq<Text>>)
    requires SourcesOf(sources, entries, nodeIds)
    ensures SourcesOf(more, entries + [(id, edge)], nodeIds)
  {
    assert (entries + [(id, edge)])[..|entries|] == entries;
    more := sources;
    if edge.Edge? && edge.from.Some? && edge.from.value in nodeIds {
      var from := edge.from.value;
      more := sources[from := (if from in sources then sources[from] else []) + [id]];
    }
  }

  method ReportDuplicates(sources: map<Text, seq<Text>>) returns (problems: seq<Problem>)
    ensures forall p :: p in problems <==>
              p.code == DuplicateEdgeSource && p.at.Some? && p.at.value in sources && |sources[p.at.value]| > 1
    ensures problems == [] <==> forall node :: node in sources ==> |sources[node]| <= 1
  {
    problems := [];
    var todo := sources.Keys;
    while todo != {}
      invariant todo <= sources.Keys
      invariant forall p :: p in problems <==>
                  p.code == DuplicateEdgeSource && p.at.Some? && p.at.value in sources && p.at.value !in todo
                  && |sources[p.at.value]| > 1
      invariant problems == [] <==> forall node :: node in sources && node !in todo ==> |sources[node]| <= 1
      decreases todo
    {
      var node :| node in todo;
      todo := todo - {node};
      if |sources[node]| > 1 {
        problems := problems + [Problem(DuplicateEdgeSource, Some(node))];
      }
    }
  }

  method ReportMissing(sources: map<Text, seq<Text>>, nodeIds: seq<Text>) returns (problems: seq<Problem>)
    ensures forall p :: p in problems <==>
              p.code == MissingOutgoingEdge && p.at.Some? && p.at.value in nodeIds && p.at.value !in sources
    ensures problems == [] <==> forall node :: node in nodeIds ==> node in sources
  {
    problems := [];
    for i := 0 to |nodeIds|
      invariant forall p :: p in problems <==>
                  p.code == MissingOutgoingEdge && p.at.Some? && p.at.value in nodeIds[..i] && p.at.value !in sources
      invariant problems == [] <==> forall node :: node in nodeIds[..i] ==> node in sources
    {
      assert nodeIds[..i + 1] == nodeIds[..i] + [nodeIds[i]];
      if nodeIds[i] !in sources {
        problems := problems + [Problem(MissingOutgoingEdge, Some(nodeIds[i]))];
      }
    }
    assert nodeIds[..|nodeIds|] == nodeIds;
  }
}
