/** The depth-first walk over graph containment (structure.ts, `collectStructure`). */
module Containment {
  import opened Optional
  import opened Sorting
  import opened WorkflowModel

  datatype Finding =
    | DuplicateGraphKey
    | RecursiveContainment
    | TooManyGraphs
    | TooManyNodes
    | TooManyEdges
    | TooManyOutcomes

  // ----- What the walk reads off a graph -----

  function SortedIds<T>(c: Collection<T>): seq<Text> {
    Sort(Ids(c), TextLe)
  }

  function ChildOf(node: Option<NodeReg>): seq<GraphId> {
    match node
    case Some(Subgraph(Some(child), _, _, _, _, _)) => [child]
    case _ => []
  }

  // The graphs embedded under these node ids, in this order.
  function ChildrenAlong(nodes: Collection<NodeReg>, ids: seq<Text>): seq<GraphId> {
    if ids == [] then [] else ChildOf(Get(nodes, ids[0])) + ChildrenAlong(nodes, ids[1..])
  }

  // Nothing is read of a graph with too many nodes.
  function ChildGraphs(g: Graph): seq<GraphId> {
    if OverLimit(g.nodes, MAX_NODES) then [] else ChildrenAlong(g.nodes, SortedIds(g.nodes))
  }

  function LimitFindings(g: Graph): seq<Finding> {
    (if OverLimit(g.edges, MAX_EDGES) then [TooManyEdges] else [])
    + (if OverLimit(g.outcomes, MAX_OUTCOMES) then [TooManyOutcomes] else [])
    + (if OverLimit(g.nodes, MAX_NODES) then [TooManyNodes] else [])
  }

  // All the walk depends on.
  datatype Outline = Outline(key: Option<Text>, children: seq<GraphId>, limits: seq<Finding>)

  type Outlines = map<GraphId, Outline>

  function OutlineOf(g: Graph): Outline {
    Outline(g.key, ChildGraphs(g), LimitFindings(g))
  }

  function OutlinesOf(arena: map<GraphId, Graph>): Outlines {
    map g | g in arena :: OutlineOf(arena[g])
  }

  // Every embedded graph is an object the module holds.
  ghost predicate Closed(o: Outlines) {
    forall g :: g in o ==> forall child :: child in o[g].children ==> child in o
  }

  predicate IsLimit(f: Finding) {
    f in {TooManyNodes, TooManyEdges, TooManyOutcomes}
  }

  ghost predicate OnlyLimits(o: Outlines) {
    forall g :: g in o ==> forall f :: f in o[g].limits ==> IsLimit(f)
  }

  // ----- Containment -----

  // A containment walk: each graph embeds the next.
  ghost predicate Walk(o: Outlines, p: seq<GraphId>) {
    if |p| <= 1 then |p| == 1 && p[0] in o
    else Walk(o, p[..|p| - 1]) && p[|p| - 2] in o && p[|p| - 1] in o[p[|p| - 2]].children && p[|p| - 1] in o
  }

  ghost predicate Leads(o: Outlines, root: GraphId, p: seq<GraphId>, g: GraphId) {
    Walk(o, p) && p[0] == root && p[|p| - 1] == g
  }

  ghost predicate Reaches(o: Outlines, root: GraphId, g: GraphId) {
    exists p :: Leads(o, root, p, g)
  }

  // Some graph reachable from the root contains itself.
  ghost predicate Cyclic(o: Outlines, root: GraphId) {
    exists p, g :: Leads(o, root, p, g) && g in p[..|p| - 1]
  }

  // Two different reachable graphs declare one key.
  ghost predicate SharesKey(o: Outlines, root: GraphId) {
    exists g, h :: SameKey(o, g, h) && Reaches(o, root, g) && Reaches(o, root, h)
  }

  ghost predicate SameKey(o: Outlines, g: GraphId, h: GraphId) {
    g != h && g in o && h in o && o[g].key.Some? && o[g].key == o[h].key
  }

  // More graphs are reachable than the inspection admits.
  ghost predicate TooLarge(o: Outlines, root: GraphId) {
    exists s: set<GraphId> :: |s| > MAX_GRAPHS && AllReached(o, root, s)
  }

  ghost predicate AllReached(o: Outlines, root: GraphId, s: set<GraphId>) {
    forall g :: g in s ==> Reaches(o, root, g)
  }

  ghost predicate ExceedsLimits(o: Outlines, root: GraphId) {
    exists g :: Reaches(o, root, g) && g in o && o[g].limits != []
  }

  lemma LeadsOn(o: Outlines, root: GraphId, p: seq<GraphId>, g: GraphId, child: GraphId)
    requires Leads(o, root, p, g) && g in o && child in o[g].children && child in o
    ensures Leads(o, root, p + [child], child) && Reaches(o, root, child)
  {
    var q := p + [child];
    assert |p| > 0 && q[..|q| - 1] == p && q[|q| - 2] == g;
    assert Walk(o, q);
    assert Leads(o, root, q, child);
  }

  // ----- The walk, as a function -----

  datatype Progress = Progress(
    graphs: seq<GraphId>,
    adjacency: map<GraphId, seq<GraphId>>,
    byKey: map<Text, GraphId>,
    visited: set<GraphId>,
    path: seq<GraphId>,
    hasCycle: bool,
    truncated: bool,
    findings: seq<Finding>,
    // Graphs whose children have all been walked, in the order that happened.
    finished: seq<GraphId>)

  const START := Progress([], map[], map[], {}, [], false, false, [], [])

  function Found(s: Progress, more: seq<Finding>): Progress {
    s.(findings := s.findings + more)
  }

  function NoteKey(s: Progress, g: GraphId, key: Option<Text>): Progress {
    if key.None? then s
    else if key.value !in s.byKey then s.(byKey := s.byKey[key.value := g])
    else if s.byKey[key.value] != g then Found(s, [DuplicateGraphKey])
    else s
  }

  function Enter(s: Progress, g: GraphId, outline: Outline): Progress {
    Progress(s.graphs + [g], s.adjacency[g := outline.children], s.byKey, s.visited + {g}, s.path + [g],
             s.hasCycle, s.truncated, s.findings + outline.limits, s.finished)
  }

  function Leave(s: Progress, path: seq<GraphId>, g: GraphId): Progress {
    s.(path := path, finished := s.finished + [g])
  }

  function Descended(o: Outlines, s: Progress, g: GraphId): (r: Progress)
    requires Closed(o) && g in o && |s.visited| <= MAX_GRAPHS
    ensures s.visited <= r.visited && |s.visited| <= |r.visited| <= MAX_GRAPHS && r.path == s.path
    decreases MAX_GRAPHS - |s.visited|, 0
  {
    if s.truncated then s
    else if g in s.path then Found(s, [RecursiveContainment]).(hasCycle := true)
    else
      var keyed := NoteKey(s, g, o[g].key);
      if g in s.visited then keyed
      else if |s.visited| >= MAX_GRAPHS then Found(keyed, [TooManyGraphs]).(truncated := true)
      else Leave(DescendedAll(o, Enter(keyed, g, o[g]), o[g].children), s.path, g)
  }

  function DescendedAll(o: Outlines, s: Progress, children: seq<GraphId>): (r: Progress)
    requires Closed(o) && (forall g :: g in children ==> g in o) && |s.visited| <= MAX_GRAPHS
    ensures s.visited <= r.visited && |s.visited| <= |r.visited| <= MAX_GRAPHS && r.path == s.path
    decreases MAX_GRAPHS - |s.visited|, 1 + |children|
  {
    if children == [] then s else DescendedAll(o, Descended(o, s, children[0]), children[1..])
  }

  lemma NextChild(o: Outlines, s: Progress, children: seq<GraphId>, i: nat)
    requires Closed(o) && (forall g :: g in children ==> g in o) && |s.visited| <= MAX_GRAPHS && i < |children|
    ensures DescendedAll(o, s, children[i..]) == DescendedAll(o, Descended(o, s, children[i]), children[i + 1..])
  {
    assert children[i..][1..] == children[i + 1..];
  }

  lemma NextId(nodes: Collection<NodeReg>, ids: seq<Text>, i: nat)
    requires i < |ids|
    ensures ChildrenAlong(nodes, ids[..i + 1]) == ChildrenAlong(nodes, ids[..i]) + ChildOf(Get(nodes, ids[i]))
  {
    if i > 0 {
      assert ids[..i + 1][1..] == ids[1..][..i] && ids[..i][1..] == ids[1..][..i - 1];
      NextId(nodes, ids[1..], i - 1);
    }
  }

  // ----- The walk, as it runs -----

  class Inspector {
    const arena: map<GraphId, Graph>
    ghost const outlines: Outlines

    var graphs: seq<GraphId>
    var adjacency: map<GraphId, seq<GraphId>>
    var byKey: map<Text, GraphId>
    var visited: set<GraphId>
    var path: seq<GraphId>
    var hasCycle: bool
    var truncated: bool
    var findings: seq<Finding>

    ghost var finished: seq<GraphId>

    constructor (arena: map<GraphId, Graph>)
      requires Closed(OutlinesOf(arena))
      ensures this.arena == arena && outlines == OutlinesOf(arena) && Valid() && Now() == START
    {
      this.arena, this.outlines := arena, OutlinesOf(arena);
      graphs, adjacency, byKey, visited, path := [], map[], map[], {}, [];
      hasCycle, truncated, findings, finished := false, false, [], [];
    }

    ghost predicate Valid()
      reads this
    {
      && outlines.Keys == arena.Keys && (forall g :: g in arena ==> outlines[g] == OutlineOf(arena[g]))
      && Closed(outlines) && |visited| <= MAX_GRAPHS
    }

    ghost function Now(): Progress
      reads this
    {
      Progress(graphs, adjacency, byKey, visited, path, hasCycle, truncated, findings, finished)
    }

    method Descend(graph: GraphId)
      requires Valid() && graph in arena
      modifies this
      ensures Valid() && Now() == Descended(outlines, old(Now()), graph)
      decreases MAX_GRAPHS - |visited|, 0
    {
      if truncated {
        return;
      }
      if graph in path {
        hasCycle := true;
        findings := findings + [RecursiveContainment];
        return;
      }
      NoteGraphKey(graph);
      if graph in visited {
        return;
      }
      if |visited| >= MAX_GRAPHS {
        truncated := true;
        findings := findings + [TooManyGraphs];
        return;
      }
      var children := EnterGraph(graph);
      DescendEach(children);
      path := path[..|path| - 1];
      finished := finished + [graph];
    }

    method DescendEach(children: seq<GraphId>)
      requires Valid() && forall child :: child in children ==> child in arena
      modifies this
      ensures Valid() && Now() == DescendedAll(outlines, old(Now()), children)
      decreases MAX_GRAPHS - |visited|, 1
    {
      assert children[0..] == children;
      for i := 0 to |children|
        invariant Valid() && old(|visited|) <= |visited|
        invariant DescendedAll(outlines, old(Now()), children) == DescendedAll(outlines, Now(), children[i..])
      {
        NextChild(outlines, Now(), children, i);
        Descend(children[i]);
      }
    }

    method NoteGraphKey(graph: GraphId)
      requires graph in arena
      modifies this`byKey, this`findings
      ensures Now() == NoteKey(old(Now()), graph, arena[graph].key)
    {
      var key := arena[graph].key;
      if key.Some? {
        if key.value !in byKey {
          byKey := byKey[key.value := graph];
        } else if byKey[key.value] != graph {
          findings := findings + [DuplicateGraphKey];
        }
      }
    }

    method EnterGraph(graph: GraphId) returns (children: seq<GraphId>)
      requires Valid() && graph in arena && graph !in visited && |visited| < MAX_GRAPHS
      modifies this
      ensures Valid() && Now() == Enter(old(Now()), graph, outlines[graph])
      ensures children == outlines[graph].children && |visited| == old(|visited|) + 1
    {
      visited := visited + {graph};
      graphs := graphs + [graph];
      var limits;
      children, limits := ChildGraphsOf(arena[graph]);
      findings := findings + limits;
      adjacency := adjacency[graph := children];
      path := path + [graph];
    }
  }

  // The embedded graphs in node-id order, and every limit the graph exceeds.
  method ChildGraphsOf(g: Graph) returns (children: seq<GraphId>, limits: seq<Finding>)
    ensures children == ChildGraphs(g) && limits == LimitFindings(g)
  {
    children, limits := [], [];
    if OverLimit(g.edges, MAX_EDGES) {
      limits := limits + [TooManyEdges];
    }
    if OverLimit(g.outcomes, MAX_OUTCOMES) {
      limits := limits + [TooManyOutcomes];
    }
    if OverLimit(g.nodes, MAX_NODES) {
      limits := limits + [TooManyNodes];
      return;
    }
    var ids := SortedIds(g.nodes);
    for i := 0 to |ids|
      invariant children == ChildrenAlong(g.nodes, ids[..i])
    {
      NextId(g.nodes, ids, i);
      var node := Get(g.nodes, ids[i]);
      if node.Some? && node.value.Subgraph? && node.value.graph.Some? {
        children := children + [node.value.graph.value];
      }
    }
    assert ids[..|ids|] == ids;
  }
}
