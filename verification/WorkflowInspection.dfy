/**
 Inspecting a whole workflow module: what is accepted, and what is described
 (structure.ts, `describeWorkflowModule`).
 */
module WorkflowInspection {
  import opened Optional
  import opened Sorting
  import opened WorkflowModel
  import opened Containment
  import opened ContainmentFacts
  import opened ContainmentDepth
  import opened GraphRules
  import opened WorkflowDescriptor
  import opened DescriptorMeaning

  // A module's default export: not a workflow of the recognized contract, or one.
  datatype ModuleExport = NotAWorkflow | Workflow(command: bool, parse: bool, placement: Callback,
                                                  graph: Option<GraphId>)

  datatype Verdict = Accepted(descriptor: Descriptor) | Rejected

  ghost predicate GoodGraph(g: Graph) {
    !OverAnyLimit(g) && GoodHeader(g) && GoodBody(g)
  }

  ghost predicate AllGood(arena: map<GraphId, Graph>, root: GraphId) {
    forall g :: Reaches(OutlinesOf(arena), root, g) ==> g in arena && GoodGraph(arena[g])
  }

  ghost predicate ShallowEnough(o: Outlines, root: GraphId) {
    forall p, g :: Leads(o, root, p, g) ==> |p| <= MAX_DEPTH
  }

  // A bounded, acyclic, shallow composition of well-formed, uniquely keyed graphs.
  ghost predicate Sound(arena: map<GraphId, Graph>, root: GraphId) {
    var o := OutlinesOf(arena);
    !Cyclic(o, root) && !TooLarge(o, root) && !SharesKey(o, root) && ShallowEnough(o, root) && AllGood(arena, root)
  }

  // ----- The recorded adjacency has the composition's walks as its chains -----

  lemma {:induction false} WalkFromTheFront(o: Outlines, p: seq<GraphId>)
    requires Closed(o) && |p| > 1
    ensures Walk(o, p) <==> p[0] in o && p[1] in o[p[0]].children && Walk(o, p[1..])
    decreases |p|
  {
    var n := |p|;
    if n > 2 {
      WalkFromTheFront(o, p[..n - 1]);
      assert p[..n - 1][1..] == p[1..][..n - 2];
    }
  }

  ghost predicate Records(o: Outlines, adjacency: Adjacency) {
    forall g :: g in adjacency ==> g in o && adjacency[g] == o[g].children && forall child :: child in adjacency[g] ==>
      child in adjacency
  }

  lemma {:induction false} ChainsAreWalks(o: Outlines, adjacency: Adjacency, p: seq<GraphId>)
    requires Closed(o) && Records(o, adjacency) && p != [] && p[0] in adjacency
    ensures Chain(adjacency, p) <==> Walk(o, p)
    decreases |p|
  {
    if |p| > 1 {
      WalkFromTheFront(o, p);
      if p[1] in adjacency[p[0]] {
        ChainsAreWalks(o, adjacency, p[1..]);
      }
    }
  }

  lemma FinishedRecord(o: Outlines, root: GraphId)
    requires Closed(o) && root in o
    requires var r := Descended(o, START, root); !r.truncated && !r.hasCycle
    ensures var r := Descended(o, START, root);
            Records(o, r.adjacency) && Ranked(r.adjacency, r.finished) && root in r.finished && root in r.adjacency
  {
    var r := Descended(o, START, root);
    DescendedListed(o, START, root);
    DescendedAccounted(o, START, root);
    FinishedIsRanked(o, r);
  }

  lemma FinishedIsRanked(o: Outlines, r: Progress)
    requires Listed(o, r) && Accounted(o, r) && !r.truncated && !r.hasCycle && r.path == []
    ensures Records(o, r.adjacency) && Ranked(r.adjacency, r.finished)
  {
    forall g | g in r.adjacency
      ensures g in o && r.adjacency[g] == o[g].children && forall child :: child in r.adjacency[g] ==>
                child in r.adjacency
    {
      assert g in r.visited && g in r.finished;
    }
    forall i | 0 <= i < |r.finished|
      ensures r.finished[i] in r.adjacency && After(r.adjacency[r.finished[i]], r.finished[..i])
    {
      assert r.finished[i] in r.finished;
      assert r.finished[i] in r.visited;
    }
  }

  /** The measured verdict is the composition's: no chain of the adjacency from the root is too long
      exactly when no containment walk is. */
  lemma ShallowByAdjacency(o: Outlines, root: GraphId)
    requires Closed(o) && root in o
    requires var r := Descended(o, START, root); !r.truncated && !r.hasCycle
    ensures ShallowEnough(o, root) <==>
            forall p :: ChainFrom(Descended(o, START, root).adjacency, root, p) ==> |p| <= MAX_DEPTH
  {
    var a := Descended(o, START, root).adjacency;
    FinishedRecord(o, root);
    forall p | p != [] && p[0] == root ensures Chain(a, p) <==> Walk(o, p) {
      ChainsAreWalks(o, a, p);
    }
    if ShallowEnough(o, root) {
      forall p | ChainFrom(a, root, p) ensures |p| <= MAX_DEPTH {
        assert Leads(o, root, p, p[|p| - 1]);
      }
    } else {
      var p, g :| Leads(o, root, p, g) && |p| > MAX_DEPTH;
      assert ChainFrom(a, root, p);
    }
  }

  // ----- The inspection -----

  lemma LimitFindingsOf(g: Graph)
    ensures LimitFindings(g) == [] <==> !OverAnyLimit(g)
    ensures forall f :: f in LimitFindings(g) ==> IsLimit(f)
  {
  }

  lemma OutlineLimits(arena: map<GraphId, Graph>)
    ensures OnlyLimits(OutlinesOf(arena))
    ensures forall g :: g in arena ==> (OutlinesOf(arena)[g].limits == [] <==> !OverAnyLimit(arena[g]))
  {
    var o := OutlinesOf(arena);
    forall g | g in arena
      ensures (o[g].limits == [] <==> !OverAnyLimit(arena[g])) && forall f :: f in o[g].limits ==> IsLimit(f)
    {
      LimitFindingsOf(arena[g]);
    }
  }

  // Header and body of each graph collected.
  method ValidateAll(arena: map<GraphId, Graph>, graphs: seq<GraphId>) returns (problems: seq<Problem>)
    requires forall g :: g in graphs ==> g in arena
    ensures problems == [] <==>
              forall g :: g in graphs ==> GoodHeader(arena[g]) && (OverAnyLimit(arena[g]) || GoodBody(arena[g]))
  {
    problems := [];
    for i := 0 to |graphs|
      invariant problems == [] <==>
                  forall k :: 0 <= k < i ==>
                    GoodHeader(arena[graphs[k]]) && (OverAnyLimit(arena[graphs[k]]) || GoodBody(arena[graphs[k]]))
    {
      var more := ValidateGraph(arena[graphs[i]]);
      problems := problems + more;
    }
  }

  lemma GoodWhenBounded(arena: map<GraphId, Graph>, root: GraphId, graphs: seq<GraphId>)
    requires forall g :: g in graphs <==> Reaches(OutlinesOf(arena), root, g)
    requires forall g :: g in graphs ==> g in arena
    ensures AllGood(arena, root) <==>
            && !ExceedsLimits(OutlinesOf(arena), root)
            && forall g :: g in graphs ==> GoodHeader(arena[g]) && (OverAnyLimit(arena[g]) || GoodBody(arena[g]))
  {
    OutlineLimits(arena);
  }

  // Everything the verdict is made of.
  lemma SoundWhenSilent(arena: map<GraphId, Graph>, root: GraphId)
    requires Inspectable(arena, root)
    ensures var o := OutlinesOf(arena); var r := Descended(o, START, root);
            Sound(arena, root) <==>
              && r.findings == [] && ShallowEnough(o, root)
              && forall g :: g in r.graphs ==>
                 g in arena && GoodHeader(arena[g]) && (OverAnyLimit(arena[g]) || GoodBody(arena[g]))
  {
    var o := OutlinesOf(arena);
    var r := Descended(o, START, root);
    OutlineLimits(arena);
    SilentExactlyWhenSound(o, root);
    CollectsExactlyTheReachable(o, root);
    CollectedAreKnown(o, root);
    TruncatesExactlyTheTooLarge(o, root);
    if !TooLarge(o, root) {
      GoodWhenBounded(arena, root, r.graphs);
    }
  }

  lemma SilentWalk(o: Outlines, root: GraphId)
    requires Closed(o) && OnlyLimits(o) && root in o
    ensures var r := Descended(o, START, root); r.findings == [] ==> !r.truncated && !r.hasCycle
  {
    DescendedFlagged(o, root, START, root);
  }

  /** A module is accepted exactly when it is a workflow with its callbacks whose composition is sound, and
      then it is described by its canonical descriptor, which says of every reachable graph, and of no other,
      what was registered. */
  method DescribeWorkflowModule(arena: map<GraphId, Graph>, source: ModuleExport) returns (verdict: Verdict)
    requires Closed(OutlinesOf(arena)) && (source.Workflow? && source.graph.Some? ==> source.graph.value in arena)
    ensures verdict.Accepted? <==>
              && source.Workflow? && source.command && source.parse && source.placement != NotAFunction
              && source.graph.Some? && Sound(arena, source.graph.value)
    ensures verdict.Accepted? ==> verdict.descriptor == DescriptorOf(arena, source.graph.value)
    ensures verdict.Accepted? && Objects(arena) ==> Says(arena, source.graph.value, verdict.descriptor)
  {
    if source.NotAWorkflow? || source.graph.None? {
      return Rejected;
    }
    var callbacks := source.command && source.parse && source.placement != NotAFunction;
    var root := source.graph.value;
    var sound, graphs := InspectComposition(arena, root);
    CollectedAreKnown(OutlinesOf(arena), root);
    if !callbacks || !sound {
      return Rejected;
    }
    if Objects(arena) {
      AcceptedIsDescribed(arena, root);
    }
    return Accepted(Descriptor(TextOf(arena[root].key), Sort(DescribeAll(arena, graphs), KeyLe)));
  }

  method InspectComposition(arena: map<GraphId, Graph>, root: GraphId) returns (sound: bool, graphs: seq<GraphId>)
    requires Inspectable(arena, root)
    ensures sound <==> Sound(arena, root)
    ensures graphs == Descended(OutlinesOf(arena), START, root).graphs
  {
    ghost var o := OutlinesOf(arena);
    var inspector := new Inspector(arena);
    inspector.Descend(root);
    graphs := inspector.graphs;
    SoundWhenSilent(arena, root);
    OutlineLimits(arena);
    SilentWalk(o, root);
    CollectedAreKnown(o, root);
    var problems := ValidateAll(arena, graphs);
    var tooDeep := false;
    // A chain has a length only without cycles, and is whole only if the walk was.
    if !inspector.hasCycle && !inspector.truncated {
      tooDeep := IsTooDeep(arena, root, inspector.adjacency, inspector.finished);
    }
    sound := inspector.findings == [] && problems == [] && !tooDeep;
  }

  method IsTooDeep(arena: map<GraphId, Graph>, root: GraphId, adjacency: Adjacency, ghost finished: seq<GraphId>)
    returns (tooDeep: bool)
    requires Inspectable(arena, root)
    requires var r := Descended(OutlinesOf(arena), START, root);
             !r.truncated && !r.hasCycle && adjacency == r.adjacency && finished == r.finished
    ensures tooDeep <==> !ShallowEnough(OutlinesOf(arena), root)
  {
    FinishedRecord(OutlinesOf(arena), root);
    ShallowByAdjacency(OutlinesOf(arena), root);
    var meter := new DepthMeter(adjacency, finished);
    var chain, _ := meter.ValidateContainmentDepth(root);
    tooDeep := chain != [];
  }

  // ----- What the descriptor lists -----

  lemma {:induction false} DescribeAllLists(arena: map<GraphId, Graph>, graphs: seq<GraphId>, d: GraphDescriptor)
    requires forall g :: g in graphs ==> g in arena
    ensures d in DescribeAll(arena, graphs) <==> exists g :: g in graphs && d == DescribeGraph(arena, arena[g])
  {
    if graphs != [] {
      DescribeAllLists(arena, graphs[1..], d);
      assert graphs == [graphs[0]] + graphs[1..];
    }
  }

  lemma SortedByKey(graphs: seq<GraphDescriptor>, d: GraphDescriptor)
    ensures Sorted(Sort(graphs, KeyLe), KeyLe) && (d in Sort(graphs, KeyLe) <==> d in graphs)
  {
    TextOrderIsTotal();
    SortIsSorted(graphs, KeyLe);
    assert d in multiset(Sort(graphs, KeyLe)) <==> d in multiset(graphs);
  }

  lemma CollectedWhenSmall(o: Outlines, root: GraphId)
    requires Closed(o) && OnlyLimits(o) && root in o && !TooLarge(o, root)
    ensures forall g :: g in Descended(o, START, root).graphs <==> Reaches(o, root, g)
    ensures forall g :: g in Descended(o, START, root).graphs ==> g in o
  {
    CollectedAreKnown(o, root);
    CollectsExactlyTheReachable(o, root);
    TruncatesExactlyTheTooLarge(o, root);
  }

  ghost predicate DescribesReachable(arena: map<GraphId, Graph>, root: GraphId, d: GraphDescriptor) {
    exists g :: g in arena && Reaches(OutlinesOf(arena), root, g) && d == DescribeGraph(arena, arena[g])
  }

  /** An accepted module's descriptor holds a description of every reachable graph and of no other, by key. */
  lemma DescriptorListsTheReachable(arena: map<GraphId, Graph>, root: GraphId, d: GraphDescriptor)
    requires Inspectable(arena, root) && Sound(arena, root)
    ensures Sorted(DescriptorOf(arena, root).graphs, KeyLe)
    ensures d in DescriptorOf(arena, root).graphs <==> DescribesReachable(arena, root, d)
  {
    var o := OutlinesOf(arena);
    OutlineLimits(arena);
    CollectedWhenSmall(o, root);
    SortedDescriptionsList(arena, root, Descended(o, START, root).graphs, d);
  }

  lemma SortedDescriptionsList(arena: map<GraphId, Graph>, root: GraphId, graphs: seq<GraphId>, d: GraphDescriptor)
    requires forall g :: g in graphs ==> g in arena
    requires forall g :: g in graphs <==> Reaches(OutlinesOf(arena), root, g)
    ensures Sorted(Sort(DescribeAll(arena, graphs), KeyLe), KeyLe)
    ensures d in Sort(DescribeAll(arena, graphs), KeyLe) <==> DescribesReachable(arena, root, d)
  {
    SortedByKey(DescribeAll(arena, graphs), d);
    DescribeAllLists(arena, graphs, d);
  }

  // ----- What the descriptor says -----

  // Each registry is an object, which has one value per property name.
  ghost predicate Objects(arena: map<GraphId, Graph>) {
    forall g :: g in arena ==> IsObject(arena[g])
  }

  function GraphKeys(ds: seq<GraphDescriptor>): (keys: seq<Text>)
    ensures |keys| == |ds| && forall i :: 0 <= i < |ds| ==> keys[i] == ds[i].key
  {
    seq(|ds|, i requires 0 <= i < |ds| => ds[i].key)
  }

  ghost predicate Reachable(arena: map<GraphId, Graph>, root: GraphId, g: GraphId) {
    g in arena && Reaches(OutlinesOf(arena), root, g)
  }

  ghost predicate KeyReached(arena: map<GraphId, Graph>, root: GraphId, key: Text) {
    exists g :: Reachable(arena, root, g) && arena[g].key == Some(key)
  }

  // The descriptor names the root's key and lists the keys of the reachable graphs, each once and in order,
  // and what it says under a key is what the graph of that key registered.
  ghost predicate Says(arena: map<GraphId, Graph>, root: GraphId, d: Descriptor) {
    && root in arena && arena[root].key == Some(d.rootGraphKey)
    && InOrder(GraphKeys(d.graphs))
    && (forall key :: key in GraphKeys(d.graphs) <==> KeyReached(arena, root, key))
    && (forall i, g :: 0 <= i < |d.graphs| && Reachable(arena, root, g) && arena[g].key == Some(d.graphs[i].key) ==>
          GraphSays(arena, arena[g], d.graphs[i]))
  }

  lemma {:induction false} ChildIsAlong(nodes: Collection<NodeReg>, ids: seq<Text>, id: Text, child: GraphId)
    requires id in ids && ChildOf(Get(nodes, id)) == [child]
    ensures child in ChildrenAlong(nodes, ids)
  {
    if ids[0] != id {
      assert ids == [ids[0]] + ids[1..];
      ChildIsAlong(nodes, ids[1..], id, child);
    }
  }

  lemma EmbeddedIsReached(arena: map<GraphId, Graph>, root: GraphId, g: GraphId, id: Text, node: NodeReg)
    requires Closed(OutlinesOf(arena)) && Objects(arena) && AllGood(arena, root) && Reachable(arena, root, g)
    requires Registered(arena[g].nodes, id, node)
    ensures Embeds(arena, node)
  {
    var o, nodes := OutlinesOf(arena), arena[g].nodes;
    assert GoodGraph(arena[g]);
    var i :| 0 <= i < |nodes.entries| && nodes.entries[i] == (id, node);
    assert GoodNode(nodes.entries[i].1);
    if node.Subgraph? {
      RegisteredIsFound(nodes, id, node);
      SortedIdsList(nodes);
      assert Named(nodes, id);
      ChildIsAlong(nodes, SortedIds(nodes), id, node.graph.value);
      assert node.graph.value in o[g].children;
      var p :| Leads(o, root, p, g);
      LeadsOn(o, root, p, g, node.graph.value);
    }
  }

  lemma ReachableIsDescribed(arena: map<GraphId, Graph>, root: GraphId, g: GraphId)
    requires Closed(OutlinesOf(arena)) && Objects(arena) && AllGood(arena, root) && Reachable(arena, root, g)
    ensures GraphSays(arena, arena[g], DescribeGraph(arena, arena[g]))
  {
    assert GoodGraph(arena[g]);
    forall id, node | Registered(arena[g].nodes, id, node)
      ensures Embeds(arena, node)
    {
      EmbeddedIsReached(arena, root, g, id, node);
    }
    GraphIsDescribed(arena, arena[g]);
  }

  lemma OneGraphPerKey(arena: map<GraphId, Graph>, root: GraphId, g: GraphId, h: GraphId)
    requires Sound(arena, root) && Reachable(arena, root, g) && Reachable(arena, root, h)
    requires arena[g].key == arena[h].key
    ensures g == h
  {
    assert GoodGraph(arena[g]);
    assert g != h ==> SameKey(OutlinesOf(arena), g, h);
  }

  lemma {:induction false} DescribeAllAt(arena: map<GraphId, Graph>, graphs: seq<GraphId>)
    requires forall g :: g in graphs ==> g in arena
    ensures |DescribeAll(arena, graphs)| == |graphs|
    ensures forall i :: 0 <= i < |graphs| ==> DescribeAll(arena, graphs)[i] == DescribeGraph(arena, arena[graphs[i]])
  {
    if graphs != [] {
      DescribeAllAt(arena, graphs[1..]);
    }
  }

  ghost predicate KeysDiffer(ds: seq<GraphDescriptor>) {
    forall i, j :: 0 <= i < j < |ds| ==> ds[i].key != ds[j].key
  }

  // Sorting descriptions with different keys leaves the keys in strict order.
  lemma SortedKeysAreInOrder(ds: seq<GraphDescriptor>)
    requires KeysDiffer(ds)
    ensures InOrder(GraphKeys(Sort(ds, KeyLe)))
  {
    TextOrderIsTotal();
    SortIsSorted(ds, KeyLe);
    var sorted := Sort(ds, KeyLe);
    forall i, j | 0 <= i < j < |sorted|
      ensures sorted[i].key != sorted[j].key
    {
      KeysStayDifferent(ds, sorted, i, j);
    }
    assert forall i, j :: 0 <= i < j < |sorted| ==> KeyLe(sorted[i], sorted[j]);
  }

  lemma KeysStayDifferent(ds: seq<GraphDescriptor>, sorted: seq<GraphDescriptor>, i: nat, j: nat)
    requires KeysDiffer(ds)
    requires multiset(sorted) == multiset(ds) && i < j < |sorted|
    ensures sorted[i].key != sorted[j].key
  {
    assert sorted[i] in multiset(ds) && sorted[j] in multiset(ds);
    var k :| 0 <= k < |ds| && ds[k] == sorted[i];
    var l :| 0 <= l < |ds| && ds[l] == sorted[j];
    CountedOnce(ds, sorted[i]);
    if sorted[i] == sorted[j] {
      CountedTwice(sorted, i, j);
    }
  }

  // Reachable graphs, each once.
  ghost predicate CollectedAlong(arena: map<GraphId, Graph>, root: GraphId, graphs: seq<GraphId>) {
    && (forall g :: g in graphs ==> Reachable(arena, root, g))
    && forall i, j :: 0 <= i < j < |graphs| ==> graphs[i] != graphs[j]
  }

  lemma CollectedKeysDiffer(arena: map<GraphId, Graph>, root: GraphId, graphs: seq<GraphId>)
    requires Sound(arena, root) && forall g :: g in graphs ==> g in arena
    requires CollectedAlong(arena, root, graphs)
    ensures KeysDiffer(DescribeAll(arena, graphs))
  {
    var ds := DescribeAll(arena, graphs);
    DescribeAllAt(arena, graphs);
    forall i, j | 0 <= i < j < |ds|
      ensures ds[i].key != ds[j].key
    {
      assert Reachable(arena, root, graphs[i]) && Reachable(arena, root, graphs[j]);
      assert GoodGraph(arena[graphs[i]]) && GoodGraph(arena[graphs[j]]);
      if ds[i].key == ds[j].key {
        OneGraphPerKey(arena, root, graphs[i], graphs[j]);
      }
    }
  }

  lemma DescribedKeys(arena: map<GraphId, Graph>, root: GraphId, key: Text)
    requires Inspectable(arena, root) && Sound(arena, root)
    ensures key in GraphKeys(DescriptorOf(arena, root).graphs) <==> KeyReached(arena, root, key)
  {
    var ds := DescriptorOf(arena, root).graphs;
    if key in GraphKeys(ds) {
      var i :| 0 <= i < |ds| && GraphKeys(ds)[i] == key;
      DescriptorListsTheReachable(arena, root, ds[i]);
      var g :| g in arena && Reaches(OutlinesOf(arena), root, g) && ds[i] == DescribeGraph(arena, arena[g]);
      assert Reachable(arena, root, g) && GoodGraph(arena[g]);
    }
    if g :| Reachable(arena, root, g) && arena[g].key == Some(key) {
      var d := DescribeGraph(arena, arena[g]);
      assert DescribesReachable(arena, root, d);
      DescriptorListsTheReachable(arena, root, d);
      var i :| 0 <= i < |ds| && ds[i] == d;
      assert GraphKeys(ds)[i] == key;
    }
  }

  lemma DescribedUnderItsKey(arena: map<GraphId, Graph>, root: GraphId, i: nat, g: GraphId)
    requires Inspectable(arena, root) && Sound(arena, root) && Objects(arena)
    requires i < |DescriptorOf(arena, root).graphs| && Reachable(arena, root, g)
    requires arena[g].key == Some(DescriptorOf(arena, root).graphs[i].key)
    ensures GraphSays(arena, arena[g], DescriptorOf(arena, root).graphs[i])
  {
    var d := DescriptorOf(arena, root).graphs[i];
    DescriptorListsTheReachable(arena, root, d);
    var h :| h in arena && Reaches(OutlinesOf(arena), root, h) && d == DescribeGraph(arena, arena[h]);
    assert Reachable(arena, root, h) && GoodGraph(arena[h]);
    OneGraphPerKey(arena, root, g, h);
    ReachableIsDescribed(arena, root, g);
  }

  lemma CollectedOnce(arena: map<GraphId, Graph>, root: GraphId)
    requires Inspectable(arena, root)
    ensures var graphs := Descended(OutlinesOf(arena), START, root).graphs;
            (forall g :: g in graphs ==> g in arena) && CollectedAlong(arena, root, graphs)
  {
    CollectedAreKnown(OutlinesOf(arena), root);
    CollectsExactlyTheReachable(OutlinesOf(arena), root);
  }

  lemma KeysAreInOrder(arena: map<GraphId, Graph>, root: GraphId)
    requires Inspectable(arena, root) && Sound(arena, root)
    ensures InOrder(GraphKeys(DescriptorOf(arena, root).graphs))
  {
    var graphs := Descended(OutlinesOf(arena), START, root).graphs;
    CollectedOnce(arena, root);
    CollectedKeysDiffer(arena, root, graphs);
    SortedKeysAreInOrder(DescribeAll(arena, graphs));
  }

  /** The descriptor of a sound module says what was registered. */
  lemma AcceptedIsDescribed(arena: map<GraphId, Graph>, root: GraphId)
    requires Inspectable(arena, root) && Sound(arena, root) && Objects(arena)
    ensures Says(arena, root, DescriptorOf(arena, root))
  {
    var d := DescriptorOf(arena, root);
    RootIsGood(arena, root);
    KeysAreInOrder(arena, root);
    forall key
      ensures key in GraphKeys(d.graphs) <==> KeyReached(arena, root, key)
    {
      DescribedKeys(arena, root, key);
    }
    forall i, g | 0 <= i < |d.graphs| && Reachable(arena, root, g) && arena[g].key == Some(d.graphs[i].key)
      ensures GraphSays(arena, arena[g], d.graphs[i])
    {
      DescribedUnderItsKey(arena, root, i, g);
    }
  }

  lemma RootIsGood(arena: map<GraphId, Graph>, root: GraphId)
    requires root in arena && Sound(arena, root)
    ensures GoodGraph(arena[root])
  {
    assert Leads(OutlinesOf(arena), root, [root], root);
  }

  // The reachable graph of the other module with the same key, alike in everything that is described.
  ghost predicate Corresponds(a: map<GraphId, Graph>, g: GraphId, b: map<GraphId, Graph>, bRoot: GraphId, h: GraphId)
    requires g in a
  {
    Reachable(b, bRoot, h) && b[h].key == a[g].key && AlikeGraphs(a, a[g], b, b[h])
  }

  lemma SameKeyIsAlike(a: map<GraphId, Graph>, aRoot: GraphId, b: map<GraphId, Graph>, bRoot: GraphId,
                       d: Descriptor, g: GraphId, h: GraphId)
    requires Says(a, aRoot, d) && Says(b, bRoot, d) && Reachable(a, aRoot, g) && a[g].key.Some?
    requires Reachable(b, bRoot, h) && b[h].key == a[g].key
    ensures AlikeGraphs(a, a[g], b, b[h])
  {
    assert KeyReached(a, aRoot, a[g].key.value);
    var i :| 0 <= i < |d.graphs| && GraphKeys(d.graphs)[i] == a[g].key.value;
    OneDescriptionIsAlike(a, a[g], b, b[h], d.graphs[i]);
  }

  lemma KeyIsReachedToo(a: map<GraphId, Graph>, aRoot: GraphId, b: map<GraphId, Graph>, bRoot: GraphId,
                        d: Descriptor, g: GraphId) returns (h: GraphId)
    requires Says(a, aRoot, d) && Says(b, bRoot, d) && Reachable(a, aRoot, g) && a[g].key.Some?
    ensures Reachable(b, bRoot, h) && b[h].key == a[g].key
  {
    var key := a[g].key.value;
    assert KeyReached(a, aRoot, key);
    assert key in GraphKeys(d.graphs);
    assert KeyReached(b, bRoot, key);
    h :| Reachable(b, bRoot, h) && b[h].key == Some(key);
  }

  /** Modules with one descriptor have the same described structure: every reachable graph of one corresponds
      to exactly one of the other, the roots to each other, and corresponding graphs are alike. */
  lemma DescriptorDeterminesStructure(a: map<GraphId, Graph>, aRoot: GraphId, b: map<GraphId, Graph>, bRoot: GraphId,
                                      d: Descriptor, g: GraphId) returns (h: GraphId)
    requires Sound(a, aRoot) && Says(a, aRoot, d) && Sound(b, bRoot) && Says(b, bRoot, d)
    requires Reachable(a, aRoot, g)
    ensures Corresponds(a, g, b, bRoot, h)
    ensures forall k :: Corresponds(a, g, b, bRoot, k) ==> k == h
    ensures g == aRoot ==> h == bRoot
  {
    ReachableHasKey(a, aRoot, g);
    h := KeyIsReachedToo(a, aRoot, b, bRoot, d, g);
    SameKeyIsAlike(a, aRoot, b, bRoot, d, g, h);
    forall k | Corresponds(a, g, b, bRoot, k)
      ensures k == h
    {
      OneGraphPerKey(b, bRoot, h, k);
    }
    if g == aRoot {
      RootIsReachable(b, bRoot);
      OneGraphPerKey(b, bRoot, h, bRoot);
    }
  }

  lemma ReachableHasKey(arena: map<GraphId, Graph>, root: GraphId, g: GraphId)
    requires Sound(arena, root) && Reachable(arena, root, g)
    ensures arena[g].key.Some?
  {
    assert GoodGraph(arena[g]);
  }

  lemma RootIsReachable(arena: map<GraphId, Graph>, root: GraphId)
    requires root in arena
    ensures Reachable(arena, root, root)
  {
    assert Leads(OutlinesOf(arena), root, [root], root);
  }
}
