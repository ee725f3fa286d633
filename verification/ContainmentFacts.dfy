/** What the containment walk establishes, whatever graph it is given. */
module ContainmentFacts {
  import opened Optional
  import opened Sorting
  import opened WorkflowModel
  import opened Containment

  // ----- The walk stays on walks from the root -----

  ghost predicate OnWalk(o: Outlines, root: GraphId, s: Progress) {
    |s.visited| <= MAX_GRAPHS && PathLeads(o, root, s.path, s.visited) && Reached(o, root, s.visited)
  }

  ghost predicate PathLeads(o: Outlines, root: GraphId, path: seq<GraphId>, visited: set<GraphId>) {
    && (path != [] ==> Leads(o, root, path, path[|path| - 1]))
    && (forall g :: g in path ==> g in visited)
  }

  ghost predicate Reached(o: Outlines, root: GraphId, visited: set<GraphId>) {
    forall g :: g in visited ==> g in o && Reaches(o, root, g)
  }

  // A graph is entered as the root, or from the graph that embeds it.
  ghost predicate Entering(o: Outlines, root: GraphId, path: seq<GraphId>, g: GraphId) {
    g in o && if path == [] then g == root else path[|path| - 1] in o && g in o[path[|path| - 1]].children
  }

  ghost predicate EnteringEach(o: Outlines, root: GraphId, path: seq<GraphId>, children: seq<GraphId>) {
    path != [] && forall g :: g in children ==> Entering(o, root, path, g)
  }

  lemma FirstAndRest(o: Outlines, root: GraphId, path: seq<GraphId>, children: seq<GraphId>)
    requires EnteringEach(o, root, path, children) && children != []
    ensures Entering(o, root, path, children[0]) && EnteringEach(o, root, path, children[1..])
  {
    assert children[0] in children;
  }

  lemma EnteringLeads(o: Outlines, root: GraphId, s: Progress, g: GraphId)
    requires OnWalk(o, root, s) && Entering(o, root, s.path, g)
    ensures Leads(o, root, s.path + [g], g) && Reaches(o, root, g)
  {
    if s.path == [] {
      assert Leads(o, root, [root], root) && s.path + [g] == [root];
    } else {
      LeadsOn(o, root, s.path, s.path[|s.path| - 1], g);
    }
  }

  // What entering a new graph leaves: the walk one graph longer.
  function Entered(o: Outlines, s: Progress, g: GraphId): (r: Progress)
    requires g in o
    ensures r.path == s.path + [g] && r.visited == s.visited + {g} && r.finished == s.finished
    ensures r.hasCycle == s.hasCycle && r.truncated == s.truncated
  {
    Enter(NoteKey(s, g, o[g].key), g, o[g])
  }

  predicate IsNew(s: Progress, g: GraphId) {
    !s.truncated && g !in s.path && g !in s.visited && |s.visited| < MAX_GRAPHS
  }

  lemma DescendedNew(o: Outlines, s: Progress, g: GraphId)
    requires Closed(o) && g in o && IsNew(s, g)
    ensures |Entered(o, s, g).visited| == |s.visited| + 1
    ensures var below := DescendedAll(o, Entered(o, s, g), o[g].children);
            below.path == s.path + [g] && s.visited <= below.visited && Descended(o, s, g) == Leave(below, s.path, g)
  {
  }

  lemma EnteredOnWalk(o: Outlines, root: GraphId, s: Progress, g: GraphId)
    requires Closed(o) && OnWalk(o, root, s) && Entering(o, root, s.path, g) && IsNew(s, g)
    ensures OnWalk(o, root, Entered(o, s, g)) && EnteringEach(o, root, Entered(o, s, g).path, o[g].children)
  {
    EnteringLeads(o, root, s, g);
    PathFurther(o, root, s.path, s.visited, g);
    ReachedFurther(o, root, s.visited, g);
    ChildrenEnter(o, root, s.path, g);
  }

  lemma PathFurther(o: Outlines, root: GraphId, path: seq<GraphId>, visited: set<GraphId>, g: GraphId)
    requires PathLeads(o, root, path, visited) && Leads(o, root, path + [g], g)
    ensures PathLeads(o, root, path + [g], visited + {g})
  {
  }

  lemma ReachedFurther(o: Outlines, root: GraphId, visited: set<GraphId>, g: GraphId)
    requires Reached(o, root, visited) && g in o && Reaches(o, root, g)
    ensures Reached(o, root, visited + {g})
  {
  }

  lemma ChildrenEnter(o: Outlines, root: GraphId, path: seq<GraphId>, g: GraphId)
    requires Closed(o) && g in o
    ensures EnteringEach(o, root, path + [g], o[g].children)
  {
  }

  lemma {:induction false} DescendedOnWalk(o: Outlines, root: GraphId, s: Progress, g: GraphId)
    requires Closed(o) && OnWalk(o, root, s) && Entering(o, root, s.path, g)
    ensures OnWalk(o, root, Descended(o, s, g))
    decreases MAX_GRAPHS - |s.visited|, 0
  {
    if IsNew(s, g) {
      EnteredOnWalk(o, root, s, g);
      DescendedNew(o, s, g);
      DescendedAllOnWalk(o, root, Entered(o, s, g), o[g].children);
    }
  }

  lemma {:induction false} DescendedAllOnWalk(o: Outlines, root: GraphId, s: Progress, children: seq<GraphId>)
    requires Closed(o) && OnWalk(o, root, s) && EnteringEach(o, root, s.path, children)
    ensures OnWalk(o, root, DescendedAll(o, s, children))
    decreases MAX_GRAPHS - |s.visited|, 1 + |children|
  {
    if children != [] {
      FirstAndRest(o, root, s.path, children);
      DescendedOnWalk(o, root, s, children[0]);
      DescendedAllOnWalk(o, root, Descended(o, s, children[0]), children[1..]);
    }
  }

  // ----- Nothing recorded is ever taken back -----

  ghost predicate Grows(s: Progress, r: Progress) {
    && s.finished <= r.finished && s.findings <= r.findings
    && (s.hasCycle ==> r.hasCycle) && (s.truncated ==> r.truncated)
  }

  lemma GrowsOn(a: Progress, b: Progress, c: Progress)
    requires Grows(a, b) && Grows(b, c)
    ensures Grows(a, c)
  {
  }

  lemma StepsGrow(o: Outlines, s: Progress, g: GraphId)
    requires g in o
    ensures Grows(s, Entered(o, s, g)) && Grows(s, NoteKey(s, g, o[g].key))
  {
  }

  lemma {:induction false} DescendedGrows(o: Outlines, s: Progress, g: GraphId)
    requires Closed(o) && g in o && |s.visited| <= MAX_GRAPHS
    ensures Grows(s, Descended(o, s, g))
    decreases MAX_GRAPHS - |s.visited|, 0
  {
    StepsGrow(o, s, g);
    if IsNew(s, g) {
      DescendedNew(o, s, g);
      var entered := Entered(o, s, g);
      var below := DescendedAll(o, entered, o[g].children);
      DescendedAllGrows(o, entered, o[g].children);
      GrowsOn(s, entered, below);
      GrowsOn(s, below, Leave(below, s.path, g));
    }
  }

  lemma {:induction false} DescendedAllGrows(o: Outlines, s: Progress, children: seq<GraphId>)
    requires Closed(o) && (forall g :: g in children ==> g in o) && |s.visited| <= MAX_GRAPHS
    ensures Grows(s, DescendedAll(o, s, children))
    decreases MAX_GRAPHS - |s.visited|, 1 + |children|
  {
    if children != [] {
      var next := Descended(o, s, children[0]);
      DescendedGrows(o, s, children[0]);
      DescendedAllGrows(o, next, children[1..]);
      GrowsOn(s, next, DescendedAll(o, next, children[1..]));
    }
  }

  // ----- Each graph is recorded once, with its children -----

  ghost predicate ListedOnce(graphs: seq<GraphId>, visited: set<GraphId>) {
    && |graphs| == |visited|
    && (forall i :: 0 <= i < |graphs| ==> graphs[i] in visited)
    && (forall i, j :: 0 <= i < j < |graphs| ==> graphs[i] != graphs[j])
  }

  ghost predicate Adjacent(o: Outlines, adjacency: map<GraphId, seq<GraphId>>, visited: set<GraphId>) {
    adjacency.Keys == visited && forall g :: g in adjacency ==> g in o && adjacency[g] == o[g].children
  }

  ghost predicate Listed(o: Outlines, s: Progress) {
    ListedOnce(s.graphs, s.visited) && Adjacent(o, s.adjacency, s.visited)
  }

  lemma ListedOneMore(graphs: seq<GraphId>, visited: set<GraphId>, g: GraphId)
    requires ListedOnce(graphs, visited) && g !in visited
    ensures ListedOnce(graphs + [g], visited + {g})
  {
  }

  lemma EnteredListed(o: Outlines, s: Progress, g: GraphId)
    requires g in o && IsNew(s, g) && Listed(o, s)
    ensures Listed(o, Entered(o, s, g))
  {
    ListedOneMore(s.graphs, s.visited, g);
    assert Adjacent(o, s.adjacency[g := o[g].children], s.visited + {g});
  }

  lemma {:induction false} DescendedListed(o: Outlines, s: Progress, g: GraphId)
    requires Closed(o) && g in o && |s.visited| <= MAX_GRAPHS && Listed(o, s)
    ensures Listed(o, Descended(o, s, g))
    decreases MAX_GRAPHS - |s.visited|, 0
  {
    if IsNew(s, g) {
      EnteredListed(o, s, g);
      DescendedNew(o, s, g);
      DescendedAllListed(o, Entered(o, s, g), o[g].children);
    }
  }

  lemma {:induction false} DescendedAllListed(o: Outlines, s: Progress, children: seq<GraphId>)
    requires Closed(o) && (forall g :: g in children ==> g in o) && |s.visited| <= MAX_GRAPHS && Listed(o, s)
    ensures Listed(o, DescendedAll(o, s, children))
    decreases MAX_GRAPHS - |s.visited|, 1 + |children|
  {
    if children != [] {
      DescendedListed(o, s, children[0]);
      DescendedAllListed(o, Descended(o, s, children[0]), children[1..]);
    }
  }

  // ----- Finishing order -----

  // Every graph comes after all the graphs it embeds.
  ghost predicate Topological(o: Outlines, order: seq<GraphId>) {
    forall i :: 0 <= i < |order| ==> order[i] in o && After(o[order[i]].children, order[..i])
  }

  ghost predicate After(children: seq<GraphId>, earlier: seq<GraphId>) {
    forall child :: child in children ==> child in earlier
  }

  // Until truncated, a visited graph is still on the path or finished, and a finished graph's children
  // are visited; until a cycle is met, they are finished before it.
  ghost predicate Accounted(o: Outlines, s: Progress) {
    && Walked(o, s.visited, s.path, s.finished)
    && (!s.truncated ==> Complete(o, s.visited, s.path, s.finished))
    && (!s.truncated && !s.hasCycle ==> Topological(o, s.finished))
  }

  ghost predicate Walked(o: Outlines, visited: set<GraphId>, path: seq<GraphId>, finished: seq<GraphId>) {
    && (forall g :: g in finished ==> g in visited && g in o && g !in path)
    && (forall g :: g in path ==> g in visited)
  }

  ghost predicate Complete(o: Outlines, visited: set<GraphId>, path: seq<GraphId>, finished: seq<GraphId>) {
    && (forall g :: g in visited ==> g in path || g in finished)
    && (forall g :: g in finished && g in o ==> forall child :: child in o[g].children ==> child in visited)
  }

  lemma {:induction false} DescendedAccounted(o: Outlines, s: Progress, g: GraphId)
    requires Closed(o) && g in o && |s.visited| <= MAX_GRAPHS && Accounted(o, s)
    ensures Accounted(o, Descended(o, s, g))
    ensures var r := Descended(o, s, g);
            !r.truncated ==> g in r.visited && (!r.hasCycle ==> g in r.finished)
    decreases MAX_GRAPHS - |s.visited|, 0
  {
    if IsNew(s, g) {
      DescendedNew(o, s, g);
      DescendedAllAccounted(o, Entered(o, s, g), o[g].children);
      LeftAccounted(o, DescendedAll(o, Entered(o, s, g), o[g].children), s.path, g);
    }
  }

  lemma LeftAccounted(o: Outlines, s: Progress, path: seq<GraphId>, g: GraphId)
    requires Accounted(o, s) && s.path == path + [g] && g !in path && g in o
    requires !s.truncated ==> forall child :: child in o[g].children ==> child in s.visited
    requires !s.truncated && !s.hasCycle ==> After(o[g].children, s.finished)
    ensures Accounted(o, Leave(s, path, g))
  {
    if !s.truncated && !s.hasCycle {
      TopologicalFurther(o, s.finished, g);
    }
  }

  lemma TopologicalFurther(o: Outlines, order: seq<GraphId>, g: GraphId)
    requires Topological(o, order) && g in o && After(o[g].children, order)
    ensures Topological(o, order + [g])
  {
    assert (order + [g])[..|order|] == order;
    assert forall i :: 0 <= i < |order| ==> (order + [g])[..i] == order[..i];
  }

  lemma {:induction false} DescendedAllAccounted(o: Outlines, s: Progress, children: seq<GraphId>)
    requires Closed(o) && (forall g :: g in children ==> g in o) && |s.visited| <= MAX_GRAPHS && Accounted(o, s)
    ensures var r := DescendedAll(o, s, children);
            && Accounted(o, r)
            && (!r.truncated ==> forall g :: g in children ==> g in r.visited && (!r.hasCycle ==> g in r.finished))
    decreases MAX_GRAPHS - |s.visited|, 1 + |children|
  {
    if children != [] {
      var next := Descended(o, s, children[0]);
      DescendedAccounted(o, s, children[0]);
      DescendedAllAccounted(o, next, children[1..]);
      DescendedAllGrows(o, next, children[1..]);
      assert children == [children[0]] + children[1..];
    }
  }

  // ----- Keys -----

  ghost predicate Keyed(o: Outlines, root: GraphId, s: Progress) {
    && (forall k :: k in s.byKey ==> s.byKey[k] in o && o[s.byKey[k]].key == Some(k) && Reaches(o, root, s.byKey[k]))
    && (DuplicateGraphKey !in s.findings ==> forall g :: g in s.visited ==> g in o && HoldsKey(o[g].key, s.byKey, g))
    && (DuplicateGraphKey in s.findings ==> SharesKey(o, root))
  }

  ghost predicate HoldsKey(key: Option<Text>, byKey: map<Text, GraphId>, g: GraphId) {
    key.Some? ==> key.value in byKey && byKey[key.value] == g
  }

  lemma NotedKey(o: Outlines, root: GraphId, s: Progress, g: GraphId)
    requires Keyed(o, root, s) && g in o && Reaches(o, root, g)
    ensures var r := NoteKey(s, g, o[g].key);
            Keyed(o, root, r) && (DuplicateGraphKey !in r.findings ==> HoldsKey(o[g].key, r.byKey, g))
  {
    var key := o[g].key;
    if key.Some? && key.value in s.byKey && s.byKey[key.value] != g {
      assert SameKey(o, s.byKey[key.value], g);
    }
  }

  lemma EnteredKeyed(o: Outlines, root: GraphId, s: Progress, g: GraphId)
    requires g in o && OnlyLimits(o) && Keyed(o, root, s) && Reaches(o, root, g)
    ensures Keyed(o, root, Entered(o, s, g))
  {
    NotedKey(o, root, s, g);
    assert DuplicateGraphKey !in o[g].limits;
  }

  lemma {:induction false} DescendedKeyed(o: Outlines, root: GraphId, s: Progress, g: GraphId)
    requires Closed(o) && OnlyLimits(o) && OnWalk(o, root, s) && Entering(o, root, s.path, g) && Keyed(o, root, s)
    ensures Keyed(o, root, Descended(o, s, g))
    decreases MAX_GRAPHS - |s.visited|, 0
  {
    if !s.truncated && g !in s.path {
      EnteringLeads(o, root, s, g);
      NotedKey(o, root, s, g);
      if IsNew(s, g) {
        EnteredKeyed(o, root, s, g);
        EnteredOnWalk(o, root, s, g);
        DescendedNew(o, s, g);
        DescendedAllKeyed(o, root, Entered(o, s, g), o[g].children);
      }
    }
  }

  lemma {:induction false} DescendedAllKeyed(o: Outlines, root: GraphId, s: Progress, children: seq<GraphId>)
    requires Closed(o) && OnlyLimits(o) && OnWalk(o, root, s) && EnteringEach(o, root, s.path, children)
             && Keyed(o, root, s)
    ensures Keyed(o, root, DescendedAll(o, s, children))
    decreases MAX_GRAPHS - |s.visited|, 1 + |children|
  {
    if children != [] {
      FirstAndRest(o, root, s.path, children);
      DescendedOnWalk(o, root, s, children[0]);
      DescendedKeyed(o, root, s, children[0]);
      DescendedAllKeyed(o, root, Descended(o, s, children[0]), children[1..]);
    }
  }

  // ----- Cycles and truncation -----

  ghost predicate Flagged(o: Outlines, root: GraphId, s: Progress) {
    && (s.hasCycle ==> Cyclic(o, root))
    && (s.hasCycle <==> RecursiveContainment in s.findings)
    && (s.truncated <==> TooManyGraphs in s.findings)
    && (s.truncated ==> TooLarge(o, root))
  }

  lemma MeetsItself(o: Outlines, root: GraphId, s: Progress, g: GraphId)
    requires OnWalk(o, root, s) && Entering(o, root, s.path, g) && g in s.path
    ensures Cyclic(o, root)
  {
    EnteringLeads(o, root, s, g);
    var p := s.path + [g];
    assert Leads(o, root, p, g) && g in p[..|p| - 1];
  }

  lemma OneTooMany(o: Outlines, root: GraphId, s: Progress, g: GraphId)
    requires OnWalk(o, root, s) && Entering(o, root, s.path, g) && g !in s.visited && |s.visited| >= MAX_GRAPHS
    ensures TooLarge(o, root)
  {
    EnteringLeads(o, root, s, g);
    var discovered := s.visited + {g};
    assert |discovered| > MAX_GRAPHS && AllReached(o, root, discovered);
  }

  lemma EnteredFlagged(o: Outlines, root: GraphId, s: Progress, g: GraphId)
    requires g in o && OnlyLimits(o) && Flagged(o, root, s)
    ensures Flagged(o, root, Entered(o, s, g))
  {
    assert RecursiveContainment !in o[g].limits && TooManyGraphs !in o[g].limits;
  }

  lemma NotedFlagged(o: Outlines, root: GraphId, s: Progress, g: GraphId)
    requires g in o && Flagged(o, root, s)
    ensures Flagged(o, root, NoteKey(s, g, o[g].key))
  {
  }

  // Stopping at a graph that is on the path, or one too many, is flagged with its cause.
  lemma StopIsFlagged(o: Outlines, root: GraphId, s: Progress)
    requires Flagged(o, root, s)
    ensures Cyclic(o, root) ==> Flagged(o, root, Found(s, [RecursiveContainment]).(hasCycle := true))
    ensures TooLarge(o, root) ==> Flagged(o, root, Found(s, [TooManyGraphs]).(truncated := true))
  {
  }

  lemma {:induction false} DescendedFlagged(o: Outlines, root: GraphId, s: Progress, g: GraphId)
    requires Closed(o) && OnlyLimits(o) && OnWalk(o, root, s) && Entering(o, root, s.path, g) && Flagged(o, root, s)
    ensures Flagged(o, root, Descended(o, s, g))
    decreases MAX_GRAPHS - |s.visited|, 0
  {
    NotedFlagged(o, root, s, g);
    if s.truncated {
    } else if g in s.path {
      MeetsItself(o, root, s, g);
      StopIsFlagged(o, root, s);
    } else if IsNew(s, g) {
      EnteredFlagged(o, root, s, g);
      EnteredOnWalk(o, root, s, g);
      DescendedNew(o, s, g);
      DescendedAllFlagged(o, root, Entered(o, s, g), o[g].children);
    } else if g !in s.visited {
      OneTooMany(o, root, s, g);
      StopIsFlagged(o, root, NoteKey(s, g, o[g].key));
    }
  }

  lemma {:induction false} DescendedAllFlagged(o: Outlines, root: GraphId, s: Progress, children: seq<GraphId>)
    requires Closed(o) && OnlyLimits(o) && OnWalk(o, root, s) && EnteringEach(o, root, s.path, children)
             && Flagged(o, root, s)
    ensures Flagged(o, root, DescendedAll(o, s, children))
    decreases MAX_GRAPHS - |s.visited|, 1 + |children|
  {
    if children != [] {
      FirstAndRest(o, root, s.path, children);
      DescendedOnWalk(o, root, s, children[0]);
      DescendedFlagged(o, root, s, children[0]);
      DescendedAllFlagged(o, root, Descended(o, s, children[0]), children[1..]);
    }
  }

  // ----- Registration limits -----

  ghost predicate Bounded(o: Outlines, root: GraphId, s: Progress) {
    && (forall g :: g in s.visited ==> g in o && forall f :: f in o[g].limits ==> f in s.findings)
    && (forall f :: f in s.findings && IsLimit(f) ==> ExceedsLimits(o, root))
  }

  lemma EnteredBounded(o: Outlines, root: GraphId, s: Progress, g: GraphId)
    requires g in o && Reaches(o, root, g) && Bounded(o, root, s)
    ensures Bounded(o, root, Entered(o, s, g))
  {
    var r := Entered(o, s, g);
    forall f | f in r.findings && IsLimit(f) ensures ExceedsLimits(o, root) {
      assert f in s.findings || f in o[g].limits || f == DuplicateGraphKey;
    }
  }

  lemma FoundBounded(o: Outlines, root: GraphId, s: Progress, f: Finding)
    requires Bounded(o, root, s) && !IsLimit(f)
    ensures Bounded(o, root, Found(s, [f]))
  {
  }

  lemma {:induction false} DescendedBounded(o: Outlines, root: GraphId, s: Progress, g: GraphId)
    requires Closed(o) && OnWalk(o, root, s) && Entering(o, root, s.path, g) && Bounded(o, root, s)
    ensures Bounded(o, root, Descended(o, s, g))
    decreases MAX_GRAPHS - |s.visited|, 0
  {
    FoundBounded(o, root, s, RecursiveContainment);
    FoundBounded(o, root, s, DuplicateGraphKey);
    FoundBounded(o, root, NoteKey(s, g, o[g].key), TooManyGraphs);
    if IsNew(s, g) {
      EnteringLeads(o, root, s, g);
      EnteredBounded(o, root, s, g);
      EnteredOnWalk(o, root, s, g);
      DescendedNew(o, s, g);
      DescendedAllBounded(o, root, Entered(o, s, g), o[g].children);
    }
  }

  lemma {:induction false} DescendedAllBounded(o: Outlines, root: GraphId, s: Progress, children: seq<GraphId>)
    requires Closed(o) && OnWalk(o, root, s) && EnteringEach(o, root, s.path, children) && Bounded(o, root, s)
    ensures Bounded(o, root, DescendedAll(o, s, children))
    decreases MAX_GRAPHS - |s.visited|, 1 + |children|
  {
    if children != [] {
      FirstAndRest(o, root, s.path, children);
      DescendedOnWalk(o, root, s, children[0]);
      DescendedBounded(o, root, s, children[0]);
      DescendedAllBounded(o, root, Descended(o, s, children[0]), children[1..]);
    }
  }

  // ----- What the whole walk establishes -----

  lemma {:induction false} WalksStayVisited(o: Outlines, root: GraphId, s: Progress, p: seq<GraphId>, g: GraphId)
    requires Accounted(o, s) && !s.truncated && s.path == [] && root in s.visited && Leads(o, root, p, g)
    ensures g in s.visited
    decreases |p|
  {
    if |p| > 1 {
      WalksStayVisited(o, root, s, p[..|p| - 1], p[|p| - 2]);
    }
  }

  /** Inspection visits exactly the reachable graphs, each once, unless it was truncated. */
  lemma CollectsExactlyTheReachable(o: Outlines, root: GraphId)
    requires Closed(o) && root in o
    ensures var r := Descended(o, START, root);
            && (forall i, j :: 0 <= i < j < |r.graphs| ==> r.graphs[i] != r.graphs[j])
            && (forall g :: g in r.graphs <==> g in r.visited)
            && (forall g :: g in r.visited ==>
                  Reaches(o, root, g) && g in r.adjacency && r.adjacency[g] == o[g].children)
            && (!r.truncated ==> forall g :: Reaches(o, root, g) ==> g in r.visited)
  {
    var r := Descended(o, START, root);
    DescendedOnWalk(o, root, START, root);
    DescendedListed(o, START, root);
    DescendedAccounted(o, START, root);
    DistinctCovers(r.graphs, r.visited);
    if !r.truncated {
      forall g | Reaches(o, root, g) ensures g in r.visited {
        var p :| Leads(o, root, p, g);
        WalksStayVisited(o, root, r, p, g);
      }
    }
  }

  lemma {:induction false} DistinctCovers(s: seq<GraphId>, elements: set<GraphId>)
    requires forall i :: 0 <= i < |s| ==> s[i] in elements
    requires forall i, j :: 0 <= i < j < |s| ==> s[i] != s[j]
    requires |s| == |elements|
    ensures forall g :: g in s <==> g in elements
  {
    if s != [] {
      var last := s[|s| - 1];
      DistinctCovers(s[..|s| - 1], elements - {last});
      assert s == s[..|s| - 1] + [last];
    }
  }

  // First place of a graph in an order.
  function Position(order: seq<GraphId>, g: GraphId): (i: nat)
    requires g in order
    ensures i < |order| && order[i] == g && g !in order[..i]
  {
    if order[0] == g then 0
    else
      var i := Position(order[1..], g) + 1;
      assert order[..i] == [order[0]] + order[1..][..i - 1];
      i
  }

  lemma {:induction false} WalksDescend(o: Outlines, order: seq<GraphId>, p: seq<GraphId>, k: nat)
    requires Topological(o, order) && Walk(o, p) && p[0] in order && k < |p|
    ensures p[|p| - 1] in order && p[k] in order
    ensures k < |p| - 1 ==> Position(order, p[|p| - 1]) < Position(order, p[k])
    decreases |p|
  {
    if |p| > 1 {
      var init := p[..|p| - 1];
      WalksDescend(o, order, init, if k < |init| then k else 0);
      var i := Position(order, p[|p| - 2]);
      assert After(o[order[i]].children, order[..i]);
      var j :| 0 <= j < i && order[j] == p[|p| - 1];
      assert Position(order, p[|p| - 1]) <= j;
    }
  }

  lemma TopologicalIsAcyclic(o: Outlines, root: GraphId, order: seq<GraphId>)
    requires Topological(o, order) && root in order
    ensures !Cyclic(o, root)
  {
    if Cyclic(o, root) {
      var p, g :| Leads(o, root, p, g) && g in p[..|p| - 1];
      var k :| 0 <= k < |p| - 1 && p[k] == g;
      WalksDescend(o, order, p, k);
      assert false;
    }
  }

  /** A cycle is reported only if the relation has a reachable one, and always, unless truncated. */
  lemma ReportsExactlyTheCyclic(o: Outlines, root: GraphId)
    requires Closed(o) && OnlyLimits(o) && root in o
    ensures var r := Descended(o, START, root);
            (r.hasCycle ==> Cyclic(o, root)) && (!r.truncated && Cyclic(o, root) ==> r.hasCycle)
  {
    var r := Descended(o, START, root);
    DescendedFlagged(o, root, START, root);
    DescendedAccounted(o, START, root);
    if !r.truncated && !r.hasCycle {
      TopologicalIsAcyclic(o, root, r.finished);
    }
  }

  lemma SubsetIsSmaller(a: set<GraphId>, b: set<GraphId>)
    requires a <= b
    ensures |a| <= |b|
  {
    assert b == a + (b - a);
  }

  /** Inspection is truncated exactly when more graphs are reachable than the limit. */
  lemma TruncatesExactlyTheTooLarge(o: Outlines, root: GraphId)
    requires Closed(o) && OnlyLimits(o) && root in o
    ensures Descended(o, START, root).truncated <==> TooLarge(o, root)
  {
    var r := Descended(o, START, root);
    DescendedFlagged(o, root, START, root);
    CollectsExactlyTheReachable(o, root);
    if !r.truncated && TooLarge(o, root) {
      var s: set<GraphId> :| |s| > MAX_GRAPHS && AllReached(o, root, s);
      SubsetIsSmaller(s, r.visited);
      assert false;
    }
  }

  lemma KeysAreShared(o: Outlines, root: GraphId)
    requires Closed(o) && OnlyLimits(o) && root in o && !Descended(o, START, root).truncated
    ensures DuplicateGraphKey in Descended(o, START, root).findings <==> SharesKey(o, root)
  {
    var r := Descended(o, START, root);
    DescendedKeyed(o, root, START, root);
    CollectsExactlyTheReachable(o, root);
    if SharesKey(o, root) {
      var g, h :| SameKey(o, g, h) && Reaches(o, root, g) && Reaches(o, root, h);
      assert HoldsKey(o[g].key, r.byKey, g) && HoldsKey(o[h].key, r.byKey, h) ==> g == h;
    }
  }

  lemma FindingsHaveCauses(o: Outlines, root: GraphId)
    requires Closed(o) && OnlyLimits(o) && root in o && Descended(o, START, root).findings != []
    ensures Cyclic(o, root) || TooLarge(o, root) || SharesKey(o, root) || ExceedsLimits(o, root)
  {
    DescendedFlagged(o, root, START, root);
    DescendedBounded(o, root, START, root);
    DescendedKeyed(o, root, START, root);
    CauseOf(o, root, Descended(o, START, root), Descended(o, START, root).findings[0]);
  }

  lemma CauseOf(o: Outlines, root: GraphId, s: Progress, f: Finding)
    requires Flagged(o, root, s) && Bounded(o, root, s) && Keyed(o, root, s) && f in s.findings
    ensures Cyclic(o, root) || TooLarge(o, root) || SharesKey(o, root) || ExceedsLimits(o, root)
  {
    match f
    case DuplicateGraphKey =>
    case RecursiveContainment =>
    case TooManyGraphs =>
    case _ => assert IsLimit(f);
  }

  lemma CausesHaveFindings(o: Outlines, root: GraphId)
    requires Closed(o) && OnlyLimits(o) && root in o && Descended(o, START, root).findings == []
    ensures !Cyclic(o, root) && !TooLarge(o, root) && !SharesKey(o, root) && !ExceedsLimits(o, root)
  {
    var r := Descended(o, START, root);
    DescendedFlagged(o, root, START, root);
    TruncatesExactlyTheTooLarge(o, root);
    ReportsExactlyTheCyclic(o, root);
    KeysAreShared(o, root);
    NoLimitExceeded(o, root);
  }

  lemma LimitsAreFound(o: Outlines, root: GraphId, s: Progress, g: GraphId)
    requires Bounded(o, root, s) && g in s.visited && g in o && o[g].limits != []
    ensures s.findings != []
  {
    assert o[g].limits[0] in s.findings;
  }

  lemma NoLimitExceeded(o: Outlines, root: GraphId)
    requires Closed(o) && root in o
    requires Descended(o, START, root).findings == [] && !Descended(o, START, root).truncated
    ensures !ExceedsLimits(o, root)
  {
    DescendedBounded(o, root, START, root);
    CollectsExactlyTheReachable(o, root);
    var r := Descended(o, START, root);
    forall g | Reaches(o, root, g) && g in o ensures o[g].limits == [] {
      if o[g].limits != [] {
        LimitsAreFound(o, root, r, g);
        assert false;
      }
    }
  }

  /** The walk finds nothing exactly when the composition is acyclic, small enough, uniquely keyed, and
      within every graph's registration limits. */
  lemma SilentExactlyWhenSound(o: Outlines, root: GraphId)
    requires Closed(o) && OnlyLimits(o) && root in o
    ensures Descended(o, START, root).findings == [] <==>
            !Cyclic(o, root) && !TooLarge(o, root) && !SharesKey(o, root) && !ExceedsLimits(o, root)
  {
    if Descended(o, START, root).findings == [] {
      CausesHaveFindings(o, root);
    } else {
      FindingsHaveCauses(o, root);
    }
  }
}
