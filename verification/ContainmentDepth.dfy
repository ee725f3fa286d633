/** Nesting depth, measured from the recorded adjacency (structure.ts, `validateContainmentDepth`). */
module ContainmentDepth {
  import opened Optional
  import opened WorkflowModel
  import opened ContainmentFacts

  type Adjacency = map<GraphId, seq<GraphId>>

  // The relation the depth is measured over: acyclic, witnessed by an order listing children first.
  ghost predicate Ranked(adjacency: Adjacency, order: seq<GraphId>) {
    forall i :: 0 <= i < |order| ==> order[i] in adjacency && After(adjacency[order[i]], order[..i])
  }

  // The children of a graph, which come earlier in the order.
  lemma ChildrenComeFirst(adjacency: Adjacency, order: seq<GraphId>, g: GraphId, child: GraphId)
    requires Ranked(adjacency, order) && g in order && child in adjacency[g]
    ensures child in order && Position(order, child) < Position(order, g)
  {
    var i := Position(order, g);
    assert After(adjacency[order[i]], order[..i]);
    var j :| 0 <= j < i && order[j] == child;
    assert Position(order, child) <= j;
  }

  // ----- Depth, as the longest chain -----

  // A containment chain: each graph lists the next among its children.
  ghost predicate Chain(adjacency: Adjacency, p: seq<GraphId>) {
    && p != [] && p[0] in adjacency
    && (|p| > 1 ==> p[1] in adjacency[p[0]] && Chain(adjacency, p[1..]))
  }

  ghost predicate ChainFrom(adjacency: Adjacency, g: GraphId, p: seq<GraphId>) {
    Chain(adjacency, p) && p[0] == g
  }

  // The longest chain from a graph, counted in graphs and including it.
  ghost predicate IsDepth(adjacency: Adjacency, g: GraphId, depth: nat) {
    && (exists p :: ChainFrom(adjacency, g, p) && |p| == depth)
    && (forall p :: ChainFrom(adjacency, g, p) ==> |p| <= depth)
  }

  // The deepest of some children.
  ghost predicate IsDeepest(adjacency: Adjacency, children: seq<GraphId>, depth: nat) {
    && (children == [] ==> depth == 0)
    && (children != [] ==> exists child :: child in children && IsDepth(adjacency, child, depth))
    && (forall child, p :: child in children && ChainFrom(adjacency, child, p) ==> |p| <= depth)
  }

  lemma DepthIsUnique(adjacency: Adjacency, g: GraphId, a: nat, b: nat)
    requires IsDepth(adjacency, g, a) && IsDepth(adjacency, g, b)
    ensures a == b
  {
  }

  lemma DeeperByOne(adjacency: Adjacency, g: GraphId, depth: nat)
    requires g in adjacency && IsDeepest(adjacency, adjacency[g], depth)
    ensures IsDepth(adjacency, g, depth + 1)
  {
    if adjacency[g] == [] {
      assert ChainFrom(adjacency, g, [g]);
    } else {
      var child :| child in adjacency[g] && IsDepth(adjacency, child, depth);
      var p :| ChainFrom(adjacency, child, p) && |p| == depth;
      assert ([g] + p)[1..] == p;
      assert ChainFrom(adjacency, g, [g] + p);
    }
    forall p | ChainFrom(adjacency, g, p) ensures |p| <= depth + 1 {
      if |p| > 1 {
        assert p[1] in adjacency[g] && ChainFrom(adjacency, p[1], p[1..]);
      }
    }
  }

  lemma DeeperChild(adjacency: Adjacency, children: seq<GraphId>, i: nat, deepest: nat, depth: nat)
    requires i < |children| && IsDeepest(adjacency, children[..i], deepest) && IsDepth(adjacency, children[i], depth)
    requires depth > 0
    ensures IsDeepest(adjacency, children[..i + 1], if deepest < depth then depth else deepest)
  {
    assert children[..i + 1] == children[..i] + [children[i]];
    if deepest < depth {
      assert children[i] in children[..i + 1];
    } else {
      var child :| child in children[..i] && IsDepth(adjacency, child, deepest);
      assert child in children[..i + 1];
    }
    forall child, p | child in children[..i + 1] && ChainFrom(adjacency, child, p)
      ensures |p| <= if deepest < depth then depth else deepest
    {
      assert child in children[..i] || child == children[i];
    }
  }

  /** Neither the order in which children were registered nor sharing among them changes a depth. */
  lemma {:induction false} ChainsIgnoreChildOrder(a: Adjacency, b: Adjacency, p: seq<GraphId>)
    requires a.Keys == b.Keys && forall g :: g in a ==> forall child :: child in a[g] <==> child in b[g]
    ensures Chain(a, p) <==> Chain(b, p)
    decreases |p|
  {
    if |p| > 1 {
      ChainsIgnoreChildOrder(a, b, p[1..]);
    }
  }

  lemma DepthIgnoresChildOrder(a: Adjacency, b: Adjacency, g: GraphId, depth: nat)
    requires a.Keys == b.Keys && forall g :: g in a ==> forall child :: child in a[g] <==> child in b[g]
    ensures IsDepth(a, g, depth) <==> IsDepth(b, g, depth)
  {
    forall p ensures ChainFrom(a, g, p) <==> ChainFrom(b, g, p) {
      ChainsIgnoreChildOrder(a, b, p);
    }
  }

  // ----- The memoized measurement -----

  class DepthMeter {
    const adjacency: Adjacency
    ghost const order: seq<GraphId>
    var depths: map<GraphId, nat>

    constructor (adjacency: Adjacency, ghost order: seq<GraphId>)
      requires Ranked(adjacency, order)
      ensures this.adjacency == adjacency && this.order == order && Valid()
    {
      this.adjacency, this.order, depths := adjacency, order, map[];
    }

    ghost predicate Valid()
      reads this
    {
      Ranked(adjacency, order) && forall g :: g in depths ==> IsDepth(adjacency, g, depths[g])
    }

    method DepthOf(graph: GraphId) returns (depth: nat)
      requires Valid() && graph in order
      modifies this`depths
      ensures Valid() && IsDepth(adjacency, graph, depth) && depth > 0
      decreases Position(order, graph)
    {
      if graph in depths {
        depth := depths[graph];
        assert ChainFrom(adjacency, graph, [graph]);
        return;
      }
      var children := adjacency[graph];
      var deepest: nat := 0;
      for i := 0 to |children|
        invariant Valid() && IsDeepest(adjacency, children[..i], deepest)
      {
        ChildrenComeFirst(adjacency, order, graph, children[i]);
        var d := DepthOf(children[i]);
        DeeperChild(adjacency, children, i, deepest, d);
        deepest := if deepest < d then d else deepest;
      }
      assert children[..|children|] == children;
      DeeperByOne(adjacency, graph, deepest);
      depth := deepest + 1;
      depths := depths[graph := depth];
    }

    // The first child of greatest depth.
    method DeepestChild(graph: GraphId) returns (child: Option<GraphId>)
      requires Valid() && graph in order
      modifies this`depths
      ensures Valid() && (child.None? <==> adjacency[graph] == [])
      ensures child.Some? ==>
                && child.value in adjacency[graph] && child.value in order
                && Position(order, child.value) < Position(order, graph)
                && forall d: nat :: IsDepth(adjacency, graph, d + 1) ==> IsDepth(adjacency, child.value, d)
    {
      var children := adjacency[graph];
      child := None;
      var deepest: nat := 0;
      for i := 0 to |children|
        invariant Valid() && IsDeepest(adjacency, children[..i], deepest)
        invariant child.None? <==> i == 0
        invariant child.Some? ==> child.value in children && IsDepth(adjacency, child.value, deepest) && deepest > 0
      {
        ChildrenComeFirst(adjacency, order, graph, children[i]);
        var d := DepthOf(children[i]);
        DeeperChild(adjacency, children, i, deepest, d);
        if child.None? || deepest < d {
          child, deepest := Some(children[i]), d;
        }
      }
      if child.Some? {
        assert children[..|children|] == children;
        DeeperByOne(adjacency, graph, deepest);
        ChildrenComeFirst(adjacency, order, graph, child.value);
        forall d: nat | IsDepth(adjacency, graph, d + 1) ensures IsDepth(adjacency, child.value, d) {
          DepthIsUnique(adjacency, graph, d + 1, deepest + 1);
        }
      }
    }

    /** Accepted exactly when no chain from the root is longer than the limit. A rejected root comes with
        a longest chain, naming exactly as many graphs as the depth reported. */
    method ValidateContainmentDepth(root: GraphId) returns (chain: seq<GraphId>, depth: nat)
      requires Valid() && root in order
      modifies this`depths
      ensures Valid() && IsDepth(adjacency, root, depth)
      ensures chain == [] <==> forall p :: ChainFrom(adjacency, root, p) ==> |p| <= MAX_DEPTH
      ensures chain != [] ==> ChainFrom(adjacency, root, chain) && |chain| == depth
    {
      chain := [];
      depth := DepthOf(root);
      if depth > MAX_DEPTH {
        chain := NameChain(root, depth);
      }
    }

    method NameChain(root: GraphId, ghost depth: nat) returns (chain: seq<GraphId>)
      requires Valid() && root in order && IsDepth(adjacency, root, depth)
      modifies this`depths
      ensures Valid() && ChainFrom(adjacency, root, chain) && |chain| == depth
    {
      chain := [];
      var current := Some(root);
      ghost var left := depth;
      assert Leading(adjacency, root, chain, current) by {
        assert forall p: seq<GraphId> :: [] + p == p;
      }
      assert ChainFrom(adjacency, root, [root]);
      while current.Some?
        invariant Valid() && |chain| + left == depth && (left == 0 <==> current.None?)
        invariant current.Some? ==> current.value in order && IsDepth(adjacency, current.value, left)
        invariant Leading(adjacency, root, chain, current)
        decreases if current.Some? then Position(order, current.value) + 1 else 0
      {
        var graph := current.value;
        chain := chain + [graph];
        current := DeepestChild(graph);
        LeadingOn(adjacency, root, chain[..|chain| - 1], graph, current);
        LeafIsOneDeep(adjacency, graph, left);
        left := left - 1;
        if current.Some? {
          assert ChainFrom(adjacency, current.value, [current.value]);
        }
      }
    }
  }

  lemma LeafIsOneDeep(adjacency: Adjacency, g: GraphId, depth: nat)
    requires g in adjacency && IsDepth(adjacency, g, depth)
    ensures depth > 0 && (adjacency[g] == [] ==> depth == 1)
  {
    assert ChainFrom(adjacency, g, [g]);
    if adjacency[g] == [] {
      DeeperByOne(adjacency, g, 0);
      DepthIsUnique(adjacency, g, depth, 1);
    }
  }

  // Any chain from `next` extends the names collected so far to a chain from the root.
  ghost predicate Leading(adjacency: Adjacency, root: GraphId, names: seq<GraphId>, next: Option<GraphId>) {
    if next.None? then ChainFrom(adjacency, root, names)
    else forall p :: ChainFrom(adjacency, next.value, p) ==> ChainFrom(adjacency, root, names + p)
  }

  lemma LeadingOn(adjacency: Adjacency, root: GraphId, names: seq<GraphId>, graph: GraphId, next: Option<GraphId>)
    requires Leading(adjacency, root, names, Some(graph)) && graph in adjacency
    requires next.Some? ==> next.value in adjacency[graph]
    ensures Leading(adjacency, root, names + [graph], next)
  {
    if next.None? {
      assert ChainFrom(adjacency, graph, [graph]);
    } else {
      forall p | ChainFrom(adjacency, next.value, p) ensures ChainFrom(adjacency, root, names + [graph] + p) {
        assert ([graph] + p)[1..] == p && ChainFrom(adjacency, graph, [graph] + p);
        assert names + [graph] + p == names + ([graph] + p);
      }
    }
  }
}
