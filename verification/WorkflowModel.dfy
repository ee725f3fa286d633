/**
 The plain data the structure inspector reads off an imported workflow module
 (packages/workflow-verifier/src/structure.ts). Nothing here is validated yet: a property that is not
 of the expected type is `None`, and an unrecognized registration is `Unbranded`.
 */
module WorkflowModel {
  import opened Optional
  import opened Sorting

  // Two graphs are the same when they are the same object, whatever keys they declare.
  type GraphId = nat

  // An optional callback (a `label`): absent, a function, or something else.
  datatype Callback = NoCallback | IsFunction | NotAFunction

  datatype NodeReg =
    | Operation(run: bool, caption: Callback, title: Option<Text>, description: Option<Text>)
    | Subgraph(graph: Option<GraphId>, parameters: bool, onResult: bool, caption: Callback,
               title: Option<Text>, description: Option<Text>)
    | Checkpoint(plan: bool, caption: Callback, title: Option<Text>, description: Option<Text>)
    | UnbrandedNode

  // Destinations: not an array, or one whose non-string elements are `None`.
  datatype EdgeReg =
    | Edge(from: Option<Text>, to: Option<seq<Option<Text>>>, choose: bool, title: Option<Text>)
    | UnbrandedEdge

  datatype OutcomeKind = Success | Failure

  datatype OutcomeReg =
    | Outcome(kind: Option<OutcomeKind>, output: bool, reason: Option<Text>, title: Option<Text>)
    | UnbrandedOutcome

  // A branded state field whose reducer is a function, or anything else.
  datatype StateReg = Field | UnusableField

  // Own enumerable properties, in registration order.
  datatype Collection<T> = NotAnObject | Entries(entries: seq<(Text, T)>)

  datatype Graph = Graph(
    key: Option<Text>,
    title: Option<Text>,
    description: Option<Text>,
    init: bool,
    caption: Callback,
    entry: Option<Text>,
    state: Collection<StateReg>,
    nodes: Collection<NodeReg>,
    edges: Collection<EdgeReg>,
    outcomes: Collection<OutcomeReg>)

  const MAX_GRAPHS := 512
  const MAX_NODES := 256
  const MAX_EDGES := 256
  const MAX_OUTCOMES := 64
  const MAX_DEPTH := 64

  predicate OverLimit<T>(c: Collection<T>, allowed: nat) {
    c.Entries? && |c.entries| > allowed
  }

  function Ids<T>(c: Collection<T>): seq<Text> {
    if c.Entries? then Keys(c.entries) else []
  }

  function Keys<T>(entries: seq<(Text, T)>): (keys: seq<Text>)
    ensures |keys| == |entries| && forall i :: 0 <= i < |entries| ==> keys[i] == entries[i].0
  {
    if entries == [] then [] else [entries[0].0] + Keys(entries[1..])
  }

  // An object has one value per property name.
  ghost predicate DistinctKeys<T>(c: Collection<T>) {
    c.Entries? ==> forall i, j :: 0 <= i < j < |c.entries| ==> c.entries[i].0 != c.entries[j].0
  }

  ghost predicate IsObject(g: Graph) {
    DistinctKeys(g.state) && DistinctKeys(g.nodes) && DistinctKeys(g.edges) && DistinctKeys(g.outcomes)
  }

  // The value registered under a name.
  function Find<T>(entries: seq<(Text, T)>, id: Text): Option<T> {
    if entries == [] then None
    else if entries[0].0 == id then Some(entries[0].1)
    else Find(entries[1..], id)
  }

  function Get<T>(c: Collection<T>, id: Text): Option<T> {
    if c.Entries? then Find(c.entries, id) else None
  }

  predicate OverAnyLimit(g: Graph) {
    OverLimit(g.nodes, MAX_NODES) || OverLimit(g.edges, MAX_EDGES) || OverLimit(g.outcomes, MAX_OUTCOMES)
  }
}
