/**
 The turn edges an agent's lifecycle yields, and how failures stick to them
 (apps/runtime/src/harnesses/lifecycle.ts and observer-state.ts).
 */
module TurnEdges {
  import opened Optional
  import opened Sorting

  type SessionId = nat
  type Stamp = nat

  datatype Reason = SessionDied | HarnessError | NewStartSupersedes

  datatype Edge =
    | TurnStarted(session: SessionId, seqNo: nat, at: Stamp)
    | TurnEnded(session: SessionId, seqNo: nat, at: Stamp)
    | TurnFailed(session: SessionId, seqOrNull: Option<nat>, at: Stamp, reason: Reason)

  datatype ActiveTurn = ActiveTurn(seqNo: nat, at: Stamp, incarnation: Option<nat>)

  // What a harness's reducer retains: the open turn, and every terminal edge.
  datatype Lifecycle = Lifecycle(active: Option<ActiveTurn>, terminals: seq<Edge>)

  function SeqOf(e: Edge): Option<nat> {
    if e.TurnFailed? then e.seqOrNull else Some(e.seqNo)
  }

  function Starts(edges: seq<Edge>): seq<Edge> {
    if edges == [] then []
    else Starts(edges[..|edges| - 1]) + if edges[|edges| - 1].TurnStarted? then [edges[|edges| - 1]] else []
  }

  // The terminal edges of one turn.
  function TerminalsAt(edges: seq<Edge>, n: Option<nat>): seq<Edge> {
    if edges == [] then []
    else
      var last := edges[|edges| - 1];
      TerminalsAt(edges[..|edges| - 1], n) + if !last.TurnStarted? && SeqOf(last) == n then [last] else []
  }

  lemma {:induction false} StartsConcat(a: seq<Edge>, b: seq<Edge>)
    ensures Starts(a + b) == Starts(a) + Starts(b)
    decreases |b|
  {
    if b == [] {
      assert a + b == a;
    } else {
      StartsConcat(a, b[..|b| - 1]);
      assert (a + b)[..|a + b| - 1] == a + b[..|b| - 1];
    }
  }

  lemma {:induction false} TerminalsConcat(a: seq<Edge>, b: seq<Edge>, n: Option<nat>)
    ensures TerminalsAt(a + b, n) == TerminalsAt(a, n) + TerminalsAt(b, n)
    decreases |b|
  {
    if b == [] {
      assert a + b == a;
    } else {
      TerminalsConcat(a, b[..|b| - 1], n);
      assert (a + b)[..|a + b| - 1] == a + b[..|b| - 1];
    }
  }

  // ----- From a lifecycle to paired edges -----

  // One turn: when it opened, if that is known, and how it ended, if it did.
  datatype Turn = Turn(seqNo: nat, start: Option<Stamp>, terminal: Option<Edge>)

  function TerminalTurns(terminals: seq<Edge>, openings: nat -> Option<Stamp>): seq<Turn> {
    if terminals == [] then []
    else
      var last := terminals[|terminals| - 1];
      TerminalTurns(terminals[..|terminals| - 1], openings)
      + match SeqOf(last)
        case Some(n) => [Turn(n, openings(n), Some(last))]
        case None => []
  }

  function TurnsOf(lifecycle: Lifecycle, openings: nat -> Option<Stamp>): seq<Turn> {
    TerminalTurns(lifecycle.terminals, openings)
    + match lifecycle.active
      case Some(active) => [Turn(active.seqNo, Some(active.at), None)]
      case None => []
  }

  predicate TurnLe(a: Turn, b: Turn) {
    a.seqNo <= b.seqNo
  }

  function EdgesOf(turn: Turn): seq<Edge> {
    (if turn.start.Some? then [TurnStarted(0, turn.seqNo, turn.start.value)] else [])
    + if turn.terminal.Some? then [turn.terminal.value] else []
  }

  function EdgesOfAll(turns: seq<Turn>): seq<Edge> {
    if turns == [] then [] else EdgesOfAll(turns[..|turns| - 1]) + EdgesOf(turns[|turns| - 1])
  }

  method LifecycleTurnEdges(lifecycle: Lifecycle, openings: nat -> Option<Stamp>) returns (edges: seq<Edge>)
    ensures edges == EdgesOfAll(Sort(TurnsOf(lifecycle, openings), TurnLe))
    ensures Distinct(lifecycle) ==> Paired(lifecycle, openings, edges)
  {
    var turns := CollectTurns(lifecycle, openings);
    edges := PairEdges(Sort(turns, TurnLe));
    if Distinct(lifecycle) {
      LifecycleIsPaired(lifecycle, openings);
    }
  }

  method CollectTurns(lifecycle: Lifecycle, openings: nat -> Option<Stamp>) returns (turns: seq<Turn>)
    ensures turns == TurnsOf(lifecycle, openings)
  {
    turns := [];
    for i := 0 to |lifecycle.terminals|
      invariant turns == TerminalTurns(lifecycle.terminals[..i], openings)
    {
      assert lifecycle.terminals[..i + 1][..i] == lifecycle.terminals[..i];
      var terminal := lifecycle.terminals[i];
      var n := SeqOf(terminal);
      if n.Some? {
        turns := turns + [Turn(n.value, openings(n.value), Some(terminal))];
      }
    }
    assert lifecycle.terminals[..|lifecycle.terminals|] == lifecycle.terminals;
    if lifecycle.active.Some? {
      turns := turns + [Turn(lifecycle.active.value.seqNo, Some(lifecycle.active.value.at), None)];
    }
  }

  method PairEdges(turns: seq<Turn>) returns (edges: seq<Edge>)
    ensures edges == EdgesOfAll(turns)
  {
    edges := [];
    for i := 0 to |turns|
      invariant edges == EdgesOfAll(turns[..i])
    {
      assert turns[..i + 1][..i] == turns[..i];
      var start := turns[i].start;
      if start.None? {
        edges := edges + if turns[i].terminal.Some? then [turns[i].terminal.value] else [];
      } else {
        var opening := TurnStarted(0, turns[i].seqNo, start.value);
        edges := edges + if turns[i].terminal.Some? then [opening, turns[i].terminal.value] else [opening];
      }
    }
    assert turns[..|turns|] == turns;
  }

  // A reducer reports one terminal edge per turn, and never an open turn it has closed.
  ghost predicate Distinct(lifecycle: Lifecycle) {
    && (forall i :: 0 <= i < |lifecycle.terminals| ==> !lifecycle.terminals[i].TurnStarted?)
    && (forall i, j :: 0 <= i < j < |lifecycle.terminals| && SeqOf(lifecycle.terminals[i]).Some? ==>
          SeqOf(lifecycle.terminals[i]) != SeqOf(lifecycle.terminals[j]))
    && (lifecycle.active.Some? ==> forall i :: 0 <= i < |lifecycle.terminals| ==>
          SeqOf(lifecycle.terminals[i]) != Some(lifecycle.active.value.seqNo))
  }

  ghost predicate DistinctTurns(turns: seq<Turn>) {
    forall i, j :: 0 <= i < j < |turns| ==> turns[i].seqNo != turns[j].seqNo
  }

  ghost predicate Consistent(turns: seq<Turn>) {
    forall i :: 0 <= i < |turns| && turns[i].terminal.Some? ==>
      !turns[i].terminal.value.TurnStarted? && SeqOf(turns[i].terminal.value) == Some(turns[i].seqNo)
  }

  ghost predicate HasSeq(terminals: seq<Edge>, n: nat) {
    exists i :: 0 <= i < |terminals| && SeqOf(terminals[i]) == Some(n)
  }

  lemma HasSeqFurther(terminals: seq<Edge>, n: nat)
    requires terminals != []
    ensures HasSeq(terminals, n) <==>
              HasSeq(terminals[..|terminals| - 1], n) || SeqOf(terminals[|terminals| - 1]) == Some(n)
  {
    var k := |terminals| - 1;
    if HasSeq(terminals[..k], n) {
      var i :| 0 <= i < |terminals[..k]| && SeqOf(terminals[..k][i]) == Some(n);
      assert SeqOf(terminals[i]) == Some(n);
    }
    if HasSeq(terminals, n) {
      var i :| 0 <= i < |terminals| && SeqOf(terminals[i]) == Some(n);
      assert i < k ==> SeqOf(terminals[..k][i]) == Some(n);
    }
  }

  // Every turn is a terminal's.
  ghost predicate FromTerminals(turns: seq<Turn>, terminals: seq<Edge>) {
    forall i :: 0 <= i < |turns| ==> HasSeq(terminals, turns[i].seqNo)
  }

  lemma {:induction false} TerminalTurnsAreDistinct(terminals: seq<Edge>, openings: nat -> Option<Stamp>)
    requires forall i :: 0 <= i < |terminals| ==> !terminals[i].TurnStarted?
    requires forall i, j :: 0 <= i < j < |terminals| && SeqOf(terminals[i]).Some? ==>
               SeqOf(terminals[i]) != SeqOf(terminals[j])
    ensures var turns := TerminalTurns(terminals, openings);
            DistinctTurns(turns) && Consistent(turns) && FromTerminals(turns, terminals)
  {
    if terminals != [] {
      var n := |terminals| - 1;
      var init := TerminalTurns(terminals[..n], openings);
      TerminalTurnsAreDistinct(terminals[..n], openings);
      forall i | 0 <= i < |init|
        ensures HasSeq(terminals, init[i].seqNo) && SeqOf(terminals[n]) != Some(init[i].seqNo)
      {
        HasSeqFurther(terminals, init[i].seqNo);
        var k :| 0 <= k < n && SeqOf(terminals[..n][k]) == Some(init[i].seqNo);
        assert SeqOf(terminals[k]) != SeqOf(terminals[n]);
      }
      if SeqOf(terminals[n]).Some? {
        HasSeqFurther(terminals, SeqOf(terminals[n]).value);
      }
    }
  }

  lemma TurnsAreDistinct(lifecycle: Lifecycle, openings: nat -> Option<Stamp>)
    requires Distinct(lifecycle)
    ensures DistinctTurns(TurnsOf(lifecycle, openings)) && Consistent(TurnsOf(lifecycle, openings))
  {
    TerminalTurnsAreDistinct(lifecycle.terminals, openings);
    var init := TerminalTurns(lifecycle.terminals, openings);
    forall i | 0 <= i < |init| && lifecycle.active.Some? ensures init[i].seqNo != lifecycle.active.value.seqNo {
      var k :| 0 <= k < |lifecycle.terminals| && SeqOf(lifecycle.terminals[k]) == Some(init[i].seqNo);
    }
  }

  // The turn of one sequence number, if there is one.
  ghost predicate TurnAt(turns: seq<Turn>, n: nat, turn: Turn) {
    turn in turns && turn.seqNo == n
  }

  lemma {:induction false} NoTurnNoTerminal(turns: seq<Turn>, n: nat)
    requires Consistent(turns) && forall i :: 0 <= i < |turns| ==> turns[i].seqNo != n
    ensures TerminalsAt(EdgesOfAll(turns), Some(n)) == []
  {
    if turns != [] {
      var k := |turns| - 1;
      NoTurnNoTerminal(turns[..k], n);
      TerminalsConcat(EdgesOfAll(turns[..k]), EdgesOf(turns[k]), Some(n));
      OneTurnsTerminals(turns[k], n);
    }
  }

  lemma {:induction false} TerminalsOfTurn(turns: seq<Turn>, i: nat)
    requires DistinctTurns(turns) && Consistent(turns) && i < |turns|
    ensures TerminalsAt(EdgesOfAll(turns), Some(turns[i].seqNo)) == if turns[i].terminal.Some?
            then [turns[i].terminal.value] else []
  {
    var k, n := |turns| - 1, turns[i].seqNo;
    TerminalsConcat(EdgesOfAll(turns[..k]), EdgesOf(turns[k]), Some(n));
    OneTurnsTerminals(turns[k], n);
    if i < k {
      TerminalsOfTurn(turns[..k], i);
    } else {
      NoTurnNoTerminal(turns[..k], n);
    }
  }

  lemma OneTurnsTerminals(turn: Turn, n: nat)
    requires turn.terminal.Some? ==> !turn.terminal.value.TurnStarted? && SeqOf(turn.terminal.value) == Some(turn.seqNo)
    ensures TerminalsAt(EdgesOf(turn), Some(n)) == if turn.seqNo == n && turn.terminal.Some? then [turn.terminal.value]
            else []
  {
    var start := if turn.start.Some? then [TurnStarted(0, turn.seqNo, turn.start.value)] else [];
    var end := if turn.terminal.Some? then [turn.terminal.value] else [];
    TerminalsConcat(start, end, Some(n));
  }

  lemma {:induction false} InsertKeepsTurns(x: Turn, turns: seq<Turn>)
    requires DistinctTurns(turns) && Consistent([x] + turns) && forall i :: 0 <= i < |turns| ==>
               turns[i].seqNo != x.seqNo
    ensures var r := Insert(x, turns, TurnLe);
            DistinctTurns(r) && Consistent(r) && forall t :: t in r <==> t == x || t in turns
  {
    if turns != [] && !TurnLe(x, turns[0]) {
      assert forall i :: 0 <= i < |[x] + turns[1..]| ==> ([x] + turns[1..])[i] in [x] + turns;
      ConsistentMembers([x] + turns, [x] + turns[1..]);
      InsertKeepsTurns(x, turns[1..]);
      var rest := Insert(x, turns[1..], TurnLe);
      forall i | 0 <= i < |rest| ensures rest[i].seqNo != turns[0].seqNo {
        assert rest[i] in rest;
      }
      assert turns == [turns[0]] + turns[1..];
      assert ([x] + turns)[1] == turns[0];
    }
  }

  lemma ConsistentMembers(turns: seq<Turn>, some: seq<Turn>)
    requires Consistent(turns) && forall i :: 0 <= i < |some| ==> some[i] in turns
    ensures Consistent(some)
  {
  }

  lemma {:induction false} SortKeepsTurns(turns: seq<Turn>)
    requires DistinctTurns(turns) && Consistent(turns)
    ensures DistinctTurns(Sort(turns, TurnLe)) && Consistent(Sort(turns, TurnLe))
    ensures forall t :: t in Sort(turns, TurnLe) <==> t in turns
  {
    if turns != [] {
      var rest := Sort(turns[1..], TurnLe);
      SortKeepsTurns(turns[1..]);
      assert turns == [turns[0]] + turns[1..];
      forall i | 0 <= i < |rest| ensures rest[i].seqNo != turns[0].seqNo && rest[i] in turns {
        assert rest[i] in turns[1..];
      }
      ConsistentMembers(turns, [turns[0]] + rest);
      InsertKeepsTurns(turns[0], rest);
    }
  }

  /** Every terminal the reducer reports for a turn is that turn's one terminal edge, and an open turn has none. */
  lemma EachTurnEndsOnce(lifecycle: Lifecycle, openings: nat -> Option<Stamp>, n: nat)
    requires Distinct(lifecycle)
    ensures var edges := EdgesOfAll(Sort(TurnsOf(lifecycle, openings), TurnLe));
            && |TerminalsAt(edges, Some(n))| <= 1
            && (forall t :: TurnAt(TurnsOf(lifecycle, openings), n, t) ==>
                  TerminalsAt(edges, Some(n)) == if t.terminal.Some? then [t.terminal.value] else [])
  {
    var turns := TurnsOf(lifecycle, openings);
    TurnsAreDistinct(lifecycle, openings);
    SortKeepsTurns(turns);
    EachTurnEndsOnceIn(Sort(turns, TurnLe), n);
    assert forall t :: TurnAt(turns, n, t) <==> TurnAt(Sort(turns, TurnLe), n, t);
  }

  lemma EachTurnEndsOnceIn(turns: seq<Turn>, n: nat)
    requires DistinctTurns(turns) && Consistent(turns)
    ensures |TerminalsAt(EdgesOfAll(turns), Some(n))| <= 1
    ensures forall t :: TurnAt(turns, n, t) ==>
              TerminalsAt(EdgesOfAll(turns), Some(n)) == if t.terminal.Some? then [t.terminal.value] else []
  {
    if i :| 0 <= i < |turns| && turns[i].seqNo == n {
      TerminalsOfTurn(turns, i);
    } else {
      NoTurnNoTerminal(turns, n);
    }
  }

  /** Turns come in sequence order. */
  lemma TurnsAreInOrder(lifecycle: Lifecycle, openings: nat -> Option<Stamp>)
    ensures Sorted(Sort(TurnsOf(lifecycle, openings), TurnLe), TurnLe)
  {
    SortIsSorted(TurnsOf(lifecycle, openings), TurnLe);
  }

  // ----- What the paired edges say of the lifecycle -----

  // The turn is known to have opened at this moment.
  ghost predicate Opens(lifecycle: Lifecycle, openings: nat -> Option<Stamp>, n: nat, at: Stamp) {
    || (lifecycle.active.Some? && lifecycle.active.value.seqNo == n && lifecycle.active.value.at == at)
    || (HasSeq(lifecycle.terminals, n) && openings(n) == Some(at))
  }

  // The edge after this one is the reported end of the turn it starts, if the turn has ended.
  ghost predicate EndFollows(lifecycle: Lifecycle, edges: seq<Edge>, k: nat)
    requires k < |edges| && edges[k].TurnStarted?
  {
    HasSeq(lifecycle.terminals, edges[k].seqNo) ==>
      k + 1 < |edges| && edges[k + 1] in lifecycle.terminals && SeqOf(edges[k + 1]) == SeqOf(edges[k])
  }

  // Every known opening is a start, every reported end of a numbered turn is there, nothing else is, and a
  // turn's end comes right after its start.
  ghost predicate Paired(lifecycle: Lifecycle, openings: nat -> Option<Stamp>, edges: seq<Edge>) {
    && (forall n, at :: TurnStarted(0, n, at) in edges <==> Opens(lifecycle, openings, n, at))
    && (forall e :: e in edges && e.TurnStarted? ==> e.session == 0)
    && (forall e :: e in edges && !e.TurnStarted? <==> e in lifecycle.terminals && SeqOf(e).Some?)
    && (forall k :: 0 <= k < |edges| && edges[k].TurnStarted? ==> EndFollows(lifecycle, edges, k))
  }

  // What a turn stands for.
  ghost predicate TurnOf(lifecycle: Lifecycle, openings: nat -> Option<Stamp>, turn: Turn) {
    match turn.terminal
    case Some(end) => end in lifecycle.terminals && SeqOf(end) == Some(turn.seqNo) && turn.start == openings(turn.seqNo)
    case None => lifecycle.active.Some? && turn.seqNo == lifecycle.active.value.seqNo
                 && turn.start == Some(lifecycle.active.value.at)
  }

  lemma {:induction false} TerminalTurnsStandFor(terminals: seq<Edge>, openings: nat -> Option<Stamp>, turn: Turn)
    ensures turn in TerminalTurns(terminals, openings) <==>
              && turn.terminal.Some? && turn.terminal.value in terminals
              && SeqOf(turn.terminal.value) == Some(turn.seqNo) && turn.start == openings(turn.seqNo)
  {
    if terminals != [] {
      var init := terminals[..|terminals| - 1];
      TerminalTurnsStandFor(init, openings, turn);
      assert terminals == init + [terminals[|terminals| - 1]];
    }
  }

  lemma TurnsStandFor(lifecycle: Lifecycle, openings: nat -> Option<Stamp>, turn: Turn)
    ensures turn in TurnsOf(lifecycle, openings) <==> TurnOf(lifecycle, openings, turn)
  {
    TerminalTurnsStandFor(lifecycle.terminals, openings, turn);
  }

  // Each edge is its turn's, and a start is followed by its turn's end.
  ghost predicate EdgeOfTurn(edges: seq<Edge>, k: nat, turn: Turn)
    requires k < |edges|
  {
    if edges[k].TurnStarted? then
      && turn.start.Some? && edges[k] == TurnStarted(0, turn.seqNo, turn.start.value)
      && (turn.terminal.Some? ==> k + 1 < |edges| && edges[k + 1] == turn.terminal.value)
    else turn.terminal == Some(edges[k])
  }

  lemma {:induction false} EachEdgeHasATurn(turns: seq<Turn>, k: nat) returns (turn: Turn)
    requires Consistent(turns) && k < |EdgesOfAll(turns)|
    ensures turn in turns && EdgeOfTurn(EdgesOfAll(turns), k, turn)
  {
    var n := |turns| - 1;
    var init, own := EdgesOfAll(turns[..n]), EdgesOf(turns[n]);
    assert EdgesOfAll(turns) == init + own;
    if k < |init| {
      turn := EachEdgeHasATurn(turns[..n], k);
    } else {
      turn := turns[n];
      assert EdgesOfAll(turns)[k] == own[k - |init|];
    }
  }

  lemma {:induction false} EachTurnHasItsEdges(turns: seq<Turn>, turn: Turn)
    requires turn in turns
    ensures turn.start.Some? ==> TurnStarted(0, turn.seqNo, turn.start.value) in EdgesOfAll(turns)
    ensures turn.terminal.Some? ==> turn.terminal.value in EdgesOfAll(turns)
  {
    var n := |turns| - 1;
    assert turns == turns[..n] + [turns[n]];
    if turn in turns[..n] {
      EachTurnHasItsEdges(turns[..n], turn);
    } else {
      assert turn == turns[n];
    }
  }

  lemma StartsArePaired(lifecycle: Lifecycle, openings: nat -> Option<Stamp>, turns: seq<Turn>, n: nat, at: Stamp)
    requires Consistent(turns) && forall turn :: turn in turns <==> TurnOf(lifecycle, openings, turn)
    ensures TurnStarted(0, n, at) in EdgesOfAll(turns) <==> Opens(lifecycle, openings, n, at)
  {
    var edges := EdgesOfAll(turns);
    if k :| 0 <= k < |edges| && edges[k] == TurnStarted(0, n, at) {
      var turn := EachEdgeHasATurn(turns, k);
      assert TurnOf(lifecycle, openings, turn);
      if turn.terminal.Some? {
        var i :| 0 <= i < |lifecycle.terminals| && lifecycle.terminals[i] == turn.terminal.value;
      }
    }
    if lifecycle.active.Some? && lifecycle.active.value.seqNo == n && lifecycle.active.value.at == at {
      EachTurnHasItsEdges(turns, Turn(n, Some(at), None));
    }
    if HasSeq(lifecycle.terminals, n) && openings(n) == Some(at) {
      var i :| 0 <= i < |lifecycle.terminals| && SeqOf(lifecycle.terminals[i]) == Some(n);
      EachTurnHasItsEdges(turns, Turn(n, Some(at), Some(lifecycle.terminals[i])));
    }
  }

  lemma EndsArePaired(lifecycle: Lifecycle, openings: nat -> Option<Stamp>, turns: seq<Turn>, e: Edge)
    requires Distinct(lifecycle) && Consistent(turns)
    requires forall turn :: turn in turns <==> TurnOf(lifecycle, openings, turn)
    ensures e in EdgesOfAll(turns) && !e.TurnStarted? <==> e in lifecycle.terminals && SeqOf(e).Some?
    ensures e in EdgesOfAll(turns) && e.TurnStarted? ==> e.session == 0
  {
    var edges := EdgesOfAll(turns);
    if k :| 0 <= k < |edges| && edges[k] == e {
      var turn := EachEdgeHasATurn(turns, k);
      assert TurnOf(lifecycle, openings, turn);
    }
    if e in lifecycle.terminals && SeqOf(e).Some? {
      EachTurnHasItsEdges(turns, Turn(SeqOf(e).value, openings(SeqOf(e).value), Some(e)));
    }
  }

  lemma EndsFollow(lifecycle: Lifecycle, openings: nat -> Option<Stamp>, turns: seq<Turn>, k: nat)
    requires Distinct(lifecycle) && Consistent(turns)
    requires forall turn :: turn in turns <==> TurnOf(lifecycle, openings, turn)
    requires k < |EdgesOfAll(turns)| && EdgesOfAll(turns)[k].TurnStarted?
    ensures EndFollows(lifecycle, EdgesOfAll(turns), k)
  {
    var edges := EdgesOfAll(turns);
    var turn := EachEdgeHasATurn(turns, k);
    assert TurnOf(lifecycle, openings, turn);
    assert HasSeq(lifecycle.terminals, turn.seqNo) ==> turn.terminal.Some?;
  }

  /** The edges of a lifecycle are its known openings and its reported ends, each end right after its start. */
  lemma LifecycleIsPaired(lifecycle: Lifecycle, openings: nat -> Option<Stamp>)
    requires Distinct(lifecycle)
    ensures Paired(lifecycle, openings, EdgesOfAll(Sort(TurnsOf(lifecycle, openings), TurnLe)))
  {
    var turns := Sort(TurnsOf(lifecycle, openings), TurnLe);
    var edges := EdgesOfAll(turns);
    TurnsAreDistinct(lifecycle, openings);
    SortKeepsTurns(TurnsOf(lifecycle, openings));
    forall turn
      ensures turn in turns <==> TurnOf(lifecycle, openings, turn)
    {
      TurnsStandFor(lifecycle, openings, turn);
    }
    forall n, at
      ensures TurnStarted(0, n, at) in edges <==> Opens(lifecycle, openings, n, at)
    {
      StartsArePaired(lifecycle, openings, turns, n, at);
    }
    forall e
      ensures e in edges && !e.TurnStarted? <==> e in lifecycle.terminals && SeqOf(e).Some?
      ensures e in edges && e.TurnStarted? ==> e.session == 0
    {
      EndsArePaired(lifecycle, openings, turns, e);
    }
    forall k | 0 <= k < |edges| && edges[k].TurnStarted?
      ensures EndFollows(lifecycle, edges, k)
    {
      EndsFollow(lifecycle, openings, turns, k);
    }
  }

  // ----- Sticky failures -----

  ghost predicate StickySet(sticky: seq<Edge>) {
    && (forall i :: 0 <= i < |sticky| ==> sticky[i].TurnFailed?)
    && (forall i, j :: 0 <= i < j < |sticky| ==> SeqOf(sticky[i]) != SeqOf(sticky[j]))
  }

  // The failure sticking to one turn.
  predicate Sticks(sticky: seq<Edge>, n: Option<nat>, failure: Edge) {
    failure in sticky && SeqOf(failure) == n
  }

  predicate FollowsItsStart(edges: seq<Edge>, failure: Edge) {
    exists k ::
      0 <= k < |edges| - 1 && edges[k].TurnStarted? && SeqOf(edges[k]) == SeqOf(failure) && edges[k + 1] == failure
  }

  predicate HasStart(edges: seq<Edge>, n: Option<nat>) {
    exists k :: 0 <= k < |edges| && edges[k].TurnStarted? && SeqOf(edges[k]) == n
  }

  /** Starts keep their order. A turn with a sticky failure has exactly one terminal edge, and it is that
      failure; every other turn keeps the terminal edges it had. */
  method MergeStickyFailures(observed: seq<Edge>, sticky: seq<Edge>) returns (merged: seq<Edge>)
    requires StickySet(sticky) && forall f :: f in sticky ==> |TerminalsAt(observed, SeqOf(f))| <= 1
    ensures Starts(merged) == Starts(observed)
    ensures forall f :: f in sticky ==> TerminalsAt(merged, SeqOf(f)) == [f]
    ensures forall n :: Unstuck(sticky, n) ==> TerminalsAt(merged, n) == TerminalsAt(observed, n)
    ensures forall f :: f in sticky && TerminalsAt(observed, SeqOf(f)) == [] && HasStart(observed, SeqOf(f)) ==>
              FollowsItsStart(merged, f)
    ensures FromBoth(merged, observed, sticky)
  {
    var pending := StickyBySeq(sticky);
    merged, pending := ReplaceTerminals(observed, sticky, pending);
    merged := InsertPending(merged, observed, sticky, pending);
  }

  ghost predicate FromBoth(merged: seq<Edge>, observed: seq<Edge>, sticky: seq<Edge>) {
    forall e :: e in merged ==> e in observed || e in sticky
  }

  // The failures still to be placed, by turn.
  ghost predicate Holds(pending: map<Option<nat>, Edge>, sticky: seq<Edge>) {
    forall n :: n in pending ==> Sticks(sticky, n, pending[n])
  }

  // Every failure that is no longer pending is its turn's one terminal edge.
  ghost predicate Placed(edges: seq<Edge>, observed: seq<Edge>, sticky: seq<Edge>, pending: set<Option<nat>>) {
    && Starts(edges) == Starts(observed)
    && (forall f :: f in sticky ==> TerminalsAt(edges, SeqOf(f)) == if SeqOf(f) in pending then [] else [f])
    && (forall n :: Unstuck(sticky, n) ==> TerminalsAt(edges, n) == TerminalsAt(observed, n))
  }

  // No failure sticks to this turn.
  predicate Unstuck(sticky: seq<Edge>, n: Option<nat>) {
    forall f :: f in sticky ==> SeqOf(f) != n
  }

  // A failure is pending exactly while its turn has shown no terminal edge.
  ghost predicate Awaiting(observed: seq<Edge>, sticky: seq<Edge>, pending: set<Option<nat>>) {
    forall f :: f in sticky ==> (SeqOf(f) in pending <==> TerminalsAt(observed, SeqOf(f)) == [])
  }

  method StickyBySeq(sticky: seq<Edge>) returns (pending: map<Option<nat>, Edge>)
    requires StickySet(sticky)
    ensures Holds(pending, sticky) && forall f :: f in sticky ==> SeqOf(f) in pending && pending[SeqOf(f)] == f
  {
    pending := map[];
    for i := 0 to |sticky|
      invariant forall n :: n in pending ==> Sticks(sticky[..i], n, pending[n])
      invariant forall k :: 0 <= k < i ==> SeqOf(sticky[k]) in pending && pending[SeqOf(sticky[k])] == sticky[k]
    {
      assert sticky[..i + 1] == sticky[..i] + [sticky[i]];
      pending := pending[SeqOf(sticky[i]) := sticky[i]];
    }
    assert sticky[..|sticky|] == sticky;
  }

  method ReplaceTerminals(observed: seq<Edge>, sticky: seq<Edge>, bySeq: map<Option<nat>, Edge>)
    returns (merged: seq<Edge>, pending: map<Option<nat>, Edge>)
    requires StickySet(sticky) && Holds(bySeq, sticky) && forall f :: f in sticky ==>
               SeqOf(f) in bySeq && bySeq[SeqOf(f)] == f
    requires forall f :: f in sticky ==> |TerminalsAt(observed, SeqOf(f))| <= 1
    ensures Holds(pending, sticky) && Placed(merged, observed, sticky, pending.Keys)
    ensures Awaiting(observed, sticky, pending.Keys) && FromBoth(merged, observed, sticky)
  {
    merged, pending := [], bySeq;
    for i := 0 to |observed|
      invariant Holds(pending, sticky) && Placed(merged, observed[..i], sticky, pending.Keys)
      invariant Awaiting(observed[..i], sticky, pending.Keys) && FromBoth(merged, observed, sticky)
    {
      var edge := observed[i];
      var n := SeqOf(edge);
      FirstTerminal(observed, i);
      if !edge.TurnStarted? && n in pending {
        PlacedByReplacing(merged, observed[..i], sticky, pending.Keys, edge, pending[n]);
        AwaitingByReplacing(observed[..i], sticky, pending.Keys, edge);
        merged := merged + [pending[n]];
        pending := pending - {n};
      } else {
        PlacedByKeeping(merged, observed[..i], sticky, pending.Keys, edge);
        merged := merged + [edge];
      }
    }
    assert observed[..|observed|] == observed;
  }

  // An edge is one more terminal of its own turn, and of no other.
  lemma OneMoreEdge(edges: seq<Edge>, edge: Edge, n: Option<nat>)
    ensures TerminalsAt(edges + [edge], n) == TerminalsAt(edges, n) + if !edge.TurnStarted? && SeqOf(edge) == n
            then [edge] else []
    ensures Starts(edges + [edge]) == Starts(edges) + if edge.TurnStarted? then [edge] else []
  {
    assert (edges + [edge])[..|edges|] == edges;
  }

  lemma FirstTerminal(observed: seq<Edge>, i: nat)
    requires i < |observed|
    ensures observed[..i + 1] == observed[..i] + [observed[i]]
    ensures var n := SeqOf(observed[i]);
            !observed[i].TurnStarted? && |TerminalsAt(observed, n)| <= 1 ==> TerminalsAt(observed[..i], n) == []
  {
    OneMoreEdge(observed[..i], observed[i], SeqOf(observed[i]));
    assert observed == observed[..i + 1] + observed[i + 1..];
    TerminalsConcat(observed[..i + 1], observed[i + 1..], SeqOf(observed[i]));
  }

  lemma PlacedByKeeping(merged: seq<Edge>, observed: seq<Edge>, sticky: seq<Edge>, pending: set<Option<nat>>,
                        edge: Edge)
    requires Placed(merged, observed, sticky, pending) && Awaiting(observed, sticky, pending)
    requires edge.TurnStarted? || forall f :: f in sticky ==> SeqOf(f) != SeqOf(edge)
    ensures Placed(merged + [edge], observed + [edge], sticky, pending) && Awaiting(observed + [edge], sticky, pending)
  {
    forall n
      ensures TerminalsAt(merged + [edge], n) == TerminalsAt(merged, n) + if !edge.TurnStarted? && SeqOf(edge) == n
              then [edge] else []
      ensures TerminalsAt(observed + [edge], n) == TerminalsAt(observed, n) + if !edge.TurnStarted? && SeqOf(edge) == n
              then [edge] else []
      ensures Starts(merged + [edge]) == Starts(observed + [edge])
    {
      OneMoreEdge(merged, edge, n);
      OneMoreEdge(observed, edge, n);
    }
  }

  lemma PlacedByReplacing(merged: seq<Edge>, observed: seq<Edge>, sticky: seq<Edge>, pending: set<Option<nat>>,
                          edge: Edge, failure: Edge)
    requires StickySet(sticky) && Placed(merged, observed, sticky, pending)
    requires !edge.TurnStarted? && Sticks(sticky, SeqOf(edge), failure) && SeqOf(edge) in pending
    ensures Placed(merged + [failure], observed + [edge], sticky, pending - {SeqOf(edge)})
  {
    OneMoreEdge(merged, failure, None);
    OneMoreEdge(observed, edge, None);
    forall f | f in sticky
      ensures TerminalsAt(merged + [failure], SeqOf(f)) == if SeqOf(f) in pending - {SeqOf(edge)} then [] else [f]
    {
      ReplacedOnce(merged, sticky, pending, failure, f);
    }
    forall n | Unstuck(sticky, n)
      ensures TerminalsAt(merged + [failure], n) == TerminalsAt(observed + [edge], n)
    {
      ReplacedElsewhere(merged, observed, edge, failure, n);
    }
  }

  lemma ReplacedOnce(merged: seq<Edge>, sticky: seq<Edge>, pending: set<Option<nat>>, failure: Edge, f: Edge)
    requires StickySet(sticky) && failure in sticky && f in sticky && SeqOf(failure) in pending
    requires TerminalsAt(merged, SeqOf(f)) == if SeqOf(f) in pending then [] else [f]
    ensures TerminalsAt(merged + [failure], SeqOf(f)) == if SeqOf(f) in pending - {SeqOf(failure)} then [] else [f]
  {
    OneMoreEdge(merged, failure, SeqOf(f));
    if SeqOf(f) == SeqOf(failure) {
      OneFailurePerTurn(sticky, f, failure);
    }
  }

  lemma ReplacedElsewhere(merged: seq<Edge>, observed: seq<Edge>, edge: Edge, failure: Edge, n: Option<nat>)
    requires SeqOf(edge) == SeqOf(failure) != n && TerminalsAt(merged, n) == TerminalsAt(observed, n)
    ensures TerminalsAt(merged + [failure], n) == TerminalsAt(observed + [edge], n)
  {
    OneMoreEdge(merged, failure, n);
    OneMoreEdge(observed, edge, n);
  }

  lemma OneFailurePerTurn(sticky: seq<Edge>, f: Edge, other: Edge)
    requires StickySet(sticky) && f in sticky && other in sticky && SeqOf(f) == SeqOf(other)
    ensures f == other
  {
    var i :| 0 <= i < |sticky| && sticky[i] == f;
    var j :| 0 <= j < |sticky| && sticky[j] == other;
    assert i == j;
  }

  lemma AwaitingByReplacing(observed: seq<Edge>, sticky: seq<Edge>, pending: set<Option<nat>>, edge: Edge)
    requires Awaiting(observed, sticky, pending) && !edge.TurnStarted?
    ensures Awaiting(observed + [edge], sticky, pending - {SeqOf(edge)})
  {
    forall f | f in sticky
      ensures SeqOf(f) in pending - {SeqOf(edge)} <==> TerminalsAt(observed + [edge], SeqOf(f)) == []
    {
      OneMoreEdge(observed, edge, SeqOf(f));
    }
  }

  // Failures with no terminal edge to replace go right after their start, or at the end.
  method InsertPending(placed: seq<Edge>, observed: seq<Edge>, sticky: seq<Edge>, pending: map<Option<nat>, Edge>)
    returns (merged: seq<Edge>)
    requires StickySet(sticky) && Holds(pending, sticky) && Placed(placed, observed, sticky, pending.Keys)
    requires FromBoth(placed, observed, sticky)
    ensures Placed(merged, observed, sticky, {}) && FromBoth(merged, observed, sticky)
    ensures forall f :: f in sticky && SeqOf(f) in pending && HasStart(observed, SeqOf(f)) ==>
              FollowsItsStart(merged, f)
  {
    merged := placed;
    ghost var left := pending.Keys;
    for j := 0 to |sticky|
      invariant Placed(merged, observed, sticky, left) && left <= pending.Keys && FromBoth(merged, observed, sticky)
      invariant LeftFrom(sticky, j, pending.Keys, left)
      invariant Following(merged, observed, sticky, j, pending.Keys)
    {
      if SeqOf(sticky[j]) in pending {
        merged := PlaceFailure(merged, observed, sticky, j, pending.Keys, left);
        left := left - {SeqOf(sticky[j])};
      }
    }
    NoneLeft(sticky, pending, left);
  }

  // The pending failures not yet reached.
  ghost predicate LeftFrom(sticky: seq<Edge>, j: nat, pending: set<Option<nat>>, left: set<Option<nat>>) {
    forall k :: 0 <= k < |sticky| ==> (SeqOf(sticky[k]) in left <==> SeqOf(sticky[k]) in pending && j <= k)
  }

  lemma LeftFurther(sticky: seq<Edge>, j: nat, pending: set<Option<nat>>, left: set<Option<nat>>)
    requires StickySet(sticky) && j < |sticky| && LeftFrom(sticky, j, pending, left)
    ensures LeftFrom(sticky, j + 1, pending, left - {SeqOf(sticky[j])})
  {
    assert forall k :: 0 <= k < |sticky| && k != j ==> SeqOf(sticky[k]) != SeqOf(sticky[j]);
  }

  lemma InsertedFromBoth(merged: seq<Edge>, observed: seq<Edge>, sticky: seq<Edge>, at: nat, failure: Edge)
    requires FromBoth(merged, observed, sticky) && failure in sticky && at <= |merged|
    ensures FromBoth(Inserted(merged, at, failure), observed, sticky)
  {
    forall e | e in Inserted(merged, at, failure) ensures e in observed || e in sticky {
      assert e in merged[..at] || e == failure || e in merged[at..];
    }
  }

  lemma NoneLeft(sticky: seq<Edge>, pending: map<Option<nat>, Edge>, left: set<Option<nat>>)
    requires Holds(pending, sticky) && left <= pending.Keys && LeftFrom(sticky, |sticky|, pending.Keys, left)
    ensures left == {}
  {
    forall n ensures n !in left {
      if n in pending {
        assert Sticks(sticky, n, pending[n]);
        var k :| 0 <= k < |sticky| && sticky[k] == pending[n];
      }
    }
  }

  // Each of these failures that had to be inserted, and has a start, stands right after it.
  ghost predicate Following(merged: seq<Edge>, observed: seq<Edge>, sticky: seq<Edge>, j: nat,
                            pending: set<Option<nat>>) {
    forall k :: 0 <= k < j <= |sticky| && SeqOf(sticky[k]) in pending && HasStart(observed, SeqOf(sticky[k])) ==>
      FollowsItsStart(merged, sticky[k])
  }

  method PlaceFailure(merged: seq<Edge>, observed: seq<Edge>, sticky: seq<Edge>, j: nat,
                      ghost pending: set<Option<nat>>, ghost left: set<Option<nat>>)
    returns (more: seq<Edge>)
    requires StickySet(sticky) && j < |sticky| && Placed(merged, observed, sticky, left) && SeqOf(sticky[j]) in left
    requires Following(merged, observed, sticky, j, pending) && LeftFrom(sticky, j, pending, left)
    requires FromBoth(merged, observed, sticky)
    ensures FromBoth(more, observed, sticky)
    ensures LeftFrom(sticky, j + 1, pending, left - {SeqOf(sticky[j])})
    ensures Placed(more, observed, sticky, left - {SeqOf(sticky[j])})
    ensures Following(more, observed, sticky, j + 1, pending)
  {
    var failure := sticky[j];
    LeftFurther(sticky, j, pending, left);
    var at := StartIndex(merged, SeqOf(failure));
    StartsAreKept(merged, observed, SeqOf(failure));
    var place := if at.None? then |merged| else at.value + 1;
    PlacedByInserting(merged, observed, sticky, left, failure, place);
    FollowedByInserting(merged, observed, sticky, j, pending, place);
    InsertedFromBoth(merged, observed, sticky, place, failure);
    more := Inserted(merged, place, failure);
  }

  lemma FollowedByInserting(merged: seq<Edge>, observed: seq<Edge>, sticky: seq<Edge>, j: nat,
                            pending: set<Option<nat>>, place: nat)
    requires StickySet(sticky) && j < |sticky| && Following(merged, observed, sticky, j, pending) && place <= |merged|
    requires Starts(merged) == Starts(observed)
    requires place == |merged| ==>
               (HasStart(merged, SeqOf(sticky[j])) ==> IsStartOf(merged, place - 1, SeqOf(sticky[j])))
    requires place < |merged| ==> IsStartOf(merged, place - 1, SeqOf(sticky[j]))
    ensures Following(Inserted(merged, place, sticky[j]), observed, sticky, j + 1, pending)
  {
    var failure, more := sticky[j], Inserted(merged, place, sticky[j]);
    StartsAreKept(merged, observed, SeqOf(failure));
    forall k | 0 <= k < j && FollowsItsStart(merged, sticky[k]) ensures FollowsItsStart(more, sticky[k]) {
      StillFollows(merged, place, failure, sticky[k]);
    }
    if HasStart(merged, SeqOf(failure)) {
      assert more[place - 1] == merged[place - 1] && more[place] == failure;
    }
  }

  predicate IsStartOf(edges: seq<Edge>, k: int, n: Option<nat>) {
    0 <= k < |edges| && edges[k].TurnStarted? && SeqOf(edges[k]) == n
  }

  function Inserted(edges: seq<Edge>, at: nat, edge: Edge): seq<Edge>
    requires at <= |edges|
  {
    edges[..at] + [edge] + edges[at..]
  }

  method StartIndex(edges: seq<Edge>, n: Option<nat>) returns (at: Option<nat>)
    ensures at.None? <==> !HasStart(edges, n)
    ensures at.Some? ==> at.value < |edges| && edges[at.value].TurnStarted? && SeqOf(edges[at.value]) == n
  {
    var k := 0;
    while k < |edges|
      invariant 0 <= k <= |edges|
      invariant forall i :: 0 <= i < k ==> !(edges[i].TurnStarted? && SeqOf(edges[i]) == n)
    {
      if edges[k].TurnStarted? && SeqOf(edges[k]) == n {
        return Some(k);
      }
      k := k + 1;
    }
    return None;
  }

  lemma {:induction false} StartsHold(edges: seq<Edge>, n: Option<nat>)
    ensures HasStart(edges, n) <==> exists e :: e in Starts(edges) && SeqOf(e) == n
  {
    if edges != [] {
      var init, last := edges[..|edges| - 1], edges[|edges| - 1];
      StartsHold(init, n);
      if HasStart(init, n) {
        var k :| 0 <= k < |init| && init[k].TurnStarted? && SeqOf(init[k]) == n;
        assert edges[k] == init[k];
      }
      if last.TurnStarted? && SeqOf(last) == n {
        assert last in Starts(edges);
      }
    }
  }

  lemma StartsAreKept(merged: seq<Edge>, observed: seq<Edge>, n: Option<nat>)
    requires Starts(merged) == Starts(observed)
    ensures HasStart(merged, n) <==> HasStart(observed, n)
  {
    StartsHold(merged, n);
    StartsHold(observed, n);
  }

  lemma PlacedByInserting(merged: seq<Edge>, observed: seq<Edge>, sticky: seq<Edge>, left: set<Option<nat>>,
                          failure: Edge, at: nat)
    requires StickySet(sticky) && Placed(merged, observed, sticky, left) && failure in sticky && SeqOf(failure) in left
             && at <= |merged|
    ensures Placed(Inserted(merged, at, failure), observed, sticky, left - {SeqOf(failure)})
  {
    forall n
      ensures TerminalsAt(Inserted(merged, at, failure), n) == if SeqOf(failure) == n then [failure]
              else TerminalsAt(merged, n)
      ensures Starts(Inserted(merged, at, failure)) == Starts(merged)
    {
      InsertedEdge(merged, at, failure, n);
    }
  }

  lemma InsertedEdge(merged: seq<Edge>, at: nat, failure: Edge, n: Option<nat>)
    requires at <= |merged| && failure.TurnFailed? && TerminalsAt(merged, SeqOf(failure)) == []
    ensures TerminalsAt(Inserted(merged, at, failure), n) == if SeqOf(failure) == n then [failure]
            else TerminalsAt(merged, n)
    ensures Starts(Inserted(merged, at, failure)) == Starts(merged)
  {
    var head, tail := merged[..at], merged[at..];
    assert merged == head + tail;
    TerminalsConcat(head, tail, n);
    StartsConcat(head, tail);
    OneMoreEdge(head, failure, n);
    TerminalsConcat(head + [failure], tail, n);
    StartsConcat(head + [failure], tail);
  }

  // A failure already in place stays right after its start: another one goes after a start of its own turn.
  lemma StillFollows(merged: seq<Edge>, place: nat, failure: Edge, other: Edge)
    requires place <= |merged| && FollowsItsStart(merged, other) && SeqOf(failure) != SeqOf(other)
    requires place < |merged| ==>
               place > 0 && merged[place - 1].TurnStarted? && SeqOf(merged[place - 1]) == SeqOf(failure)
    ensures FollowsItsStart(Inserted(merged, place, failure), other)
  {
    var k :| 0 <= k < |merged| - 1 && merged[k].TurnStarted? && SeqOf(merged[k]) == SeqOf(other)
        && merged[k + 1] == other;
    var r := Inserted(merged, place, failure);
    if k + 1 < place {
      assert r[k] == merged[k] && r[k + 1] == merged[k + 1];
    } else {
      assert place != k + 1;
      assert r[k + 1] == merged[k] && r[k + 2] == merged[k + 1];
    }
  }
}
