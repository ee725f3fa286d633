/**
 Projecting an agent's turn edges and publishing each at most once
 (apps/runtime/src/harnesses/observer-state.ts and observer.service.ts).
 */
module AgentEdges {
  import opened Optional
  import opened Sorting
  import opened TurnEdges

  // What a harness's reducer makes of one session's records, and when each turn opened.
  datatype Stream = Stream(session: SessionId, lifecycle: Lifecycle, openings: nat -> Option<Stamp>)

  datatype SessionStatus = Starting | Live | Ended

  // What controls the agent now, and what is known of its process.
  datatype Execution = NoExecution | Sdk(incarnation: nat, live: bool) | Pty(incarnation: nat, pid: nat,
                                                                             status: Option<SessionStatus>)

  // Failures already committed, by session and turn.
  type Sticky = map<(SessionId, nat), Edge>

  // Process facts override the status the execution was read with.
  predicate ActiveIncarnationIsLive(active: Execution, facts: map<nat, SessionStatus>) {
    match active
    case NoExecution => false
    case Sdk(_, live) => live
    case Pty(_, pid, status) =>
      (if pid in facts then Some(facts[pid]) else status) in {Some(Starting), Some(Live)}
  }

  predicate ActiveTurnIsDead(turn: ActiveTurn, active: Execution, facts: map<nat, SessionStatus>) {
    && turn.incarnation.Some?
    && (active.NoExecution? || turn.incarnation.value != active.incarnation || !ActiveIncarnationIsLive(active, facts))
  }

  // ----- Sessions -----

  function InSession(edge: Edge, session: SessionId): (e: Edge)
    ensures e.TurnStarted? == edge.TurnStarted? && SeqOf(e) == SeqOf(edge) && e.session == session
  {
    match edge
    case TurnStarted(_, n, at) => TurnStarted(session, n, at)
    case TurnEnded(_, n, at) => TurnEnded(session, n, at)
    case TurnFailed(_, n, at, reason) => TurnFailed(session, n, at, reason)
  }

  function AllInSession(edges: seq<Edge>, session: SessionId): seq<Edge> {
    if edges == [] then [] else AllInSession(edges[..|edges| - 1], session) + [InSession(edges[|edges| - 1], session)]
  }

  lemma {:induction false} SessionPointwise(edges: seq<Edge>, session: SessionId)
    ensures |AllInSession(edges, session)| == |edges|
    ensures forall i :: 0 <= i < |edges| ==> AllInSession(edges, session)[i] == InSession(edges[i], session)
  {
    if edges != [] {
      SessionPointwise(edges[..|edges| - 1], session);
    }
  }

  lemma SessionOfOne(edges: seq<Edge>, edge: Edge, session: SessionId)
    ensures AllInSession(edges + [edge], session) == AllInSession(edges, session) + [InSession(edge, session)]
  {
    assert (edges + [edge])[..|edges|] == edges;
  }

  lemma {:induction false} SessionKeepsTerminals(edges: seq<Edge>, session: SessionId, n: Option<nat>)
    ensures TerminalsAt(AllInSession(edges, session), n) == AllInSession(TerminalsAt(edges, n), session)
  {
    if edges != [] {
      var init, last := edges[..|edges| - 1], edges[|edges| - 1];
      SessionKeepsTerminals(init, session, n);
      OneMoreEdge(AllInSession(init, session), InSession(last, session), n);
      if !last.TurnStarted? && SeqOf(last) == n {
        SessionOfOne(TerminalsAt(init, n), last, session);
      } else {
        assert TerminalsAt(edges, n) == TerminalsAt(init, n);
      }
    }
  }

  lemma {:induction false} SessionKeepsStarts(edges: seq<Edge>, session: SessionId)
    ensures Starts(AllInSession(edges, session)) == AllInSession(Starts(edges), session)
  {
    if edges != [] {
      var init, last := edges[..|edges| - 1], edges[|edges| - 1];
      SessionKeepsStarts(init, session);
      OneMoreEdge(AllInSession(init, session), InSession(last, session), None);
      if last.TurnStarted? {
        SessionOfOne(Starts(init), last, session);
      } else {
        assert Starts(edges) == Starts(init);
      }
    }
  }

  // The edges observed in one session, before any failure sticks.
  function Observed(stream: Stream): seq<Edge> {
    AllInSession(EdgesOfAll(Sort(TurnsOf(stream.lifecycle, stream.openings), TurnLe)), stream.session)
  }

  ghost predicate ValidSticky(sticky: Sticky) {
    forall k :: k in sticky ==> sticky[k].TurnFailed? && sticky[k].session == k.0 && sticky[k].seqOrNull == Some(k.1)
                                && sticky[k].reason == SessionDied
  }

  // The failure an open turn of a dead execution is committed as.
  function DeadTurn(session: SessionId, turn: ActiveTurn): Edge {
    TurnFailed(session, Some(turn.seqNo), turn.at, SessionDied)
  }

  function Committed(sticky: Sticky, stream: Stream, active: Execution, facts: map<nat, SessionStatus>): Sticky {
    match stream.lifecycle.active
    case Some(turn) =>
      if ActiveTurnIsDead(turn, active, facts)
      then sticky[(stream.session, turn.seqNo) := DeadTurn(stream.session, turn)] else sticky
    case None => sticky
  }

  function CommittedAll(sticky: Sticky, streams: seq<Stream>, active: Execution,
                        facts: map<nat, SessionStatus>): Sticky {
    if streams == [] then sticky
    else Committed(CommittedAll(sticky, streams[..|streams| - 1], active, facts), streams[|streams| - 1], active, facts)
  }

  // One session's part of a projection: its turns, with every committed failure in place.
  ghost predicate Settled(edges: seq<Edge>, stream: Stream, sticky: Sticky) {
    && Starts(edges) == Starts(Observed(stream))
    && (forall n: nat :: (stream.session, n) in sticky ==> TerminalsAt(edges, Some(n)) == [sticky[(stream.session, n)]])
    && (forall n: nat :: (stream.session, n) !in sticky ==>
          TerminalsAt(edges, Some(n)) == TerminalsAt(Observed(stream), Some(n)))
    && TerminalsAt(edges, None) == TerminalsAt(Observed(stream), None)
    && (forall e :: e in edges ==> e.session == stream.session)
  }

  method StickyOf(sticky: Sticky, session: SessionId) returns (failures: seq<Edge>)
    requires ValidSticky(sticky)
    ensures StickySet(failures) && FailuresOf(failures, sticky, session)
  {
    failures := [];
    var todo := sticky.Keys;
    while todo != {}
      invariant todo <= sticky.Keys && StickySet(failures)
      invariant forall f :: f in failures <==>
                  exists n: nat :: (session, n) in sticky && (session, n) !in todo && sticky[(session, n)] == f
      decreases todo
    {
      var key :| key in todo;
      if key.0 == session {
        forall f | f in failures ensures SeqOf(f) != Some(key.1) {
          var n: nat :| (session, n) in sticky && (session, n) !in todo && sticky[(session, n)] == f;
        }
        failures := failures + [sticky[key]];
      }
      todo := todo - {key};
    }
  }

  /** Starts keep their order; a turn with a committed failure ends in that failure and nothing else. */
  method ProjectStream(stream: Stream, sticky: Sticky) returns (edges: seq<Edge>)
    requires Distinct(stream.lifecycle) && ValidSticky(sticky)
    ensures Settled(edges, stream, sticky)
  {
    var turns := LifecycleTurnEdges(stream.lifecycle, stream.openings);
    var observed := AllInSession(turns, stream.session);
    var failures := StickyOf(sticky, stream.session);
    StickyTurnsEndOnce(stream, sticky, failures);
    edges := MergeStickyFailures(observed, failures);
    MergedIsSettled(edges, stream, sticky, failures);
  }

  // The failures committed in one session.
  ghost predicate FailuresOf(failures: seq<Edge>, sticky: Sticky, session: SessionId) {
    forall f :: f in failures <==> exists n: nat :: (session, n) in sticky && sticky[(session, n)] == f
  }

  lemma StickyTurnsEndOnce(stream: Stream, sticky: Sticky, failures: seq<Edge>)
    requires Distinct(stream.lifecycle) && ValidSticky(sticky) && FailuresOf(failures, sticky, stream.session)
    ensures forall f :: f in failures ==> |TerminalsAt(Observed(stream), SeqOf(f))| <= 1
  {
    forall f | f in failures ensures |TerminalsAt(Observed(stream), SeqOf(f))| <= 1 {
      var n: nat :| (stream.session, n) in sticky && sticky[(stream.session, n)] == f;
      ObservedEndsOnce(stream, n);
    }
  }

  lemma MergedIsSettled(edges: seq<Edge>, stream: Stream, sticky: Sticky, failures: seq<Edge>)
    requires ValidSticky(sticky) && FailuresOf(failures, sticky, stream.session)
    requires Starts(edges) == Starts(Observed(stream)) && FromBoth(edges, Observed(stream), failures)
    requires forall f :: f in failures ==> TerminalsAt(edges, SeqOf(f)) == [f]
    requires forall n :: Unstuck(failures, n) ==> TerminalsAt(edges, n) == TerminalsAt(Observed(stream), n)
    ensures Settled(edges, stream, sticky)
  {
    forall n: nat | (stream.session, n) in sticky ensures TerminalsAt(edges, Some(n)) == [sticky[(stream.session, n)]] {
      assert sticky[(stream.session, n)] in failures;
    }
    forall f | f in failures ensures f.session == stream.session && SeqOf(f).Some?
    && (stream.session, SeqOf(f).value) in sticky {
      var n: nat :| (stream.session, n) in sticky && sticky[(stream.session, n)] == f;
    }
    SessionPointwise(EdgesOfAll(Sort(TurnsOf(stream.lifecycle, stream.openings), TurnLe)), stream.session);
  }

  lemma ObservedEndsOnce(stream: Stream, n: nat)
    requires Distinct(stream.lifecycle)
    ensures |TerminalsAt(Observed(stream), Some(n))| <= 1
  {
    EachTurnEndsOnce(stream.lifecycle, stream.openings, n);
    var edges := EdgesOfAll(Sort(TurnsOf(stream.lifecycle, stream.openings), TurnLe));
    SessionKeepsTerminals(edges, stream.session, Some(n));
    SessionPointwise(TerminalsAt(edges, Some(n)), stream.session);
  }

  // ----- The projection of all sessions -----

  ghost predicate DistinctSessions(streams: seq<Stream>) {
    && (forall i, j :: 0 <= i < j < |streams| ==> streams[i].session != streams[j].session)
    && (forall i :: 0 <= i < |streams| ==> Distinct(streams[i].lifecycle))
  }

  function Joined(parts: seq<seq<Edge>>): seq<Edge> {
    if parts == [] then [] else Joined(parts[..|parts| - 1]) + parts[|parts| - 1]
  }

  ghost predicate Projected(edges: seq<Edge>, parts: seq<seq<Edge>>, streams: seq<Stream>, sticky: Sticky) {
    && edges == Joined(parts) && |parts| == |streams|
    && forall i :: 0 <= i < |parts| ==> Settled(parts[i], streams[i], sticky)
  }

  method ProjectAgent(streams: seq<Stream>, sticky: Sticky, active: Execution, facts: map<nat, SessionStatus>)
    returns (edges: seq<Edge>, failures: Sticky, ghost parts: seq<seq<Edge>>)
    requires DistinctSessions(streams) && ValidSticky(sticky)
    ensures failures == CommittedAll(sticky, streams, active, facts) && ValidSticky(failures)
    ensures Projected(edges, parts, streams, failures)
    ensures CommitsExactlyTheDead(sticky, failures, streams, active, facts)
    ensures forall i :: 0 <= i < |parts| ==> SparesTheLiving(parts[i], streams[i], sticky, active, facts)
  {
    edges, failures, parts := [], sticky, [];
    for i := 0 to |streams|
      invariant failures == CommittedAll(sticky, streams[..i], active, facts) && ValidSticky(failures)
      invariant Projected(edges, parts, streams[..i], failures)
    {
      edges, failures, parts := ProjectNext(streams, i, sticky, edges, failures, parts, active, facts);
    }
    assert streams[..|streams|] == streams;
    DeadAreCommitted(sticky, streams, active, facts);
    forall i | 0 <= i < |parts|
      ensures SparesTheLiving(parts[i], streams[i], sticky, active, facts)
    {
      LivingAreSpared(parts[i], streams, i, sticky, failures, active, facts);
    }
  }

  // ----- Which turns die -----

  // The execution is not, or no longer, the one in control: there is none, or another, or a worker that is
  // not live, or a terminal whose last known status, the fact if there is one, is neither starting nor live.
  ghost predicate Gone(incarnation: nat, active: Execution, facts: map<nat, SessionStatus>) {
    match active
    case NoExecution => true
    case Sdk(own, live) => incarnation != own || !live
    case Pty(own, pid, status) =>
      || incarnation != own
      || (if pid in facts then facts[pid] == Ended else status.None? || status == Some(Ended))
  }

  // A session's open turn is known to belong to an execution that is gone.
  ghost predicate Dies(stream: Stream, active: Execution, facts: map<nat, SessionStatus>) {
    && stream.lifecycle.active.Some? && stream.lifecycle.active.value.incarnation.Some?
    && Gone(stream.lifecycle.active.value.incarnation.value, active, facts)
  }

  function OpenTurnOf(stream: Stream): (SessionId, nat)
    requires stream.lifecycle.active.Some?
  {
    (stream.session, stream.lifecycle.active.value.seqNo)
  }

  // The failures afterwards are those before and one for each dead open turn, at the moment it opened.
  ghost predicate CommitsExactlyTheDead(before: Sticky, after: Sticky, streams: seq<Stream>,
                                        active: Execution, facts: map<nat, SessionStatus>) {
    && (forall i :: 0 <= i < |streams| && Dies(streams[i], active, facts) ==>
          && OpenTurnOf(streams[i]) in after
          && after[OpenTurnOf(streams[i])] ==
             TurnFailed(streams[i].session, Some(streams[i].lifecycle.active.value.seqNo),
                                                         streams[i].lifecycle.active.value.at, SessionDied))
    && (forall key :: key in before ==> key in after)
    && (forall key :: key in after && !DiesAs(key, streams, active, facts) ==>
          key in before && after[key] == before[key])
  }

  ghost predicate DiesAs(key: (SessionId, nat), streams: seq<Stream>, active: Execution,
                         facts: map<nat, SessionStatus>) {
    exists i :: 0 <= i < |streams| && Dies(streams[i], active, facts) && OpenTurnOf(streams[i]) == key
  }

  lemma DeadExactly(stream: Stream, active: Execution, facts: map<nat, SessionStatus>)
    ensures Dies(stream, active, facts) <==>
              stream.lifecycle.active.Some? && ActiveTurnIsDead(stream.lifecycle.active.value, active, facts)
  {
    if active.Pty? {
      var known := if active.pid in facts then Some(facts[active.pid]) else active.status;
      assert known.Some? ==> known.value.Starting? || known.value.Live? || known.value.Ended?;
    }
  }

  lemma {:induction false} DeadAreCommitted(sticky: Sticky, streams: seq<Stream>, active: Execution,
                                            facts: map<nat, SessionStatus>)
    requires DistinctSessions(streams)
    ensures CommitsExactlyTheDead(sticky, CommittedAll(sticky, streams, active, facts), streams, active, facts)
  {
    if streams != [] {
      var n := |streams| - 1;
      DeadAreCommitted(sticky, streams[..n], active, facts);
      DeadExactly(streams[n], active, facts);
      OneMoreIsCommitted(sticky, CommittedAll(sticky, streams[..n], active, facts), streams, active, facts);
    }
  }

  lemma OneMoreIsCommitted(sticky: Sticky, init: Sticky, streams: seq<Stream>, active: Execution,
                           facts: map<nat, SessionStatus>)
    requires DistinctSessions(streams) && streams != []
    requires CommitsExactlyTheDead(sticky, init, streams[..|streams| - 1], active, facts)
    ensures CommitsExactlyTheDead(sticky, Committed(init, streams[|streams| - 1], active, facts), streams, active,
                                  facts)
  {
    var n := |streams| - 1;
    var after := Committed(init, streams[n], active, facts);
    DeadExactly(streams[n], active, facts);
    forall i | 0 <= i < |streams| && Dies(streams[i], active, facts)
      ensures OpenTurnOf(streams[i]) in after
      ensures after[OpenTurnOf(streams[i])] == DeadTurn(streams[i].session, streams[i].lifecycle.active.value)
    {
      assert i < n ==> streams[..n][i] == streams[i];
    }
    forall key | key in after && !DiesAs(key, streams, active, facts)
      ensures key in sticky && after[key] == sticky[key]
    {
      DiesAsFurther(key, streams, active, facts);
    }
  }

  lemma DiesAsFurther(key: (SessionId, nat), streams: seq<Stream>, active: Execution, facts: map<nat, SessionStatus>)
    requires streams != []
    ensures var last := streams[|streams| - 1];
            DiesAs(key, streams, active, facts) <==>
              || DiesAs(key, streams[..|streams| - 1], active, facts)
              || (Dies(last, active, facts) && OpenTurnOf(last) == key)
  {
    var init := streams[..|streams| - 1];
    if DiesAs(key, init, active, facts) {
      var i :| 0 <= i < |init| && Dies(init[i], active, facts) && OpenTurnOf(init[i]) == key;
      assert streams[i] == init[i];
    }
    if DiesAs(key, streams, active, facts) {
      var i :| 0 <= i < |streams| && Dies(streams[i], active, facts) && OpenTurnOf(streams[i]) == key;
      assert i < |init| ==> init[i] == streams[i];
    }
  }

  /** An open turn of the execution in control, or of an unknown one, has no terminal edge in its session's part
      unless its failure had been committed before. */
  ghost predicate SparesTheLiving(part: seq<Edge>, stream: Stream, sticky: Sticky, active: Execution,
                                  facts: map<nat, SessionStatus>) {
    stream.lifecycle.active.Some? && !Dies(stream, active, facts) ==>
      TerminalsAt(part, Some(stream.lifecycle.active.value.seqNo)) ==
        if OpenTurnOf(stream) in sticky then [sticky[OpenTurnOf(stream)]] else []
  }

  lemma OpenTurnHasNoTerminal(stream: Stream)
    requires Distinct(stream.lifecycle) && stream.lifecycle.active.Some?
    ensures TerminalsAt(Observed(stream), Some(stream.lifecycle.active.value.seqNo)) == []
  {
    var lifecycle, n := stream.lifecycle, stream.lifecycle.active.value.seqNo;
    var turns := TurnsOf(lifecycle, stream.openings);
    var open := Turn(n, Some(lifecycle.active.value.at), None);
    assert turns[|turns| - 1] == open;
    assert TurnAt(turns, n, open);
    EachTurnEndsOnce(lifecycle, stream.openings, n);
    SessionKeepsTerminals(EdgesOfAll(Sort(turns, TurnLe)), stream.session, Some(n));
  }

  lemma LivingAreSpared(part: seq<Edge>, streams: seq<Stream>, i: nat, sticky: Sticky, failures: Sticky,
                        active: Execution, facts: map<nat, SessionStatus>)
    requires DistinctSessions(streams) && i < |streams| && Settled(part, streams[i], failures)
    requires CommitsExactlyTheDead(sticky, failures, streams, active, facts)
    ensures SparesTheLiving(part, streams[i], sticky, active, facts)
  {
    var stream := streams[i];
    if stream.lifecycle.active.Some? && !Dies(stream, active, facts) {
      OpenTurnHasNoTerminal(stream);
      assert !DiesAs(OpenTurnOf(stream), streams, active, facts);
    }
  }

  method ProjectNext(streams: seq<Stream>, i: nat, ghost sticky: Sticky, edges: seq<Edge>, failures: Sticky,
                     ghost parts: seq<seq<Edge>>, active: Execution, facts: map<nat, SessionStatus>)
    returns (edges': seq<Edge>, failures': Sticky, ghost parts': seq<seq<Edge>>)
    requires DistinctSessions(streams) && i < |streams| && ValidSticky(failures)
    requires failures == CommittedAll(sticky, streams[..i], active, facts)
             && Projected(edges, parts, streams[..i], failures)
    ensures failures' == CommittedAll(sticky, streams[..i + 1], active, facts) && ValidSticky(failures')
    ensures Projected(edges', parts', streams[..i + 1], failures')
  {
    assert streams[..i + 1] == streams[..i] + [streams[i]] && streams[..i + 1][..i] == streams[..i];
    failures' := CommitDeadTurn(streams[i], failures, active, facts);
    var part := ProjectStream(streams[i], failures');
    ProjectedFurther(edges, parts, streams[..i], failures, streams[i], failures', part);
    edges', parts' := edges + part, parts + [part];
  }

  method CommitDeadTurn(stream: Stream, sticky: Sticky, active: Execution, facts: map<nat, SessionStatus>)
    returns (more: Sticky)
    requires ValidSticky(sticky)
    ensures more == Committed(sticky, stream, active, facts) && ValidSticky(more)
    ensures forall k: (SessionId, nat) :: k.0 != stream.session ==>
              (k in more <==> k in sticky) && (k in sticky ==> more[k] == sticky[k])
  {
    var turn := stream.lifecycle.active;
    more := sticky;
    if turn.Some? && ActiveTurnIsDead(turn.value, active, facts) {
      more := more[(stream.session, turn.value.seqNo) := DeadTurn(stream.session, turn.value)];
    }
  }

  lemma ProjectedFurther(edges: seq<Edge>, parts: seq<seq<Edge>>, streams: seq<Stream>, before: Sticky,
                         stream: Stream, after: Sticky, part: seq<Edge>)
    requires Projected(edges, parts, streams, before) && Settled(part, stream, after)
    requires forall i :: 0 <= i < |streams| ==> streams[i].session != stream.session
    requires forall k: (SessionId, nat) :: k.0 != stream.session ==>
               (k in after <==> k in before) && (k in before ==> after[k] == before[k])
    ensures Projected(edges + part, parts + [part], streams + [stream], after)
  {
    assert (parts + [part])[..|parts|] == parts;
    forall k | 0 <= k < |parts| ensures Settled(parts[k], streams[k], after) {
      SettledElsewhere(parts[k], streams[k], before, after, stream.session);
    }
  }

  // Another session's failures leave this one as it was.
  lemma SettledElsewhere(edges: seq<Edge>, stream: Stream, before: Sticky, after: Sticky, other: SessionId)
    requires Settled(edges, stream, before) && stream.session != other
    requires forall k: (SessionId, nat) :: k.0 != other ==>
               (k in after <==> k in before) && (k in before ==> after[k] == before[k])
    ensures Settled(edges, stream, after)
  {
  }

  // ----- Finality -----

  // An open turn is reported with the moment it was first reported with.
  ghost predicate Steady(sticky: Sticky, streams: seq<Stream>) {
    forall i :: 0 <= i < |streams| && streams[i].lifecycle.active.Some? ==>
      var key := (streams[i].session, streams[i].lifecycle.active.value.seqNo);
      key in sticky ==> sticky[key].at == streams[i].lifecycle.active.value.at
  }

  /** A failure once committed stays: later projections may commit more, and change none. */
  lemma {:induction false} FailuresAreFinal(sticky: Sticky, streams: seq<Stream>, active: Execution,
                                            facts: map<nat, SessionStatus>)
    requires DistinctSessions(streams) && ValidSticky(sticky) && Steady(sticky, streams)
    ensures var later := CommittedAll(sticky, streams, active, facts);
            forall k :: k in sticky ==> k in later && later[k] == sticky[k]
    ensures var later := CommittedAll(sticky, streams, active, facts);
            forall k :: k in later && k !in sticky ==> exists i :: 0 <= i < |streams| && streams[i].session == k.0
  {
    if streams != [] {
      var n := |streams| - 1;
      FailuresAreFinal(sticky, streams[..n], active, facts);
      var init := CommittedAll(sticky, streams[..n], active, facts);
      forall k | k in init && k !in sticky ensures exists i :: 0 <= i < n && streams[i].session == k.0 {
        var i :| 0 <= i < |streams[..n]| && streams[..n][i].session == k.0;
      }
    }
  }

  // ----- No edge appears twice in a projection -----

  ghost predicate NoRepeat(edges: seq<Edge>) {
    forall i, j :: 0 <= i < j < |edges| ==> edges[i] != edges[j]
  }

  lemma {:induction false} TerminalIsCounted(edges: seq<Edge>, i: nat)
    requires i < |edges|
    ensures edges[i].TurnStarted? ==> edges[i] in Starts(edges)
    ensures !edges[i].TurnStarted? ==> edges[i] in TerminalsAt(edges, SeqOf(edges[i]))
  {
    if i < |edges| - 1 {
      TerminalIsCounted(edges[..|edges| - 1], i);
    }
  }

  lemma ApartInConcat(a: seq<Edge>, b: seq<Edge>)
    requires NoRepeat(a + b)
    ensures forall e :: e in a ==> e !in b
  {
    forall i, j | 0 <= i < |a| && 0 <= j < |b| ensures a[i] != b[j] {
      assert (a + b)[i] == a[i] && (a + b)[|a| + j] == b[j];
    }
  }

  lemma RepeatShows(edges: seq<Edge>)
    requires NoRepeat(Starts(edges)) && forall n :: |TerminalsAt(edges, n)| <= 1
    ensures NoRepeat(edges)
  {
    forall i, j | 0 <= i < j < |edges| ensures edges[i] != edges[j] {
      var head, tail := edges[..j], edges[j..];
      assert edges == head + tail && head[i] == edges[i] && tail[0] == edges[j];
      TerminalIsCounted(head, i);
      TerminalIsCounted(tail, 0);
      StartsConcat(head, tail);
      ApartInConcat(Starts(head), Starts(tail));
      TerminalsConcat(head, tail, SeqOf(edges[i]));
    }
  }

  lemma OneTurnsEdges(turn: Turn)
    requires turn.terminal.Some? ==> !turn.terminal.value.TurnStarted? && SeqOf(turn.terminal.value) == Some(turn.seqNo)
    ensures Starts(EdgesOf(turn)) == if turn.start.Some? then [TurnStarted(0, turn.seqNo, turn.start.value)] else []
    ensures TerminalsAt(EdgesOf(turn), None) == []
  {
    var start := if turn.start.Some? then [TurnStarted(0, turn.seqNo, turn.start.value)] else [];
    var end := if turn.terminal.Some? then [turn.terminal.value] else [];
    StartsConcat(start, end);
    TerminalsConcat(start, end, None);
  }

  // A start of one of these turns, before it is given its session.
  ghost predicate OpensOneOf(e: Edge, turns: seq<Turn>) {
    e.TurnStarted? && e.session == 0 && HasTurn(turns, e.seqNo)
  }

  ghost predicate HasTurn(turns: seq<Turn>, n: nat) {
    exists i :: 0 <= i < |turns| && turns[i].seqNo == n
  }

  lemma HasTurnFurther(turns: seq<Turn>, n: nat)
    requires turns != [] && HasTurn(turns[..|turns| - 1], n)
    ensures HasTurn(turns, n) && (DistinctTurns(turns) ==> n != turns[|turns| - 1].seqNo)
  {
    var i :| 0 <= i < |turns| - 1 && turns[..|turns| - 1][i].seqNo == n;
    assert turns[i].seqNo == n;
  }

  lemma {:induction false} StartsOfTurns(turns: seq<Turn>)
    requires DistinctTurns(turns) && Consistent(turns)
    ensures NoRepeat(Starts(EdgesOfAll(turns)))
    ensures forall e :: e in Starts(EdgesOfAll(turns)) ==> OpensOneOf(e, turns)
  {
    if turns != [] {
      var k := |turns| - 1;
      var init, own := Starts(EdgesOfAll(turns[..k])), Starts(EdgesOf(turns[k]));
      StartsOfTurns(turns[..k]);
      StartsConcat(EdgesOfAll(turns[..k]), EdgesOf(turns[k]));
      OneTurnsEdges(turns[k]);
      assert HasTurn(turns, turns[k].seqNo);
      forall e | e in init ensures OpensOneOf(e, turns) && e !in own {
        HasTurnFurther(turns, e.seqNo);
      }
      JoinApart(init, own);
    }
  }

  lemma {:induction false} NoNullTerminal(turns: seq<Turn>)
    requires Consistent(turns)
    ensures TerminalsAt(EdgesOfAll(turns), None) == []
  {
    if turns != [] {
      var k := |turns| - 1;
      NoNullTerminal(turns[..k]);
      TerminalsConcat(EdgesOfAll(turns[..k]), EdgesOf(turns[k]), None);
      OneTurnsEdges(turns[k]);
    }
  }

  lemma ObservedDoesNotRepeat(stream: Stream)
    requires Distinct(stream.lifecycle)
    ensures NoRepeat(Starts(Observed(stream))) && TerminalsAt(Observed(stream), None) == []
  {
    var turns := Sort(TurnsOf(stream.lifecycle, stream.openings), TurnLe);
    TurnsAreDistinct(stream.lifecycle, stream.openings);
    SortKeepsTurns(TurnsOf(stream.lifecycle, stream.openings));
    StartsOfTurns(turns);
    NoNullTerminal(turns);
    SessionKeepsStarts(EdgesOfAll(turns), stream.session);
    SessionKeepsTerminals(EdgesOfAll(turns), stream.session, None);
    SessionPointwise(Starts(EdgesOfAll(turns)), stream.session);
    StartsStayApart(Starts(EdgesOfAll(turns)), stream.session);
  }

  // Starts of one session all carry the placeholder session before they are given theirs.
  lemma StartsStayApart(starts: seq<Edge>, session: SessionId)
    requires NoRepeat(starts) && forall e :: e in starts ==> e.TurnStarted? && e.session == 0
    ensures NoRepeat(AllInSession(starts, session))
  {
    SessionPointwise(starts, session);
  }

  /** A session's part of a projection holds no edge twice. */
  lemma PartDoesNotRepeat(edges: seq<Edge>, stream: Stream, sticky: Sticky)
    requires Distinct(stream.lifecycle) && Settled(edges, stream, sticky)
    ensures NoRepeat(edges)
  {
    ObservedDoesNotRepeat(stream);
    forall n ensures |TerminalsAt(edges, n)| <= 1 {
      if n.Some? {
        ObservedEndsOnce(stream, n.value);
      }
    }
    RepeatShows(edges);
  }

  lemma {:induction false} JoinedDoesNotRepeat(parts: seq<seq<Edge>>, streams: seq<Stream>, sticky: Sticky)
    requires DistinctSessions(streams) && Projected(Joined(parts), parts, streams, sticky)
    ensures NoRepeat(Joined(parts))
    ensures forall e :: e in Joined(parts) ==> exists i :: 0 <= i < |streams| && streams[i].session == e.session
  {
    if parts != [] {
      var n := |parts| - 1;
      JoinedDoesNotRepeat(parts[..n], streams[..n], sticky);
      PartDoesNotRepeat(parts[n], streams[n], sticky);
      forall e | e in Joined(parts[..n]) ensures exists i :: 0 <= i < n && streams[i].session == e.session {
        var i :| 0 <= i < |streams[..n]| && streams[..n][i].session == e.session;
        assert streams[i].session == e.session;
      }
      forall e | e in parts[n] ensures e.session == streams[n].session && e !in Joined(parts[..n]) {
      }
      JoinApart(Joined(parts[..n]), parts[n]);
    }
  }

  lemma JoinApart(a: seq<Edge>, b: seq<Edge>)
    requires NoRepeat(a) && NoRepeat(b) && forall e :: e in b ==> e !in a
    ensures NoRepeat(a + b)
  {
    forall i, j | 0 <= i < j < |a + b| ensures (a + b)[i] != (a + b)[j] {
      if i < |a| <= j {
        assert (a + b)[i] in a && (a + b)[j] in b;
      }
    }
  }

  // ----- Publishing -----

  // The edges of a projection that are not accounted for yet, in order.
  function Unpublished(edges: seq<Edge>, published: set<Edge>): seq<Edge> {
    if edges == [] then []
    else Unpublished(edges[..|edges| - 1], published)
         + if edges[|edges| - 1] in published then [] else [edges[|edges| - 1]]
  }

  lemma {:induction false} UnpublishedAre(edges: seq<Edge>, published: set<Edge>)
    ensures forall e :: e in Unpublished(edges, published) <==> e in edges && e !in published
    ensures NoRepeat(edges) ==> NoRepeat(Unpublished(edges, published))
  {
    if edges != [] {
      UnpublishedAre(edges[..|edges| - 1], published);
      assert edges == edges[..|edges| - 1] + [edges[|edges| - 1]];
    }
  }

  predicate IsProcessFailure(edge: Edge) {
    edge.TurnFailed? && edge.reason == SessionDied
  }

  // Recovered history is absorbed rather than announced, except a process failure nobody has seen.
  predicate IsAbsorbed(edge: Edge, recovered: set<SessionId>, published: set<Edge>, processFailures: bool) {
    edge.session in recovered && !(processFailures && IsProcessFailure(edge) && edge !in published)
  }

  // No edge is announced twice, and none is both absorbed and announced.
  ghost predicate Accounts(announced: seq<Edge>, absorbed: set<Edge>, published: set<Edge>) {
    && NoRepeat(announced)
    && (forall e :: e in published <==> e in announced || e in absorbed)
    && (forall e :: e in announced ==> e !in absorbed)
  }

  lemma AnnouncedMore(announced: seq<Edge>, absorbed: set<Edge>, published: set<Edge>, unseen: seq<Edge>)
    requires Accounts(announced, absorbed, published) && NoRepeat(unseen) && forall e :: e in unseen ==> e !in published
    ensures Accounts(announced + unseen, absorbed, published + set e | e in unseen)
    ensures Accounts(announced, absorbed + (set e | e in unseen), published + set e | e in unseen)
  {
    JoinApart(announced, unseen);
  }

  lemma DropOfConcat(log: seq<Edge>, from: nat, more: seq<Edge>)
    requires from <= |log|
    ensures (log + more)[from..] == log[from..] + more
  {
  }

  method NewProcessFailures(found: seq<Edge>, previous: set<Edge>, processFailures: bool) returns (failures: seq<Edge>)
    requires NoRepeat(found)
    ensures NoRepeat(failures)
    ensures forall e :: e in failures <==> processFailures && e in found && IsProcessFailure(e) && e !in previous
  {
    failures := [];
    for i := 0 to |found|
      invariant NoRepeat(failures)
      invariant forall e :: e in failures <==>
                  processFailures && e in found[..i] && IsProcessFailure(e) && e !in previous
    {
      assert found[..i + 1] == found[..i] + [found[i]];
      assert found[i] !in found[..i];
      if processFailures && IsProcessFailure(found[i]) && found[i] !in previous {
        failures := failures + [found[i]];
      }
    }
    assert found[..|found|] == found;
  }

  class EdgePublisher {
    var sticky: Sticky
    var edges: seq<Edge>
    var published: set<Edge>
    // Every edge announced, oldest first.
    var log: seq<Edge>

    // Where the last baseline stands in the log, and what has been taken as known without announcing it.
    ghost var baseline: nat
    ghost var absorbed: set<Edge>

    constructor ()
      ensures Valid() && log == []
    {
      sticky, edges, published, log, baseline, absorbed := map[], [], {}, [], 0, {};
    }

    // Since the baseline every edge is accounted for once.
    ghost predicate Valid()
      reads this
    {
      ValidSticky(sticky) && baseline <= |log| && Accounts(log[baseline..], absorbed, published)
    }

    method AbsorbRecovered(found: seq<Edge>, recovered: set<SessionId>, processFailures: bool)
      requires Valid()
      modifies this`published, this`absorbed
      ensures Valid() && old(absorbed) <= absorbed
      ensures forall e :: e in published <==>
                e in old(published) || (e in found && IsAbsorbed(e, recovered, old(published), processFailures))
    {
      for i := 0 to |found|
        invariant Valid() && old(absorbed) <= absorbed
        invariant forall e :: e in published <==>
                    e in old(published)
                    || (e in found[..i] && IsAbsorbed(e, recovered, old(published), processFailures))
      {
        assert found[..i + 1] == found[..i] + [found[i]];
        var edge := found[i];
        var isNewProcessFailure := processFailures && IsProcessFailure(edge) && edge !in published;
        if edge.session in recovered && !isNewProcessFailure {
          if edge !in published {
            absorbed := absorbed + {edge};
          }
          published := published + {edge};
        }
      }
      assert found[..|found|] == found;
    }

    /** Exactly the edges of the projection that were neither announced nor absorbed are announced, in
        order; with publishing off they are absorbed. */
    method RecomputeAndPublish(streams: seq<Stream>, active: Execution, facts: map<nat, SessionStatus>,
                               recovered: set<SessionId>, publish: bool, processFailures: bool)
      returns (ghost parts: seq<seq<Edge>>)
      requires Valid() && DistinctSessions(streams)
      modifies this
      ensures Valid() && baseline == old(baseline) && old(absorbed) <= absorbed
      ensures sticky == CommittedAll(old(sticky), streams, active, facts) && Projected(edges, parts, streams, sticky)
      ensures forall e :: e in edges ==> e in published
      ensures old(log) <= log && (!publish ==> log == old(log))
      ensures CommitsExactlyTheDead(old(sticky), sticky, streams, active, facts)
      ensures publish ==> forall e :: e in log[|old(log)|..] <==>
                && e in edges && e !in old(published)
                && (e.session !in recovered || (processFailures && e.TurnFailed? && e.reason == SessionDied))
      ensures Ordered(log[|old(log)|..], edges)
    {
      var found;
      found, sticky, parts := ProjectAgent(streams, sticky, active, facts);
      JoinedDoesNotRepeat(parts, streams, sticky);
      AbsorbRecovered(found, recovered, processFailures);
      Announce(found, publish);
      edges := found;
    }

    /** A fresh baseline: everything projected counts as known. Of it, only process failures that were not
        published before the rebuild are announced. A rebase also forgets committed failures. */
    method RebuildBaseline(streams: seq<Stream>, active: Execution, facts: map<nat, SessionStatus>,
                           rebased: bool, processFailures: bool)
      returns (ghost parts: seq<seq<Edge>>)
      requires Valid() && DistinctSessions(streams)
      modifies this
      ensures Valid() && baseline == |old(log)| && old(log) <= log
      ensures sticky == CommittedAll(if rebased then map[] else old(sticky), streams, active, facts)
      ensures CommitsExactlyTheDead(if rebased then map[] else old(sticky), sticky, streams, active, facts)
      ensures Projected(edges, parts, streams, sticky)
      ensures forall e :: e in published <==> e in edges
      ensures forall e :: e in log[baseline..] <==>
                processFailures && e in edges && e.TurnFailed? && e.reason == SessionDied && e !in old(published)
    {
      var found;
      found, sticky, parts := ProjectAgent(streams, if rebased then map[] else sticky, active, facts);
      JoinedDoesNotRepeat(parts, streams, sticky);
      var failures := NewProcessFailures(found, published, processFailures);
      StartAgain(found, failures);
      edges := found;
    }

    // Everything found counts as known; `failures` are the part of it that is announced.
    method StartAgain(found: seq<Edge>, failures: seq<Edge>)
      requires Valid() && NoRepeat(failures) && forall e :: e in failures ==> e in found
      modifies this`published, this`log, this`baseline, this`absorbed
      ensures Valid() && baseline == |old(log)| && old(log) <= log && log[baseline..] == failures
      ensures forall e :: e in published <==> e in found
    {
      DropOfConcat(log, |log|, failures);
      published := set e | e in found;
      baseline, absorbed := |log|, published - set e | e in failures;
      log := log + failures;
    }

    method Announce(found: seq<Edge>, publish: bool)
      requires Valid() && NoRepeat(found)
      modifies this`published, this`absorbed, this`log
      ensures Valid() && old(absorbed) <= absorbed
      ensures forall e :: e in published <==> e in old(published) || e in found
      ensures log == old(log) + if publish then Unpublished(found, old(published)) else []
      ensures forall e :: e in log[|old(log)|..] <==> publish && e in found && e !in old(published)
      ensures Ordered(log[|old(log)|..], found)
    {
      var unseen := Fresh(found);
      UnpublishedAre(found, published);
      UnpublishedIsOrdered(found, published);
      Account(unseen, publish);
      DropOfConcat(old(log), |old(log)|, if publish then unseen else []);
    }

    method Account(unseen: seq<Edge>, publish: bool)
      requires Valid() && NoRepeat(unseen) && forall e :: e in unseen ==> e !in published
      modifies this`published, this`absorbed, this`log
      ensures Valid() && old(absorbed) <= absorbed && published == old(published) + set e | e in unseen
      ensures log == old(log) + if publish then unseen else []
    {
      AnnouncedMore(log[baseline..], absorbed, published, unseen);
      published := published + set e | e in unseen;
      if publish {
        DropOfConcat(log, baseline, unseen);
        log := log + unseen;
      } else {
        absorbed := absorbed + set e | e in unseen;
      }
    }

    method Fresh(found: seq<Edge>) returns (unseen: seq<Edge>)
      ensures unseen == Unpublished(found, published)
    {
      unseen := [];
      for i := 0 to |found|
        invariant unseen == Unpublished(found[..i], published)
      {
        assert found[..i + 1][..i] == found[..i];
        if found[i] !in published {
          unseen := unseen + [found[i]];
        }
      }
      assert found[..|found|] == found;
    }
  }

  // In the same order as in the other sequence.
  ghost predicate Ordered(some: seq<Edge>, all: seq<Edge>) {
    forall i, j :: 0 <= i < j < |some| ==> exists a, b :: 0 <= a < b < |all| && all[a] == some[i] && all[b] == some[j]
  }

  lemma {:induction false} UnpublishedIsOrdered(edges: seq<Edge>, published: set<Edge>)
    ensures Ordered(Unpublished(edges, published), edges) && Ordered([], edges)
  {
    if edges != [] {
      var n := |edges| - 1;
      var init, some := Unpublished(edges[..n], published), Unpublished(edges, published);
      UnpublishedIsOrdered(edges[..n], published);
      UnpublishedAre(edges[..n], published);
      forall i, j | 0 <= i < j < |some|
        ensures exists a, b :: 0 <= a < b < |edges| && edges[a] == some[i] && edges[b] == some[j]
      {
        if j < |init| {
          var a, b :| 0 <= a < b < |edges[..n]| && edges[..n][a] == init[i] && edges[..n][b] == init[j];
          assert edges[a] == some[i] && edges[b] == some[j];
        } else {
          assert some[i] == init[i] && init[i] in edges[..n];
          var a :| 0 <= a < n && edges[a] == some[i];
          assert edges[n] == some[j];
        }
      }
    }
  }
}
