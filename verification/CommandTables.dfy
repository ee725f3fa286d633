/**
 The two command tables, updated in place (apps/runtime/src/commands/repository.ts).

 Both tables hold every command's rows. `View` selects one command's record, and each method
 is one transaction: it changes that record as `CommandStore` says and no other command's.
 */
module CommandTables {
  import opened Optional
  import opened Outcomes
  import opened CommandStore

  datatype RunRecord = RunRecord(target: Target, row: RunRow)

  // What a finalizer actually changed, so that only real transitions are announced.
  datatype FinalizeResult = FinalizeResult(run: Option<RunId>, runCompleted: bool, stateTransitioned: bool)

  datatype PtyLink = PtyLink(target: Target, pid: Pid)

  class CommandRepository {
    var states: map<Target, StateRow>
    var runs: map<RunId, RunRecord>
    var nextRunId: RunId

    constructor ()
      ensures Valid() && nextRunId == 0
      ensures forall t :: View(t) == EMPTY_COMMAND
    {
      states, runs, nextRunId := map[], map[], 0;
    }

    ghost predicate Valid()
      reads this
    {
      forall id :: id in runs ==> id < nextRunId
    }

    function View(t: Target): Command
      reads this
    {
      Command(if t in states then Some(states[t]) else None,
              map id | id in runs && runs[id].target == t :: runs[id].row)
    }

    // ----- Reads -----

    method FindState(t: Target) returns (state: Option<StateRow>)
      ensures state == View(t).state
    {
      state := if t in states then Some(states[t]) else None;
    }

    method FindLatestRun(t: Target) returns (id: Option<RunId>)
      ensures id == Newest(View(t).runs)
    {
      var ids := set i | i in runs && runs[i].target == t;
      assert ids == View(t).runs.Keys;
      id := SelectNewest(ids);
    }

    method FindRunByPtyProcess(pid: Pid) returns (id: Option<RunId>)
      ensures id.None? <==> forall t :: NewestLinked(View(t).runs, pid).None?
      ensures id.Some? ==> id.value in runs && NewestLinked(View(runs[id.value].target).runs, pid) == id
    {
      var ids := set i | i in runs && runs[i].row.link == Some(pid);
      id := SelectNewest(ids);
      if id.Some? {
        var mine := View(runs[id.value].target).runs;
        assert id.value in mine && mine[id.value].link == Some(pid);
        assert NewestLinked(mine, pid).value in ids;
      } else {
        assert forall i :: i in runs ==> i !in ids;
      }
    }

    // Every incarnation any row names, once.
    method ListCommandPtyLinks() returns (links: seq<PtyLink>)
      ensures Distinct(links)
      ensures forall link :: link in links <==> HasLink(View(link.target), link.pid)
    {
      var states, runs := states, runs;
      var targets := SequenceOf(states.Keys);
      var ids := SequenceOf(runs.Keys);
      var stateLinks: seq<(Target, Option<Pid>)> :=
            seq(|targets|, i requires 0 <= i < |targets| => (targets[i], states[targets[i]].pointer));
      var runLinks: seq<(Target, Option<Pid>)> :=
            seq(|ids|, i requires 0 <= i < |ids| => (runs[ids[i]].target, runs[ids[i]].row.link));
      links := DistinctCommandPtyLinks([stateLinks, runLinks]);
      forall link
        ensures link in links <==> HasLink(View(link.target), link.pid)
      {
        var row := (link.target, Some(link.pid));
        assert row in stateLinks <==> Pointer(View(link.target)) == Some(link.pid) by {
          if link.target in targets {
            var i :| 0 <= i < |targets| && targets[i] == link.target;
            assert stateLinks[i] == (link.target, states[link.target].pointer);
          }
        }
        RunLinksNameTheirRuns(ids, runs, runLinks, link);
      }
    }

    lemma RunLinksNameTheirRuns(ids: seq<RunId>, runs: map<RunId, RunRecord>, runLinks: seq<(Target, Option<Pid>)>,
                                link: PtyLink)
      requires runs == this.runs && |runLinks| == |ids| && forall id :: id in ids <==> id in runs
      requires forall i :: 0 <= i < |ids| ==> runLinks[i] == (runs[ids[i]].target, runs[ids[i]].row.link)
      ensures (link.target, Some(link.pid)) in runLinks <==>
              exists id :: id in View(link.target).runs && View(link.target).runs[id].link == Some(link.pid)
    {
      var mine := View(link.target).runs;
      if id :| id in mine && mine[id].link == Some(link.pid) {
        var i :| 0 <= i < |ids| && ids[i] == id;
        assert runLinks[i] == (link.target, Some(link.pid));
      }
      if (link.target, Some(link.pid)) in runLinks {
        var i :| 0 <= i < |ids| && runLinks[i] == (link.target, Some(link.pid));
        assert mine[ids[i]].link == Some(link.pid);
      }
    }

    // ----- State transactions -----

    method TransitionState(t: Target, status: CommandStatus, pointer: Option<Pid>)
      requires Valid()
      modifies this`states
      ensures Valid() && View(t) == WriteState(old(View(t)), status, pointer)
      ensures forall u :: u != t ==> View(u) == old(View(u))
    {
      WriteCommandState(t, status, Some(pointer), None);
    }

    method MarkLaunchInProgress(t: Target, ports: Ports)
      requires Valid()
      modifies this`states
      ensures Valid() && View(t) == MarkLaunch(old(View(t)), ports)
      ensures forall u :: u != t ==> View(u) == old(View(u))
    {
      WriteCommandState(t, Running, Some(None), Some(ports));
    }

    // Shared by the two above. A column the caller does not name keeps what it held; only the marker
    // names the ports.
    method WriteCommandState(t: Target, status: CommandStatus, pointer: Option<Option<Pid>>, ports: Option<Ports>)
      requires Valid()
      modifies this`states
      ensures Valid()
      ensures var before := old(View(t));
              View(t) == before.(state := Some(StateRow(status,
                                                        if pointer.Some? then pointer.value else Pointer(before),
                                                        if ports.Some? then ports else PortsOf(before))))
      ensures forall u :: u != t ==> View(u) == old(View(u))
    {
      if t !in states {
        states := states[t := StateRow(status, if pointer.Some? then pointer.value else None, ports)];
      } else {
        var existing := states[t];
        states := states[t := StateRow(status,
                                       if pointer.None? then existing.pointer else pointer.value,
                                       if ports.None? then existing.ports else ports)];
      }
    }

    // ----- Run transactions -----

    method CreateRun(t: Target, status: RunStatus, diagnostic: Option<DiagnosticReason>) returns (id: RunId)
      requires Valid()
      modifies this`runs, this`nextRunId
      ensures Valid() && id == old(nextRunId) && nextRunId == id + 1
      ensures View(t) == CommandStore.CreateRun(old(View(t)), id, status, diagnostic)
      ensures forall u :: u != t ==> View(u) == old(View(u))
    {
      id := InsertRun(t, RunRow(status, None, diagnostic));
    }

    method InsertRun(t: Target, row: RunRow) returns (id: RunId)
      requires Valid()
      modifies this`runs, this`nextRunId
      ensures Valid() && id == old(nextRunId) && nextRunId == id + 1
      ensures View(t) == old(View(t)).(runs := old(View(t)).runs[id := row])
      ensures forall u :: u != t ==> View(u) == old(View(u))
    {
      id := nextRunId;
      runs, nextRunId := runs[id := RunRecord(t, row)], nextRunId + 1;
      forall u | u != t
        ensures View(u) == old(View(u))
      {
        assert View(u).runs == old(View(u)).runs;
      }
      assert View(t).runs == old(View(t)).runs[id := row];
    }

    method UpdateRow(id: RunId, row: RunRow)
      requires Valid() && id in runs
      modifies this`runs
      ensures Valid() && runs.Keys == old(runs.Keys) && runs[id] == RunRecord(old(runs[id]).target, row)
      ensures forall u :: View(u) == if u == runs[id].target
                                     then old(View(u)).(runs := old(View(u)).runs[id := row]) else old(View(u))
    {
      runs := runs[id := RunRecord(runs[id].target, row)];
      forall u
        ensures View(u).runs == if u == runs[id].target then old(View(u)).runs[id := row] else old(View(u)).runs
      {
      }
    }

    method UpdateRunPty(id: RunId, pid: Pid) returns (found: bool)
      requires Valid()
      modifies this`runs
      ensures Valid() && found == (id in old(runs))
      ensures forall u :: View(u) == if id in old(View(u)).runs then LinkRun(old(View(u)), id, pid) else old(View(u))
    {
      found := id in runs;
      if found {
        UpdateRow(id, runs[id].row.(link := Some(pid)));
      }
    }

    method CompleteRun(id: RunId, status: RunStatus, diagnostic: Option<DiagnosticReason>) returns (found: bool)
      requires Valid()
      modifies this`runs
      ensures Valid() && found == (id in old(runs))
      ensures forall u :: View(u) == if id in old(View(u)).runs
                                     then CommandStore.CompleteRun(old(View(u)), id, status, diagnostic)
                                       else old(View(u))
    {
      found := id in runs;
      if found {
        UpdateRow(id, runs[id].row.(status := status, diagnostic := diagnostic));
      }
    }

    method PruneRunHistory(t: Target, keep: nat) returns (deleted: set<RunId>)
      requires Valid()
      modifies this`runs
      ensures Valid() && View(t) == Prune(old(View(t)), keep)
      ensures deleted == old(View(t)).runs.Keys - View(t).runs.Keys
      ensures forall u :: u != t ==> View(u) == old(View(u))
    {
      var mine := set id | id in runs && runs[id].target == t;
      assert mine == View(t).runs.Keys;
      deleted := set id | id in mine && |Newer(mine, id)| >= keep;
      runs := map id | id in runs && id !in deleted :: runs[id];
      assert View(t).runs == Prune(old(View(t)), keep).runs;
      forall u | u != t
        ensures View(u).runs == old(View(u)).runs
      {
      }
    }

    // ----- The atomic finalizers -----

    method FinalizeRunAndStateByPty(t: Target, pid: Pid, outcome: Outcome) returns (result: FinalizeResult)
      requires Valid()
      modifies this`states, this`runs
      ensures Valid() && View(t) == FinalizeByPty(old(View(t)), pid, outcome)
      ensures result.stateTransitioned == (Pointer(old(View(t))) == Some(pid))
      ensures result.run == NewestLinked(old(View(t)).runs, pid)
      ensures forall u :: u != t ==> View(u) == old(View(u))
    {
      var ids := set id | id in runs && runs[id].target == t && runs[id].row.link == Some(pid);
      var existing := SelectNewest(ids);
      assert existing == NewestLinked(View(t).runs, pid) by {
        assert forall id :: id in ids <==> id in View(t).runs && View(t).runs[id].link == Some(pid);
      }
      result := FinalizeRunAndState(t, existing, outcome, t in states && states[t].pointer == Some(pid));
    }

    method FinalizeRunAndStateByRun(t: Target, run: RunId, outcome: Outcome) returns (result: FinalizeResult)
      requires Valid()
      modifies this`states, this`runs
      ensures Valid() && View(t) == FinalizeByRun(old(View(t)), run, outcome)
      ensures result.stateTransitioned == IsRunning(old(View(t)))
      ensures forall u :: u != t ==> View(u) == old(View(u))
    {
      // A run of another command is not this one's to finish.
      var existing := if run in runs && runs[run].target == t then Some(run) else None;
      result := FinalizeRunAndState(t, existing, outcome, t in states && states[t].status == Running);
    }

    // The shared body: two independent decisions in one transaction.
    method FinalizeRunAndState(t: Target, existing: Option<RunId>, outcome: Outcome, matches: bool)
      returns (result: FinalizeResult)
      requires Valid() && (existing.Some? ==> existing.value in View(t).runs) && (matches ==> t in states)
      modifies this`states, this`runs
      ensures Valid()
      ensures var before := old(View(t));
              var closed := if existing.Some? then CloseRun(before, existing.value, outcome) else before;
              View(t) == if matches then WriteState(closed, outcome.stateStatus, None) else closed
      ensures result == FinalizeResult(existing,
                existing.Some? && old(View(t)).runs[existing.value].status == Open, matches)
      ensures forall u :: u != t ==> View(u) == old(View(u))
    {
      var runCompleted := false;
      if existing.Some? && runs[existing.value].row.status == Open {
        var row := runs[existing.value].row;
        UpdateRow(existing.value, row.(status := outcome.runStatus, diagnostic := outcome.diagnostic));
        runCompleted := true;
      }
      var stateTransitioned := false;
      if matches {
        states := states[t := states[t].(status := outcome.stateStatus, pointer := None)];
        stateTransitioned := true;
      }
      result := FinalizeResult(existing, runCompleted, stateTransitioned);
    }

    method ReadoptCommandIncarnation(t: Target, pid: Pid, diagnostic: Option<DiagnosticReason>)
      requires Valid()
      modifies this
      ensures Valid() && View(t) == Readopt(old(View(t)), pid, diagnostic, old(nextRunId))
      ensures nextRunId == if old(View(t)).runs == map[] then old(nextRunId) + 1 else old(nextRunId)
      ensures forall u :: u != t ==> View(u) == old(View(u))
    {
      var existing := FindLatestRun(t);
      states := states[t := StateRow(Running, Some(pid), if t in states then states[t].ports else None)];
      if existing.Some? {
        var row := runs[existing.value].row;
        UpdateRow(existing.value, RunRow(Open, Some(pid), if diagnostic.Some? then diagnostic else row.diagnostic));
      } else {
        var _ := InsertRun(t, RunRow(Open, Some(pid), diagnostic));
      }
    }
  }

  // Rows in whatever order the table yields them.
  method SequenceOf<T(==)>(elements: set<T>) returns (s: seq<T>)
    ensures Distinct(s) && forall x :: x in s <==> x in elements
  {
    s := [];
    var rest := elements;
    while rest != {}
      invariant rest <= elements && Distinct(s) && forall x :: x in s <==> x in elements - rest
      decreases rest
    {
      var x :| x in rest;
      assert x !in s;
      s, rest := s + [x], rest - {x};
    }
  }

  // ORDER BY id DESC LIMIT 1.
  method SelectNewest(ids: set<RunId>) returns (id: Option<RunId>)
    ensures id.None? <==> ids == {}
    ensures id.Some? ==> id.value in ids && forall other :: other in ids ==> other <= id.value
  {
    if ids == {} {
      return None;
    }
    NewestExists(ids);
    var newest :| newest in ids && forall other :: other in ids ==> other <= newest;
    return Some(newest);
  }

  // A process that both a pointer and a run name is listed once.
  method DistinctCommandPtyLinks(sources: seq<seq<(Target, Option<Pid>)>>) returns (links: seq<PtyLink>)
    ensures Distinct(links)
    ensures forall link :: link in links <==>
              exists source :: source in sources && (link.target, Some(link.pid)) in source
  {
    links := [];
    for i := 0 to |sources|
      invariant Distinct(links)
      invariant forall link :: link in links <==> exists k :: 0 <= k < i && (link.target, Some(link.pid)) in sources[k]
    {
      ghost var before := links;
      for j := 0 to |sources[i]|
        invariant Distinct(links)
        invariant forall link :: link in links <==> link in before || (link.target, Some(link.pid)) in sources[i][..j]
      {
        assert sources[i][..j + 1] == sources[i][..j] + [sources[i][j]];
        if sources[i][j].1.Some? {
          var link := PtyLink(sources[i][j].0, sources[i][j].1.value);
          if link !in links {
            links := links + [link];
          }
        }
      }
      assert sources[i][..|sources[i]|] == sources[i];
    }
  }
}
