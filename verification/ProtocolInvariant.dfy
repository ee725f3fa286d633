/** The ownership invariant is kept by every step of the protocol. */
module ProtocolInvariant {
  import opened Optional
  import opened Outcomes
  import opened CommandStore
  import opened Protocol

  // ----- What each transaction does to the newest run -----

  lemma NewestAfterInsert(runs: map<RunId, RunRow>, id: RunId, row: RunRow)
    requires forall other :: other in runs ==> other < id
    ensures Newest(runs[id := row]) == Some(id)
  {
    assert id in runs[id := row];
  }

  lemma NewestAfterUpdate(runs: map<RunId, RunRow>, id: RunId, row: RunRow)
    requires id in runs
    ensures Newest(runs[id := row]) == Newest(runs)
  {
    var a, b := Newest(runs), Newest(runs[id := row]);
    assert id in runs[id := row];
    assert a.value in runs[id := row] && b.value in runs;
  }

  lemma ReadoptedNewest(c: Command, pid: Pid, diagnostic: Option<DiagnosticReason>, next: RunId)
    ensures diagnostic.Some? ==> NewestRunIs(Readopt(c, pid, diagnostic, next), RunRow(Open, Some(pid), diagnostic))
  {
    var id := Newest(c.runs);
    var c' := Readopt(c, pid, diagnostic, next);
    if id.Some? {
      NewestAfterUpdate(c.runs, id.value, c'.runs[id.value]);
    } else {
      NewestAfterInsert(c.runs, next, RunRow(Open, Some(pid), diagnostic));
    }
  }

  // ----- Each transaction keeps the row invariant -----

  lemma CompleteRunKeepsRows(r: Rows, run: RunId, status: RunStatus, diagnostic: Option<DiagnosticReason>)
    requires RowsOk(r) && run in r.command.runs && status != Open
    requires NoneLive(r.ptys) || Newest(r.command.runs) != Some(run)
    ensures var c' := CompleteRun(r.command, run, status, diagnostic);
            && RowsOk(Wrote(r, c'))
            && Newest(c'.runs) == Newest(r.command.runs) && NewestLink(c') == NewestLink(r.command)
            && (forall pid: Pid :: HasLink(c', pid) <==> HasLink(r.command, pid))
  {
    var c' := CompleteRun(r.command, run, status, diagnostic);
    NewestAfterUpdate(r.command.runs, run, c'.runs[run]);
    forall pid: Pid
      ensures HasLink(c', pid) <==> HasLink(r.command, pid)
    {
      assert forall id :: id in r.command.runs ==> id in c'.runs && c'.runs[id].link == r.command.runs[id].link;
      assert forall id :: id in c'.runs ==> id in r.command.runs;
    }
  }

  // Leaving `Running` (or rewriting another status) needs every process gone and the newest run closed.
  lemma LeaveRunningKeepsRows(r: Rows, status: CommandStatus)
    requires RowsOk(r) && NoneLive(r.ptys) && status != Running
    requires forall id :: id in r.command.runs && r.command.runs[id].status == Open ==> r.command.runs[id].link.None?
    ensures RowsOk(Wrote(r, WriteState(r.command, status, None)))
    ensures forall pid: Pid :: HasLink(WriteState(r.command, status, None), pid) ==> HasLink(r.command, pid)
  {
    var c' := WriteState(r.command, status, None);
    forall pid: Pid | HasLink(c', pid)
      ensures HasLink(r.command, pid)
    {
      var id :| id in c'.runs && c'.runs[id].link == Some(pid);
      assert id in r.command.runs && r.command.runs[id].link == Some(pid);
    }
  }

  lemma NoOpenLinkedRun(r: Rows)
    requires RowsOk(r)
    requires !IsRunning(r.command) || r.command.runs == map[]
             || r.command.runs[Newest(r.command.runs).value].status != Open
             || r.command.runs[Newest(r.command.runs).value].link.None?
    ensures forall id :: id in r.command.runs && r.command.runs[id].status == Open ==> r.command.runs[id].link.None?
  {
  }

  lemma FinalizeByRunKeepsRows(r: Rows, run: RunId, outcome: Outcome)
    requires RowsOk(r) && NoneLive(r.ptys) && Terminal(outcome) && Newest(r.command.runs) == Some(run)
    ensures var c' := FinalizeByRun(r.command, run, outcome);
            && RowsOk(Wrote(r, c'))
            && Newest(c'.runs) == Some(run) && NewestLink(c') == NewestLink(r.command)
            && !IsRunning(c') && c'.runs[run].status != Open
            && (IsRunning(r.command) ==> StatusOf(c') == outcome.stateStatus)
  {
    if r.command.runs[run].status == Open {
      CompleteRunKeepsRows(r, run, outcome.runStatus, outcome.diagnostic);
    }
    var closed := Wrote(r, CloseRun(r.command, run, outcome));
    if IsRunning(r.command) {
      NoOpenLinkedRun(closed);
      LeaveRunningKeepsRows(closed, outcome.stateStatus);
    }
  }

  lemma ReadoptKeepsRows(r: Rows, pid: Pid, diagnostic: Option<DiagnosticReason>)
    requires RowsOk(r) && HasLink(r.command, pid)
    requires forall other: Pid :: Live(r.ptys, other) ==> other == pid
    ensures var c' := Readopt(r.command, pid, diagnostic, r.nextRun);
            && RowsOk(Readopted(r, pid, diagnostic))
            && IsRunning(c') && Pointer(c') == Some(pid) && NewestLink(c') == Some(pid)
            && c'.runs[Newest(c'.runs).value].status == Open && c'.runs.Keys == r.command.runs.Keys
  {
    var c' := Readopt(r.command, pid, diagnostic, r.nextRun);
    var id := Newest(r.command.runs);
    assert id.Some?;
    NewestAfterUpdate(r.command.runs, id.value, c'.runs[id.value]);
    forall other: Pid | HasLink(c', other)
      ensures HasLink(r.command, other)
    {
      if other != pid {
        var k :| k in c'.runs && c'.runs[k].link == Some(other);
        assert k in r.command.runs && r.command.runs[k].link == Some(other);
      }
    }
  }

  // Only the newest run's process can be live, so once that one is gone nothing is.
  lemma NoneLiveUnlessNewest(r: Rows, pid: Pid)
    requires RowsOk(r) && NewestLink(r.command) == Some(pid) && !Live(r.ptys, pid)
    ensures NoneLive(r.ptys)
  {
  }

  lemma FinalizeByPtyKeepsRows(r: Rows, pid: Pid, outcome: Outcome)
    requires RowsOk(r) && !Live(r.ptys, pid) && Terminal(outcome)
    ensures var c' := FinalizeByPty(r.command, pid, outcome);
            && RowsOk(Wrote(r, c'))
            && (Pointer(r.command) == Some(pid) ==> StatusOf(c') == outcome.stateStatus)
            && (Pointer(r.command) != Some(pid) ==> c'.state == r.command.state)
  {
    var id := NewestLinked(r.command.runs, pid);
    if id.Some? && r.command.runs[id.value].status == Open {
      CompleteRunKeepsRows(r, id.value, outcome.runStatus, outcome.diagnostic) by {
        NoneLiveUnlessNewest(r, pid);
      }
    }
    var closed := Wrote(r, if id.Some? then CloseRun(r.command, id.value, outcome) else r.command);
    if Pointer(r.command) == Some(pid) {
      NoneLiveUnlessNewest(r, pid);
      NoOpenLinkedRun(closed);
      LeaveRunningKeepsRows(closed, outcome.stateStatus);
    }
  }

  lemma CreateRunKeepsRows(r: Rows, status: RunStatus, diagnostic: Option<DiagnosticReason>)
    requires RowsOk(r) && !IsRunning(r.command)
    ensures var c' := CreateRun(r.command, r.nextRun, status, diagnostic);
            RowsOk(Inserted(r, c')) && NewestIs(c', r.nextRun, status, None)
  {
    var c' := CreateRun(r.command, r.nextRun, status, diagnostic);
    NewestAfterInsert(r.command.runs, r.nextRun, c'.runs[r.nextRun]);
    forall pid: Pid | HasLink(c', pid)
      ensures HasLink(r.command, pid)
    {
      if Pointer(c') != Some(pid) {
        var k :| k in c'.runs && c'.runs[k].link == Some(pid);
        assert k in r.command.runs && r.command.runs[k].link == Some(pid);
      }
    }
  }

  lemma PruneKeepsRows(r: Rows)
    requires RowsOk(r) && !IsRunning(r.command)
    ensures var c' := Prune(r.command, RUNS_TO_RETAIN);
            && RowsOk(Wrote(r, c')) && Newest(c'.runs) == Newest(r.command.runs)
            && (forall id :: id in c'.runs ==> id in r.command.runs && c'.runs[id] == r.command.runs[id])
  {
    var c' := Prune(r.command, RUNS_TO_RETAIN);
    PruneKeepsNewest(r.command);
    forall pid: Pid | HasLink(c', pid)
      ensures HasLink(r.command, pid)
    {
      if Pointer(c') != Some(pid) {
        var k :| k in c'.runs && c'.runs[k].link == Some(pid);
        assert k in r.command.runs && r.command.runs[k].link == Some(pid);
      }
    }
  }

  lemma MarkLaunchKeepsRows(r: Rows, run: RunId, ports: Ports)
    requires RowsOk(r) && !IsRunning(r.command) && NewestIs(r.command, run, Open, None)
    ensures var c' := MarkLaunch(r.command, ports);
            RowsOk(Wrote(r, c')) && AwaitsProcess(c', run, None)
    ensures NoneLive(r.ptys)
  {
    var c' := MarkLaunch(r.command, ports);
    forall pid: Pid | HasLink(c', pid)
      ensures HasLink(r.command, pid)
    {
      var k :| k in c'.runs && c'.runs[k].link == Some(pid);
      assert k in r.command.runs && r.command.runs[k].link == Some(pid);
    }
  }

  lemma AllocateKeepsRows(r: Rows, pid: Pid)
    requires RowsOk(r) && pid !in r.ptys
    ensures RowsOk(Allocate(r, pid)) && !HasLink(r.command, pid)
    ensures NoneLive(r.ptys) ==> NoneLive(Allocate(r, pid).ptys)
  {
    var r' := Allocate(r, pid);
    assert forall other: Pid :: Live(r'.ptys, other) ==> Live(r.ptys, other);
    assert forall other: Pid :: HasEnded(r'.ptys, other) ==> HasEnded(r.ptys, other);
  }

  lemma LinkRunKeepsRows(r: Rows, run: RunId, pid: Pid)
    requires RowsOk(r) && AwaitsProcess(r.command, run, None) && pid in r.ptys
    ensures var c' := LinkRun(r.command, run, pid);
            RowsOk(Wrote(r, c')) && AwaitsProcess(c', run, Some(pid))
    ensures NoneLive(r.ptys)
  {
    var c' := LinkRun(r.command, run, pid);
    NewestAfterUpdate(r.command.runs, run, c'.runs[run]);
    forall other: Pid | HasLink(c', other)
      ensures other == pid || HasLink(r.command, other)
    {
      if other != pid {
        var k :| k in c'.runs && c'.runs[k].link == Some(other);
        assert k in r.command.runs && r.command.runs[k].link == Some(other);
      }
    }
  }

  lemma InstallKeepsRows(r: Rows, run: RunId, pid: Pid)
    requires RowsOk(r) && NewestNames(r.command, run, pid)
    ensures var c' := WriteState(r.command, Running, Some(pid));
            RowsOk(Wrote(r, c')) && NewestNames(c', run, pid)
  {
    var c' := WriteState(r.command, Running, Some(pid));
    assert forall other: Pid :: HasLink(c', other) ==> HasLink(r.command, other);
  }

  lemma SpawnKeepsRows(r: Rows, run: RunId, pid: Pid)
    requires RowsOk(r) && AwaitsProcess(r.command, run, Some(pid)) && NeverStarted(r, pid)
    ensures RowsOk(SetProcess(r, pid, Alive))
  {
    var r' := SetProcess(r, pid, Alive);
    assert forall other: Pid :: Live(r'.ptys, other) ==> other == pid || Live(r.ptys, other);
    assert forall other: Pid :: HasEnded(r'.ptys, other) ==> other != pid && HasEnded(r.ptys, other);
  }

  // ----- Steps of the environment -----

  // Facts about processes only: nothing becomes live, no row reopens, no command row moves.
  ghost predicate OnlyEnds(r: Rows, r': Rows) {
    && r'.command == r.command && r.nextRun <= r'.nextRun && r'.ptys.Keys == r.ptys.Keys
    && (forall pid: Pid :: Live(r'.ptys, pid) ==> Live(r.ptys, pid))
    && (forall pid: Pid :: HasEnded(r'.ptys, pid) ==> !Live(r'.ptys, pid))
  }

  lemma OnlyEndsKeepsRows(r: Rows, r': Rows)
    requires RowsOk(r) && OnlyEnds(r, r')
    ensures RowsOk(r')
  {
  }

  lemma EnvironmentKeepsInv(l: Local, step: Step)
    requires Inv(l) && Enabled(l, step) && IsEnvironment(step)
    ensures Inv(Apply(l, step)) && OnlyEnds(l.rows, Apply(l, step).rows)
  {
    var l' := Apply(l, step);
    OnlyEndsKeepsRows(l.rows, l'.rows);
    assert forall pid: Pid :: Reserved(l.pc, pid) && NeverStarted(l.rows, pid) ==> NeverStarted(l'.rows, pid);
  }

  lemma KillOnlyEnds(r: Rows, pid: Pid)
    requires RowsOk(r)
    ensures OnlyEnds(r, Kill(r, pid)) && !Live(Kill(r, pid).ptys, pid) && RowsOk(Kill(r, pid))
  {
    OnlyEndsKeepsRows(r, Kill(r, pid));
  }

  // ----- Steps of a launch -----

  lemma PrepareKeepsInv(r: Rows, at: LaunchPc, choice: Choice)
    requires RowsOk(r) && LaunchOk(r, at) && LaunchEnabled(r, at, choice)
    requires !AroundMarker(at) && !AfterAllocation(at)
    ensures Inv(PrepareStep(r, at, choice))
  {
    match at
    case RecordingFailure(reason) => CreateRunKeepsRows(r, RunFailed, Some(reason));
    case PruningFailure => PruneKeepsRows(r);
    case WritingFailure =>
      NoOpenLinkedRun(r);
      LeaveRunningKeepsRows(r, Failed);
    case Creating(_) => CreateRunKeepsRows(r, Open, None);
    case _ =>
  }

  lemma MarkKeepsInv(r: Rows, at: LaunchPc, choice: Choice)
    requires RowsOk(r) && LaunchOk(r, at) && LaunchEnabled(r, at, choice) && AroundMarker(at)
    ensures Inv(MarkStep(r, at, choice))
  {
    match at
    case Pruning(_, _) => PruneKeepsRows(r);
    case Aborting(run) => CompleteRunKeepsRows(r, run, RunFailed, Some(PtyLaunchFailed));
    case Marking(run, ports) => MarkLaunchKeepsRows(r, run, ports);
    case Allocating(_) =>
      if choice.Fresh? || choice.FreshThenInterrupt? {
        AllocateKeepsRows(r, choice.pid);
      }
  }

  lemma SpawnKeepsInv(r: Rows, at: LaunchPc, choice: Choice)
    requires RowsOk(r) && LaunchOk(r, at) && LaunchEnabled(r, at, choice) && (at.Linking? || at.Starting?)
    ensures Inv(HandoffStep(r, at, choice))
  {
    match at
    case Linking(run, pid) => LinkRunKeepsRows(r, run, pid);
    case Starting(run, pid) => SpawnKeepsRows(r, run, pid);
  }

  lemma HandoffKeepsInv(r: Rows, at: LaunchPc, choice: Choice)
    requires RowsOk(r) && LaunchOk(r, at) && LaunchEnabled(r, at, choice)
    requires AfterAllocation(at) && !at.Linking? && !at.Starting?
    ensures Inv(HandoffStep(r, at, choice))
  {
    match at
    case Installing(run, pid, _) => InstallKeepsRows(r, run, pid);
    case Converging(run, outcome, _, _) => FinalizeByRunKeepsRows(r, run, outcome);
    case Handoff(run, pid) =>
      if HasEnded(r.ptys, pid) {
        LaunchReadOk(r, run, pid);
      }
    case Recovering(run, pid) =>
      if HasEnded(r.ptys, pid) {
        LaunchReadOk(r, run, pid);
      }
  }

  lemma LaunchTailKeepsInv(r: Rows, at: LaunchPc, choice: Choice)
    requires RowsOk(r) && LaunchOk(r, at) && LaunchEnabled(r, at, choice) && AfterAllocation(at)
    ensures Inv(HandoffStep(r, at, choice))
  {
    if at.Linking? || at.Starting? {
      SpawnKeepsInv(r, at, choice);
    } else {
      HandoffKeepsInv(r, at, choice);
    }
  }

  lemma LaunchReadOk(r: Rows, run: RunId, pid: Pid)
    requires RowsOk(r) && NewestNames(r.command, run, pid) && HasEnded(r.ptys, pid)
    ensures NoneLive(r.ptys) && Observed(TerminalOutcome(r.ptys[pid].row.facts, AtLaunch))
  {
    RunRecordDeterminesState(r.ptys[pid].row.facts, AtLaunch);
    NoneLiveUnlessNewest(r, pid);
  }

  // ----- Steps of a stop -----

  lemma ResolvePointerlessOk(r: Rows, cause: StopCause)
    requires RowsOk(r) && IsRunning(r.command) && Pointer(r.command).None?
    ensures StopOk(r, cause, ResolvePointerless(r, cause))
  {
    var link := NewestLink(r.command);
    if link.Some? && HasEnded(r.ptys, link.value) {
      RunRecordDeterminesState(r.ptys[link.value].row.facts, AtEvent);
      NoneLiveUnlessNewest(r, link.value);
    }
  }

  lemma StopReadKeepsInv(r: Rows, stop: StopRequest, at: StopPc, choice: Choice)
    requires RowsOk(r) && StopOk(r, stop.cause, at) && StopEnabled(r, at, choice) && StopReads(at)
    ensures Inv(StopReadStep(r, stop, at, choice))
  {
    match at
    case StopResolve => ResolvePointerlessOk(r, stop.cause);
    case StopTerminate(pid) => KillOnlyEnds(r, pid);
    case _ =>
  }

  lemma StopWriteKeepsInv(r: Rows, stop: StopRequest, at: StopPc, choice: Choice)
    requires RowsOk(r) && StopOk(r, stop.cause, at) && StopEnabled(r, at, choice) && !StopReads(at)
    ensures Inv(StopWriteStep(r, stop, at, choice))
  {
    match at
    case StopClear =>
      NoOpenLinkedRun(r);
      LeaveRunningKeepsRows(r, Stopped);
    case StopUnassociated =>
      NoOpenLinkedRun(r);
      LeaveRunningKeepsRows(r, Failed);
    case StopConverge(run, outcome) => FinalizeByRunKeepsRows(r, run, outcome);
    case StopReadopt(pid) => ReadoptKeepsRows(r, pid, None);
    case StopFinalize(pid) => FinalizeByPtyKeepsRows(r, pid, StoppedOutcome(stop.cause));
    case StopRecord(pid) => ReadoptKeepsRows(r, pid, Some(ProcessControlFailed));
  }

  // ----- Steps of boot and of the deletion audit -----

  lemma CleaningKeepsInv(r: Rows, at: CleanupPc, choice: Choice)
    requires RowsOk(r) && at.Cleaning? && CleanupOk(r, at) && CleanupEnabled(r, at, choice)
    ensures Inv(CleaningStep(r, at, choice))
  {
    var Cleaning(mode, claims, todo, failures) := at;
    if todo == [] {
      ResolveCleanupOk(r, at);
    } else {
      assert forall pid: Pid :: pid in todo ==> pid == todo[0] || pid in todo[1..];
      if choice.CleanupFails? {
        var failed := CleaningStep(r, at, choice).pc.cleanup.failures;
        assert failed[|failures|].pid == todo[0];
        forall pid: Pid | FailedPid(failures, pid)
          ensures FailedPid(failed, pid)
        {
          var i :| 0 <= i < |failures| && failures[i].pid == pid;
          assert failed[i].pid == pid;
        }
      } else {
        KillOnlyEnds(r, todo[0]);
      }
    }
  }

  lemma ResolveCleanupOk(r: Rows, at: CleanupPc)
    requires RowsOk(r) && at.Cleaning? && CleanupOk(r, at) && at.todo == []
    ensures Inv(ResolveCleanup(r, at.mode, at.claims, at.failures))
  {
    if OneUnresolved(at.failures) {
      assert at.failures == [at.failures[0]];
      assert at.failures[0] == CleanupFailure(at.failures[0].pid, Unresolved);
    }
  }

  lemma RepairOk(r: Rows)
    requires RowsOk(r) && NoneLive(r.ptys)
    ensures CleanupOk(r, Repair(r))
  {
    var link := NewestLink(r.command);
    if link.Some? && HasEnded(r.ptys, link.value) {
      RunRecordDeterminesState(r.ptys[link.value].row.facts, AtEvent);
    }
  }

  lemma SweepKeepsInv(r: Rows, at: CleanupPc, choice: Choice)
    requires RowsOk(r) && at.Sweeping? && CleanupOk(r, at) && CleanupEnabled(r, at, choice)
    ensures Inv(CleanupStep(r, at, choice))
  {
    if choice.SweepOne? && choice.committed && !IsRunning(r.command) {
      assert choice.run in LinklessOpenRuns(r.command);
      CompleteRunKeepsRows(r, choice.run, RunFailed, Some(PtyLaunchFailed));
    }
  }

  lemma CleanupKeepsInv(r: Rows, at: CleanupPc, choice: Choice)
    requires RowsOk(r) && CleanupOk(r, at) && CleanupEnabled(r, at, choice)
    ensures Inv(CleanupStep(r, at, choice))
  {
    match at
    case BootScan =>
    case Cleaning(_, _, _, _) => CleaningKeepsInv(r, at, choice);
    case Readopting(_, pid, _) => ReadoptKeepsRows(r, pid, Some(ProcessControlFailed));
    case RepairRead => RepairOk(r);
    case RepairClose(run, outcome) => FinalizeByRunKeepsRows(r, run, outcome);
    case RepairState(status) =>
      NoOpenLinkedRun(r);
      LeaveRunningKeepsRows(r, status);
    case SweepScan(_) =>
    case Sweeping(_, _) => SweepKeepsInv(r, at, choice);
  }

  // ----- Every step -----

  lemma BeginKeepsInv(l: Local, step: Step)
    requires Inv(l) && Enabled(l, step)
    requires step.Crash? || step.Boot? || step.BeginLaunch? || step.BeginActivation? || step.BeginStop?
             || step.BeginAudit?
    ensures Inv(Apply(l, step))
  {
    if step.BeginAudit? {
      assert forall pid: Pid :: Live(l.rows.ptys, pid) ==> HasLink(l.rows.command, pid);
    }
  }

  lemma ProgressKeepsInv(l: Local, choice: Choice)
    requires Inv(l) && Enabled(l, Progress(choice))
    ensures Inv(ProgressStep(l, choice))
  {
    match l.pc
    case Launching(at) =>
      if AroundMarker(at) {
        MarkKeepsInv(l.rows, at, choice);
      } else if AfterAllocation(at) {
        LaunchTailKeepsInv(l.rows, at, choice);
      } else {
        PrepareKeepsInv(l.rows, at, choice);
      }
    case Stopping(stop, at) =>
      if StopReads(at) {
        StopReadKeepsInv(l.rows, stop, at, choice);
      } else {
        StopWriteKeepsInv(l.rows, stop, at, choice);
      }
    case Reconciling(at) => CleanupKeepsInv(l.rows, at, choice);
    case _ =>
  }

  lemma StepKeepsInv(l: Local, step: Step)
    requires Inv(l) && Enabled(l, step)
    ensures Inv(Apply(l, step))
  {
    match step
    case ProcessExits(_) => EnvironmentKeepsInv(l, step);
    case RowEnds(_, _) => EnvironmentKeepsInv(l, step);
    case OthersInsert(_) => EnvironmentKeepsInv(l, step);
    case DeliverEvent(pid) =>
      RunRecordDeterminesState(l.rows.ptys[pid].row.facts, AtEvent);
      FinalizeByPtyKeepsRows(l.rows, pid, TerminalOutcome(l.rows.ptys[pid].row.facts, AtEvent));
    case Progress(choice) => ProgressKeepsInv(l, choice);
    case _ => BeginKeepsInv(l, step);
  }
}
