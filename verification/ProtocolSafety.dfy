/** What executions of one command's protocol can and cannot do to its durable record. */
module ProtocolSafety {
  import opened Optional
  import opened Outcomes
  import opened CommandStore
  import opened Protocol
  import opened ProtocolInvariant

  ghost predicate Execution(states: seq<Local>, steps: seq<Step>) {
    && |states| == |steps| + 1
    && forall i :: 0 <= i < |steps| ==> Enabled(states[i], steps[i]) && states[i + 1] == Apply(states[i], steps[i])
  }

  lemma {:induction false} ExecutionKeepsInv(states: seq<Local>, steps: seq<Step>, i: nat)
    requires Execution(states, steps) && Inv(states[0]) && i < |states|
    ensures Inv(states[i])
  {
    if i > 0 {
      ExecutionKeepsInv(states, steps, i - 1);
      StepKeepsInv(states[i - 1], steps[i - 1]);
    }
  }

  // What a step does to incarnations it does not allocate: a process may start or end, a row that has
  // ended stays as it is.
  ghost predicate RowsStayEnded(ptys: map<Pid, Pty>, ptys': map<Pid, Pty>) {
    forall pid: Pid :: HasEnded(ptys, pid) ==> pid in ptys' && ptys'[pid].row == ptys[pid].row
  }

  lemma LaunchStaysEnded(r: Rows, at: LaunchPc, choice: Choice)
    requires LaunchEnabled(r, at, choice)
    ensures RowsStayEnded(r.ptys, LaunchStep(r, at, choice).rows.ptys)
  {
    if AroundMarker(at) {
      MarkStaysEnded(r, at, choice);
    } else if AfterAllocation(at) {
      HandoffStaysEnded(r, at, choice);
    } else {
      assert PrepareStep(r, at, choice).rows.ptys == r.ptys;
    }
  }

  lemma MarkStaysEnded(r: Rows, at: LaunchPc, choice: Choice)
    requires LaunchEnabled(r, at, choice) && AroundMarker(at)
    ensures RowsStayEnded(r.ptys, MarkStep(r, at, choice).rows.ptys)
  {
  }

  lemma HandoffStaysEnded(r: Rows, at: LaunchPc, choice: Choice)
    requires AfterAllocation(at)
    ensures RowsStayEnded(r.ptys, HandoffStep(r, at, choice).rows.ptys)
  {
  }

  lemma StopStaysEnded(r: Rows, stop: StopRequest, at: StopPc, choice: Choice)
    ensures RowsStayEnded(r.ptys, StopStep(r, stop, at, choice).rows.ptys)
  {
    if StopReads(at) {
      assert StopReadStep(r, stop, at, choice).rows.ptys == r.ptys || at.StopTerminate?;
    } else {
      assert StopWriteStep(r, stop, at, choice).rows.ptys == r.ptys;
    }
  }

  lemma CleanupStaysEnded(r: Rows, at: CleanupPc, choice: Choice)
    ensures RowsStayEnded(r.ptys, CleanupStep(r, at, choice).rows.ptys)
  {
    assert CleanupStep(r, at, choice).rows.ptys == r.ptys || at.Cleaning?;
  }

  lemma EndedStaysEnded(l: Local, step: Step)
    requires Enabled(l, step)
    ensures RowsStayEnded(l.rows.ptys, Apply(l, step).rows.ptys)
  {
    match step
    case Progress(choice) =>
      match l.pc {
        case Launching(at) => LaunchStaysEnded(l.rows, at, choice);
        case Stopping(stop, at) => StopStaysEnded(l.rows, stop, at, choice);
        case Reconciling(at) => CleanupStaysEnded(l.rows, at, choice);
        case _ =>
      }
    case _ =>
  }

  lemma {:induction false} EndedForGood(states: seq<Local>, steps: seq<Step>, i: nat, pid: Pid)
    requires Execution(states, steps) && i < |states| && HasEnded(states[0].rows.ptys, pid)
    ensures HasEnded(states[i].rows.ptys, pid)
  {
    if i > 0 {
      EndedForGood(states, steps, i - 1, pid);
      EndedStaysEnded(states[i - 1], steps[i - 1]);
    }
  }

  // ----- Outcomes that only a new launch may leave -----

  predicate Finished(status: CommandStatus) {
    status in {Exited, Stopped, Failed}
  }

  // No launch is in flight and none will follow the operation that is.
  predicate NotLaunching(pc: Pc) {
    !pc.Launching? && (pc.Stopping? ==> !pc.stop.restart)
  }

  predicate AsksForLaunch(step: Step) {
    step.BeginLaunch? || (step.BeginStop? && step.stop.restart)
  }

  // Boot or the deletion audit rebinds the command to the one process it could not account for.
  predicate CommitsReadoption(l: Local, step: Step) {
    step == Progress(Ok) && l.pc.Reconciling? && l.pc.cleanup.Readopting?
  }

  /** PTY events, activations (with any plan, however stale), keep-alive passes, stops,
      deactivations, boots, audits, crashes and faults leave `stopped`, `exited` and `failed`
      alone; the one exception is a committed re-adoption, which always leaves them. */
  lemma FinishedChangesOnlyByReadoption(l: Local, step: Step)
    requires Inv(l) && Enabled(l, step) && Finished(StatusOf(l.rows.command))
    requires NotLaunching(l.pc) && !AsksForLaunch(step)
    ensures NotLaunching(Apply(l, step).pc)
    ensures StatusOf(Apply(l, step).rows.command) != StatusOf(l.rows.command) <==> CommitsReadoption(l, step)
    ensures CommitsReadoption(l, step) ==> StatusOf(Apply(l, step).rows.command) == Running
  {
    if step.DeliverEvent? {
      var o := TerminalOutcome(l.rows.ptys[step.pid].row.facts, AtEvent);
      RunRecordDeterminesState(l.rows.ptys[step.pid].row.facts, AtEvent);
      FinalizeByPtyKeepsRows(l.rows, step.pid, o);
    }
  }

  lemma {:induction false} FinishedIsAbsorbing(states: seq<Local>, steps: seq<Step>)
    requires Execution(states, steps) && Inv(states[0]) && Finished(StatusOf(states[0].rows.command))
    requires NotLaunching(states[0].pc) && forall i :: 0 <= i < |steps| ==> !AsksForLaunch(steps[i])
    requires forall i :: 0 <= i < |steps| ==> !CommitsReadoption(states[i], steps[i])
    ensures NotLaunching(states[|steps|].pc)
    ensures StatusOf(states[|steps|].rows.command) == StatusOf(states[0].rows.command)
  {
    if |steps| > 0 {
      var n := |steps| - 1;
      assert Execution(states[..n + 1], steps[..n]);
      FinishedIsAbsorbing(states[..n + 1], steps[..n]);
      ExecutionKeepsInv(states, steps, n);
      FinishedChangesOnlyByReadoption(states[n], steps[n]);
    }
  }

  // ----- Resume intent -----

  // The stop is finalizing a process it has just terminated while leaving the worktree.
  predicate FinalizesDeactivation(pc: Pc) {
    pc.Stopping? && pc.stop.cause == Deactivation && pc.at.StopFinalize?
  }

  predicate EndedByRuntime(ptys: map<Pid, Pty>, pid: Pid) {
    HasEnded(ptys, pid) && InterruptedByRuntime(ptys[pid].row.facts)
  }

  // The outcome being written is read off a process the runtime ended, is boot's verdict on a run the
  // runtime left open, or is read back from a run that recorded one of these.
  ghost predicate WritesInterruption(l: Local, step: Step) {
    match l.pc
    case Launching(at) => at.Converging? && at.owned.Some? && EndedByRuntime(l.rows.ptys, at.owned.value)
    case Stopping(stop, at) =>
      && stop.cause == Deactivation && at.StopConverge?
      && NewestLink(l.rows.command).Some? && EndedByRuntime(l.rows.ptys, NewestLink(l.rows.command).value)
    case Reconciling(at) =>
      || (at.RepairClose? && at.outcome == RUNTIME_INTERRUPTED)
      || (at.RepairState? && NewestDiagnostic(l.rows.command) == Some(RuntimeStopped))
    case _ => step.DeliverEvent? && EndedByRuntime(l.rows.ptys, step.pid)
  }

  // An interruption about to be written can be traced to the row it was read from.
  ghost predicate Traced(l: Local) {
    match l.pc
    case Launching(at) =>
      at.Converging? && at.outcome == RUNTIME_INTERRUPTED ==>
        at.owned.Some? && EndedByRuntime(l.rows.ptys, at.owned.value)
    case Stopping(_, at) =>
      at.StopConverge? && at.outcome == RUNTIME_INTERRUPTED ==>
        NewestLink(l.rows.command).Some? && EndedByRuntime(l.rows.ptys, NewestLink(l.rows.command).value)
    case _ => true
  }

  lemma LaunchStaysTraced(r: Rows, at: LaunchPc, choice: Choice)
    requires LaunchEnabled(r, at, choice)
    ensures Traced(LaunchStep(r, at, choice))
  {
    if (at.Handoff? || at.Recovering?) && HasEnded(r.ptys, at.pid) {
      RunRecordDeterminesState(r.ptys[at.pid].row.facts, AtLaunch);
    }
  }

  lemma StopStaysTraced(r: Rows, stop: StopRequest, at: StopPc, choice: Choice)
    ensures Traced(StopStep(r, stop, at, choice))
  {
    var link := NewestLink(r.command);
    if at.StopResolve? && link.Some? && HasEnded(r.ptys, link.value) {
      RunRecordDeterminesState(r.ptys[link.value].row.facts, AtEvent);
    }
  }

  lemma StepStaysTraced(l: Local, step: Step)
    requires Enabled(l, step) && Traced(l)
    ensures Traced(Apply(l, step))
  {
    EndedStaysEnded(l, step);
    match step
    case Progress(choice) =>
      match l.pc {
        case Launching(at) => LaunchStaysTraced(l.rows, at, choice);
        case Stopping(stop, at) => StopStaysTraced(l.rows, stop, at, choice);
        case _ =>
      }
    case _ =>
  }

  lemma {:induction false} ExecutionStaysTraced(states: seq<Local>, steps: seq<Step>, i: nat)
    requires Execution(states, steps) && Traced(states[0]) && i < |states|
    ensures Traced(states[i])
  {
    if i > 0 {
      ExecutionStaysTraced(states, steps, i - 1);
      StepStaysTraced(states[i - 1], steps[i - 1]);
    }
  }

  ghost function NewestDiagnostic(c: Command): Option<DiagnosticReason> {
    var id := Newest(c.runs);
    if id.Some? then c.runs[id.value].diagnostic else None
  }

  lemma SuspensionInStop(l: Local, choice: Choice)
    requires Inv(l) && Traced(l) && Enabled(l, Progress(choice)) && l.pc.Stopping?
    requires StatusOf(l.rows.command) != Suspended && StatusOf(ProgressStep(l, choice).rows.command) == Suspended
    ensures FinalizesDeactivation(l.pc) || WritesInterruption(l, Progress(choice))
  {
  }

  lemma LaunchWritesStatus(r: Rows, at: LaunchPc, choice: Choice)
    ensures var status := StatusOf(LaunchStep(r, at, choice).rows.command);
            || status in {StatusOf(r.command), Running, Failed}
            || (at.Converging? && status == at.outcome.stateStatus)
  {
    if AroundMarker(at) {
      assert StatusOf(MarkStep(r, at, choice).rows.command) in {StatusOf(r.command), Running};
    } else if AfterAllocation(at) {
      assert at.Converging? || StatusOf(HandoffStep(r, at, choice).rows.command) in {StatusOf(r.command), Running};
    } else {
      assert StatusOf(PrepareStep(r, at, choice).rows.command) in {StatusOf(r.command), Failed};
    }
  }

  lemma SuspensionInLaunch(l: Local, choice: Choice)
    requires Inv(l) && Traced(l) && Enabled(l, Progress(choice)) && l.pc.Launching?
    requires StatusOf(l.rows.command) != Suspended && StatusOf(ProgressStep(l, choice).rows.command) == Suspended
    ensures WritesInterruption(l, Progress(choice))
  {
    LaunchWritesStatus(l.rows, l.pc.launch, choice);
  }

  lemma SuspensionInCleanup(l: Local, choice: Choice)
    requires Inv(l) && Enabled(l, Progress(choice)) && l.pc.Reconciling?
    requires StatusOf(l.rows.command) != Suspended && StatusOf(ProgressStep(l, choice).rows.command) == Suspended
    ensures WritesInterruption(l, Progress(choice))
  {
  }

  lemma SuspendingStep(l: Local, step: Step)
    requires Inv(l) && Traced(l) && Enabled(l, step)
    requires StatusOf(l.rows.command) != Suspended && StatusOf(Apply(l, step).rows.command) == Suspended
    ensures FinalizesDeactivation(l.pc) || WritesInterruption(l, step)
  {
    match step
    case Progress(choice) =>
      match l.pc {
        case Launching(_) => SuspensionInLaunch(l, choice);
        case Stopping(_, _) => SuspensionInStop(l, choice);
        case Reconciling(_) => SuspensionInCleanup(l, choice);
        case _ =>
      }
    case DeliverEvent(pid) => RunRecordDeterminesState(l.rows.ptys[pid].row.facts, AtEvent);
    case _ =>
  }

  /** `suspended` is entered only by a deactivation stop finalizing the process it terminated, or by an
      outcome the runtime itself caused, as the process's own row says or, at boot, the run left open. */
  lemma SuspensionHasACause(states: seq<Local>, steps: seq<Step>, i: nat)
    requires Execution(states, steps) && Inv(states[0]) && Traced(states[0]) && i < |steps|
    requires StatusOf(states[i].rows.command) != Suspended && StatusOf(states[i + 1].rows.command) == Suspended
    ensures FinalizesDeactivation(states[i].pc) || WritesInterruption(states[i], steps[i])
  {
    ExecutionKeepsInv(states, steps, i);
    ExecutionStaysTraced(states, steps, i);
    SuspendingStep(states[i], steps[i]);
  }

  // This stop's own termination of the process, which it finds alive.
  predicate Terminates(l: Local, step: Step, stop: StopRequest, pid: Pid) {
    l.pc == Stopping(stop, StopTerminate(pid)) && step == Progress(TerminatedLive) && Live(l.rows.ptys, pid)
  }

  // Nothing but the environment moves from `from` to `to`.
  predicate Waits(states: seq<Local>, from: nat, to: nat, pc: Pc)
    requires to < |states|
  {
    forall k :: from <= k <= to ==> states[k].pc == pc
  }

  /** The process a stop finalizes was alive when that same stop terminated it. */
  lemma {:induction false} FinalizedProcessWasTerminated(states: seq<Local>, steps: seq<Step>, i: nat, pid: Pid)
    requires Execution(states, steps) && i < |states|
    requires !(states[0].pc.Stopping? && states[0].pc.at.StopFinalize?)
    requires states[i].pc.Stopping? && states[i].pc.at == StopFinalize(pid)
    ensures exists j :: 0 <= j < i && Terminates(states[j], steps[j], states[i].pc.stop, pid)
                        && Waits(states, j + 1, i, states[i].pc)
  {
    if states[i - 1].pc == states[i].pc {
      FinalizedProcessWasTerminated(states, steps, i - 1, pid);
      var j :| 0 <= j < i - 1 && Terminates(states[j], steps[j], states[i].pc.stop, pid)
               && Waits(states, j + 1, i - 1, states[i].pc);
      assert Waits(states, j + 1, i, states[i].pc);
    } else {
      FinalizeFollowsKill(states[i - 1], steps[i - 1], pid);
      assert Waits(states, i, i, states[i].pc);
    }
  }

  /** Whatever ended it, the process's own stop leaves the pointer clear and the run stopped, and suspends the
      command exactly when it is a deactivation. */
  lemma FinalizationSuspendsExactlyForDeactivation(l: Local, step: Step)
    requires Inv(l) && Enabled(l, step) && l.pc.Stopping? && l.pc.at.StopFinalize?
    requires step == Progress(Ok) || step == Progress(DoneThenInterrupt)
    ensures var c, c', newest := l.rows.command, Apply(l, step).rows.command, Newest(l.rows.command.runs);
            && Pointer(c').None? && newest.Some? && newest.value in c'.runs
            && StatusOf(c') == (if l.pc.stop.cause == Deactivation then Suspended else Stopped)
            && (c.runs[newest.value].status == Open ==>
                  c'.runs[newest.value] == RunRow(RunStopped, Some(l.pc.at.pid), None))
  {
    assert NewestLinked(l.rows.command.runs, l.pc.at.pid) == Newest(l.rows.command.runs);
  }

  lemma FinalizeFollowsKill(l: Local, step: Step, pid: Pid)
    requires Enabled(l, step) && Apply(l, step).pc.Stopping? && Apply(l, step).pc.at == StopFinalize(pid)
    requires Apply(l, step).pc != l.pc
    ensures Terminates(l, step, Apply(l, step).pc.stop, pid) && !Live(Apply(l, step).rows.ptys, pid)
  {
  }

  /** A deactivation never clears the intent it finds. */
  lemma DeactivationKeepsSuspension(l: Local, step: Step)
    requires Inv(l) && Enabled(l, step) && step.Progress?
    requires l.pc.Stopping? && l.pc.stop.cause == Deactivation && StatusOf(l.rows.command) == Suspended
    ensures Apply(l, step).rows == l.rows
  {
  }

  /** No stop asked for by the user returns with the command still suspended. */
  lemma UserStopClearsSuspension(states: seq<Local>, steps: seq<Step>, i: nat)
    requires Execution(states, steps) && Inv(states[0]) && i < |states|
    requires states[i].pc.Stopping? && states[i].pc.stop.cause == User && states[i].pc.at == StopReturned
    ensures StatusOf(states[i].rows.command) != Suspended
  {
    ExecutionKeepsInv(states, steps, i);
  }

  // ----- Run outcomes -----

  // Re-adoption reopens the newest run because a process that may be alive disproves its outcome.
  predicate Readopts(l: Local, step: Step) {
    && step.Progress? && step.choice in {Ok, DoneThenInterrupt}
    && match l.pc
       case Stopping(_, at) => at.StopReadopt? || at.StopRecord?
       case Reconciling(at) => at.Readopting?
       case _ => false
  }

  ghost predicate RunKept(c: Command, c': Command, id: RunId) {
    id in c.runs && id in c'.runs ==>
      c'.runs[id].status == c.runs[id].status && c'.runs[id].diagnostic == c.runs[id].diagnostic
  }

  /** The first recorded end of a run, and its diagnostic, are never rewritten, except for the newest
      run of a command being re-adopted. */
  lemma RunOutcomeIsWriteOnce(l: Local, step: Step, id: RunId)
    requires Inv(l) && Enabled(l, step) && id in l.rows.command.runs && l.rows.command.runs[id].status != Open
    requires !Readopts(l, step) || Newest(l.rows.command.runs) != Some(id)
    ensures RunKept(l.rows.command, Apply(l, step).rows.command, id)
  {
    match step
    case Progress(choice) =>
      match l.pc {
        case Launching(at) => LaunchKeepsRun(l.rows, at, choice, id);
        case Reconciling(_) => CleanupKeepsRun(l, choice, id);
        case _ =>
      }
    case _ =>
  }

  predicate Closed(c: Command, id: RunId) {
    id in c.runs && c.runs[id].status != Open
  }

  lemma LaunchKeepsRun(r: Rows, at: LaunchPc, choice: Choice, id: RunId)
    requires RowsOk(r) && LaunchOk(r, at) && LaunchEnabled(r, at, choice) && Closed(r.command, id)
    ensures RunKept(r.command, LaunchStep(r, at, choice).rows.command, id)
  {
    if AroundMarker(at) {
      MarkKeepsRun(r, at, choice, id);
    } else if AfterAllocation(at) {
      HandoffKeepsRun(r, at, choice, id);
    } else {
      PrepareKeepsRun(r, at, choice, id);
    }
  }

  lemma PrepareKeepsRun(r: Rows, at: LaunchPc, choice: Choice, id: RunId)
    requires RowsOk(r) && LaunchEnabled(r, at, choice) && Closed(r.command, id)
    ensures RunKept(r.command, PrepareStep(r, at, choice).rows.command, id)
  {
  }

  lemma MarkKeepsRun(r: Rows, at: LaunchPc, choice: Choice, id: RunId)
    requires LaunchOk(r, at) && LaunchEnabled(r, at, choice) && Closed(r.command, id)
    ensures RunKept(r.command, MarkStep(r, at, choice).rows.command, id)
  {
  }

  lemma HandoffKeepsRun(r: Rows, at: LaunchPc, choice: Choice, id: RunId)
    requires LaunchEnabled(r, at, choice) && Closed(r.command, id)
    ensures RunKept(r.command, HandoffStep(r, at, choice).rows.command, id)
  {
  }

  lemma CleanupKeepsRun(l: Local, choice: Choice, id: RunId)
    requires Inv(l) && Enabled(l, Progress(choice)) && l.pc.Reconciling?
    requires id in l.rows.command.runs && l.rows.command.runs[id].status != Open
    requires !Readopts(l, Progress(choice)) || Newest(l.rows.command.runs) != Some(id)
    ensures RunKept(l.rows.command, ProgressStep(l, choice).rows.command, id)
  {
  }

  // ----- Events of superseded incarnations -----

  // An operation in flight may still bind the command to this incarnation.
  ghost predicate MayAdopt(pc: Pc, pid: Pid) {
    match pc
    case Launching(at) =>
      ((at.Linking? || at.Starting? || at.Handoff? || at.Installing? || at.Recovering?) && at.pid == pid)
      || (at.Converging? && at.owned == Some(pid))
    case Stopping(_, at) =>
      (at.StopReadopt? || at.StopTerminate? || at.StopFinalize? || at.StopRecord?) && at.pid == pid
    case Reconciling(at) =>
      (at.Cleaning? && exists i :: 0 <= i < |at.failures| && at.failures[i] == CleanupFailure(pid, Unresolved))
      || (at.Readopting? && at.pid == pid)
    case _ => false
  }

  ghost predicate Superseded(l: Local, pid: Pid) {
    && HasEnded(l.rows.ptys, pid)
    && Pointer(l.rows.command) != Some(pid) && NewestLink(l.rows.command) != Some(pid)
    && !MayAdopt(l.pc, pid)
  }

  /** The event of an incarnation the command has moved on from changes no row, and so announces
      nothing. */
  lemma SupersededEventChangesNothing(l: Local, pid: Pid)
    requires Inv(l) && Superseded(l, pid) && Enabled(l, DeliverEvent(pid))
    ensures Apply(l, DeliverEvent(pid)) == l
  {
  }

  lemma SupersededInPrepare(r: Rows, at: LaunchPc, choice: Choice, pid: Pid)
    requires RowsOk(r) && LaunchOk(r, at) && LaunchEnabled(r, at, choice) && Superseded(Launch(r, at), pid)
    requires !AroundMarker(at) && !AfterAllocation(at)
    ensures Superseded(PrepareStep(r, at, choice), pid)
  {
    if at.Creating? || at.RecordingFailure? {
      SupersededInCreation(r, at, choice, pid);
    } else if at.PruningFailure? {
      PruneKeepsNewest(r.command);
    }
  }

  lemma SupersededInCreation(r: Rows, at: LaunchPc, choice: Choice, pid: Pid)
    requires RowsOk(r) && LaunchOk(r, at) && Superseded(Launch(r, at), pid) && (at.Creating? || at.RecordingFailure?)
    ensures Superseded(PrepareStep(r, at, choice), pid)
  {
    if at.Creating? {
      CreateRunKeepsRows(r, Open, None);
    } else {
      CreateRunKeepsRows(r, RunFailed, Some(at.reason));
    }
  }

  lemma SupersededInMark(r: Rows, at: LaunchPc, choice: Choice, pid: Pid)
    requires RowsOk(r) && LaunchOk(r, at) && LaunchEnabled(r, at, choice) && Superseded(Launch(r, at), pid)
    requires AroundMarker(at)
    ensures Superseded(MarkStep(r, at, choice), pid)
  {
    if at.Pruning? || at.Aborting? {
      SupersededBeforeMarker(r, at, choice, pid);
    }
  }

  lemma SupersededBeforeMarker(r: Rows, at: LaunchPc, choice: Choice, pid: Pid)
    requires LaunchOk(r, at) && Superseded(Launch(r, at), pid) && (at.Pruning? || at.Aborting?)
    ensures Superseded(MarkStep(r, at, choice), pid)
  {
    if at.Pruning? {
      PruneKeepsNewest(r.command);
    } else {
      CompleteRunKeepsNewestLink(r, at.run);
    }
  }

  lemma SupersededInHandoff(r: Rows, at: LaunchPc, choice: Choice, pid: Pid)
    requires RowsOk(r) && LaunchOk(r, at) && LaunchEnabled(r, at, choice) && Superseded(Launch(r, at), pid)
    requires AfterAllocation(at)
    ensures Superseded(HandoffStep(r, at, choice), pid)
  {
    if at.Linking? || at.Converging? {
      SupersededInLinkOrConverge(r, at, choice, pid);
    }
  }

  lemma SupersededInLinkOrConverge(r: Rows, at: LaunchPc, choice: Choice, pid: Pid)
    requires RowsOk(r) && LaunchOk(r, at) && Superseded(Launch(r, at), pid) && (at.Linking? || at.Converging?)
    ensures Superseded(HandoffStep(r, at, choice), pid)
  {
    if at.Linking? {
      LinkRunKeepsRows(r, at.run, at.pid);
    } else {
      FinalizeByRunKeepsRows(r, at.run, at.outcome);
    }
  }

  lemma SupersededInLaunch(r: Rows, at: LaunchPc, choice: Choice, pid: Pid)
    requires RowsOk(r) && LaunchOk(r, at) && LaunchEnabled(r, at, choice) && Superseded(Launch(r, at), pid)
    ensures Superseded(LaunchStep(r, at, choice), pid)
  {
    if AroundMarker(at) {
      SupersededInMark(r, at, choice, pid);
    } else if AfterAllocation(at) {
      SupersededInHandoff(r, at, choice, pid);
    } else {
      SupersededInPrepare(r, at, choice, pid);
    }
  }

  lemma SupersededInStopRead(r: Rows, stop: StopRequest, at: StopPc, choice: Choice, pid: Pid)
    requires StopOk(r, stop.cause, at) && StopEnabled(r, at, choice) && Superseded(Stop(r, stop, at), pid)
    requires StopReads(at)
    ensures Superseded(StopReadStep(r, stop, at, choice), pid)
  {
  }

  lemma SupersededInStopWrite(r: Rows, stop: StopRequest, at: StopPc, choice: Choice, pid: Pid)
    requires RowsOk(r) && StopOk(r, stop.cause, at) && StopEnabled(r, at, choice)
    requires Superseded(Stop(r, stop, at), pid) && !StopReads(at)
    ensures Superseded(StopWriteStep(r, stop, at, choice), pid)
  {
    match at
    case StopConverge(run, outcome) => FinalizeByRunKeepsRows(r, run, outcome);
    case StopReadopt(own) => ReadoptKeepsRows(r, own, None);
    case StopRecord(own) => ReadoptKeepsRows(r, own, Some(ProcessControlFailed));
    case StopFinalize(own) => FinalizeByPtyKeepsNewestLink(r, own, StoppedOutcome(stop.cause));
    case _ =>
  }

  lemma FinalizeByPtyKeepsNewestLink(r: Rows, pid: Pid, outcome: Outcome)
    ensures NewestLink(FinalizeByPty(r.command, pid, outcome)) == NewestLink(r.command)
  {
    var id := NewestLinked(r.command.runs, pid);
    if id.Some? && r.command.runs[id.value].status == Open {
      NewestAfterUpdate(r.command.runs, id.value, CloseRun(r.command, id.value, outcome).runs[id.value]);
    }
  }

  lemma SupersededInCleaning(r: Rows, at: CleanupPc, choice: Choice, pid: Pid)
    requires at.Cleaning? && Superseded(Reconcile(r, at), pid)
    ensures Superseded(CleaningStep(r, at, choice), pid)
  {
    if at.todo == [] && OneUnresolved(at.failures) {
      assert at.failures[0] == CleanupFailure(at.failures[0].pid, Unresolved);
    }
  }

  lemma SupersededInCleanup(r: Rows, at: CleanupPc, choice: Choice, pid: Pid)
    requires RowsOk(r) && CleanupOk(r, at) && CleanupEnabled(r, at, choice) && Superseded(Reconcile(r, at), pid)
    ensures Superseded(CleanupStep(r, at, choice), pid)
  {
    match at
    case Cleaning(_, _, _, _) => SupersededInCleaning(r, at, choice, pid);
    case Readopting(_, own, _) => ReadoptKeepsRows(r, own, Some(ProcessControlFailed));
    case RepairClose(run, outcome) => FinalizeByRunKeepsRows(r, run, outcome);
    case Sweeping(_, _) =>
      if choice.SweepOne? {
        assert choice.run in LinklessOpenRuns(r.command);
        CompleteRunKeepsNewestLink(r, choice.run);
      }
    case _ =>
  }

  lemma CompleteRunKeepsNewestLink(r: Rows, run: RunId)
    requires run in r.command.runs
    ensures NewestLink(CompleteRun(r.command, run, RunFailed, Some(PtyLaunchFailed))) == NewestLink(r.command)
  {
    NewestAfterUpdate(r.command.runs, run, CompleteRun(r.command, run, RunFailed, Some(PtyLaunchFailed)).runs[run]);
  }

  lemma SupersededStays(l: Local, step: Step, pid: Pid)
    requires Inv(l) && Superseded(l, pid) && Enabled(l, step)
    ensures Superseded(Apply(l, step), pid)
  {
    match step
    case Progress(choice) =>
      match l.pc {
        case Launching(at) => SupersededInLaunch(l.rows, at, choice, pid);
        case Stopping(stop, at) =>
          if StopReads(at) {
            SupersededInStopRead(l.rows, stop, at, choice, pid);
          } else {
            SupersededInStopWrite(l.rows, stop, at, choice, pid);
          }
        case Reconciling(at) => SupersededInCleanup(l.rows, at, choice, pid);
        case _ =>
      }
    case DeliverEvent(other) =>
      FinalizeByPtyKeepsNewestLink(l.rows, other, TerminalOutcome(l.rows.ptys[other].row.facts, AtEvent));
    case _ =>
  }

  lemma {:induction false} SupersededForGood(states: seq<Local>, steps: seq<Step>, i: nat, pid: Pid)
    requires Execution(states, steps) && Inv(states[0]) && Superseded(states[0], pid) && i < |states|
    ensures Superseded(states[i], pid)
  {
    if i > 0 {
      SupersededForGood(states, steps, i - 1, pid);
      ExecutionKeepsInv(states, steps, i - 1);
      SupersededStays(states[i - 1], steps[i - 1], pid);
    }
  }

  /** Once superseded, an incarnation's event stays silent however late it is delivered or repeated. */
  lemma SupersededEventsStaySilent(states: seq<Local>, steps: seq<Step>, i: nat, pid: Pid)
    requires Execution(states, steps) && Inv(states[0]) && Superseded(states[0], pid) && i < |steps|
    requires steps[i] == DeliverEvent(pid)
    ensures states[i + 1] == states[i]
  {
    ExecutionKeepsInv(states, steps, i);
    SupersededForGood(states, steps, i, pid);
    SupersededEventChangesNothing(states[i], pid);
  }

  /** Delivering one event twice is delivering it once. */
  lemma RepeatedEventChangesNothing(l: Local, pid: Pid)
    requires Inv(l) && Enabled(l, DeliverEvent(pid))
    ensures var once := Apply(l, DeliverEvent(pid));
            Enabled(once, DeliverEvent(pid)) && Apply(once, DeliverEvent(pid)) == once
  {
    RunRecordDeterminesState(l.rows.ptys[pid].row.facts, AtEvent);
    FinalizedOnceForAll(l.rows.command, pid, TerminalOutcome(l.rows.ptys[pid].row.facts, AtEvent));
  }

  lemma FinalizedOnceForAll(c: Command, pid: Pid, outcome: Outcome)
    requires Terminal(outcome)
    ensures FinalizeByPty(FinalizeByPty(c, pid, outcome), pid, outcome) == FinalizeByPty(c, pid, outcome)
  {
    var c' := FinalizeByPty(c, pid, outcome);
    var id := NewestLinked(c.runs, pid);
    if id.Some? {
      assert id.value in c'.runs && c'.runs[id.value].status != Open;
      assert NewestLinked(c'.runs, pid) == id;
    }
    assert Pointer(c') != Some(pid);
  }

  // ----- Remembered ports -----

  lemma LaunchWritesPorts(r: Rows, at: LaunchPc, choice: Choice)
    ensures PortsOf(LaunchStep(r, at, choice).rows.command) ==
            if at.Marking? && choice in {Ok, DoneThenInterrupt} then Some(at.ports) else PortsOf(r.command)
  {
    if AroundMarker(at) {
      assert at.Marking? || PortsOf(MarkStep(r, at, choice).rows.command) == PortsOf(r.command);
    } else if AfterAllocation(at) {
      assert PortsOf(HandoffStep(r, at, choice).rows.command) == PortsOf(r.command);
    } else {
      assert PortsOf(PrepareStep(r, at, choice).rows.command) == PortsOf(r.command);
    }
  }

  lemma StopKeepsPorts(r: Rows, stop: StopRequest, at: StopPc, choice: Choice)
    ensures PortsOf(StopStep(r, stop, at, choice).rows.command) == PortsOf(r.command)
  {
  }

  lemma CleanupKeepsPorts(r: Rows, at: CleanupPc, choice: Choice)
    ensures PortsOf(CleanupStep(r, at, choice).rows.command) == PortsOf(r.command)
  {
  }

  /** Remembered ports change when a marker commits, to that launch's ports, and at no other step. */
  lemma OnlyTheMarkerWritesPorts(l: Local, step: Step)
    requires Enabled(l, step) && PortsOf(Apply(l, step).rows.command) != PortsOf(l.rows.command)
    ensures l.pc.Launching? && l.pc.launch.Marking? && step.Progress? && step.choice in {Ok, DoneThenInterrupt}
    ensures PortsOf(Apply(l, step).rows.command) == Some(l.pc.launch.ports)
  {
    if step.Progress? {
      match l.pc {
        case Launching(at) => LaunchWritesPorts(l.rows, at, step.choice);
        case Stopping(stop, at) => StopKeepsPorts(l.rows, stop, at, step.choice);
        case Reconciling(at) => CleanupKeepsPorts(l.rows, at, step.choice);
        case _ =>
      }
    }
  }
}
