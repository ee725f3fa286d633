/**
 What one stop leaves in the tables, said of the command before and after it: how each resolution shows in
 both rows, and which of them a stop comes to.
 */
module StopOutcome {
  import opened Optional
  import opened Outcomes
  import opened CommandStore
  import opened Protocol
  import opened LaunchRun
  import opened StopRun

  // What one stop attempt did to the command's status.
  datatype Resolution = Unchanged | StoppedNow | SuspendedNow | ConvergedNow | Unassociated

  // ----- Process facts around a stop -----

  // The process does not exit by itself while the stop is at work.
  ghost predicate StaysUp(circ: StopCircumstances, pid: Pid) {
    forall at :: NoExitOf(circ.moves(at), pid)
  }

  // ----- What the stop finds -----

  // The process a running command answers for: the one its pointer names, or else its newest run's.
  ghost function Owner(c: Command): Option<Pid> {
    if Pointer(c).Some? then Pointer(c) else NewestLink(c)
  }

  // The incarnation a stop would end: the owner, unless only a run names it and its row has ended.
  ghost predicate Stoppable(r: Rows, pid: Pid) {
    && IsRunning(r.command) && Owner(r.command) == Some(pid) && Live(r.ptys, pid)
    && (Pointer(r.command).None? ==> r.ptys[pid].row == Pending)
  }

  // ----- What each resolution leaves -----

  ghost predicate StateBecomes(before: Command, after: Command, status: CommandStatus) {
    after.state == Some(StateRow(status, None, PortsOf(before)))
  }

  // Every other run is as it was, and this one, if it was open, is closed as told.
  ghost predicate RunCloses(before: Command, after: Command, run: RunId, status: RunStatus,
                            diagnostic: Option<DiagnosticReason>) {
    && run in before.runs
    && after.runs == if before.runs[run].status == Open
                     then before.runs[run := RunRow(status, before.runs[run].link, diagnostic)] else before.runs
  }

  // The run a stop reopened to own its process again.
  ghost predicate Reowned(before: Command, after: Command, pid: Pid) {
    var newest := Newest(before.runs);
    && newest.Some? && before.runs[newest.value].link == Some(pid)
    && after.state == Some(StateRow(Running, Some(pid), PortsOf(before)))
    && after.runs == before.runs[newest.value := before.runs[newest.value].(status := Open)]
  }

  // The command as a stop that goes on to terminate holds it.
  ghost predicate Held(before: Command, c: Command, pid: Pid) {
    if Pointer(before).Some? then c == before && Pointer(before) == Some(pid) else Reowned(before, c, pid)
  }

  // The process was alive until this stop ended it: its run is stopped, the pointer is clear, and the command
  // is suspended by a deactivation and stopped by anything else.
  ghost predicate EndedByStop(before: Command, r: Rows, cause: StopCause) {
    && IsRunning(before) && Owner(before).Some? && !Live(r.ptys, Owner(before).value)
    && StateBecomes(before, r.command, if cause == Deactivation then Suspended else Stopped)
    && if Pointer(before).Some? then OwnedRunStops(before, r.command, Pointer(before).value)
       else r.command.runs == before.runs[Newest(before.runs).value := RunRow(RunStopped, NewestLink(before), None)]
  }

  ghost predicate OwnedRunStops(before: Command, after: Command, pid: Pid) {
    var run := NewestLinked(before.runs, pid);
    if run.Some? then RunCloses(before, after, run.value, RunStopped, None) else after.runs == before.runs
  }

  // The process had ended by itself: both rows say how, and a person's stop keeps no intent to resume.
  ghost predicate EndedBefore(before: Command, r: Rows, cause: StopCause) {
    && IsRunning(before) && Pointer(before).None? && NewestLink(before).Some?
    && HasEnded(r.ptys, NewestLink(before).value)
    && var facts := r.ptys[NewestLink(before).value].row.facts;
       var o := TerminalOutcome(facts, AtEvent);
       && RunCloses(before, r.command, Newest(before.runs).value, o.runStatus, o.diagnostic)
       && StateBecomes(before, r.command,
                       if InterruptedByRuntime(facts) && cause == User then Failed else o.stateStatus)
  }

  ghost predicate NoRowBehind(run: RunRow, ptys: map<Pid, Pty>) {
    run.link.None? || run.link.value !in ptys
  }

  // There was nothing to go by: no run, or none with a process row behind it.
  ghost predicate Abandoned(before: Command, r: Rows) {
    && IsRunning(before) && Pointer(before).None? && StateBecomes(before, r.command, Failed)
    && match Newest(before.runs)
       case None => r.command.runs == before.runs
       case Some(run) => NoRowBehind(before.runs[run], r.ptys)
                         && RunCloses(before, r.command, run, RunFailed, Some(ProcessControlFailed))
  }

  // What a stop that answered with a resolution has left.
  ghost predicate ResolutionOnRecord(before: Command, r: Rows, cause: StopCause, resolution: Resolution) {
    match resolution
    case Unchanged =>
      if IsRunning(before) && Pointer(before).None?
      then NewestLink(before).Some? && Reowned(before, r.command, NewestLink(before).value)
      else r.command == before
    case SuspendedNow => cause == Deactivation && EndedByStop(before, r, cause)
    case StoppedNow =>
      && cause == User
      && (EndedByStop(before, r, cause)
          || (StatusOf(before) == Suspended && StateBecomes(before, r.command, Stopped)
              && r.command.runs == before.runs))
    case ConvergedNow => EndedBefore(before, r, cause)
    case Unassociated => Abandoned(before, r)
  }

  // ----- What holds on the way -----

  // The owner's process is alive as long as it was and nothing ended it, and never comes back.
  ghost predicate SameLife(start: Rows, ptys: map<Pid, Pty>, pid: Pid, circ: StopCircumstances) {
    && (pid in start.ptys <==> pid in ptys)
    && (Stoppable(start, pid) && StaysUp(circ, pid) ==> Live(ptys, pid) && ptys[pid] == start.ptys[pid])
    && (!Live(start.ptys, pid) ==> !Live(ptys, pid))
  }

  ghost predicate OnStopCourse(start: Rows, r: Rows, cause: StopCause, at: StopPc, circ: StopCircumstances) {
    var before, c := start.command, r.command;
    && (Owner(before).Some? && !at.StopFinalize? && !at.StopReturned? ==>
          SameLife(start, r.ptys, Owner(before).value, circ))
    && match at
       case StopRead => c == before
       case StopClear => c == before && StatusOf(before) == Suspended && cause == User
       case StopResolve => c == before && IsRunning(before) && Pointer(before).None?
       case StopUnassociated => c == before && IsRunning(before) && Pointer(before).None? && before.runs == map[]
       case StopConverge(run, outcome) =>
         && c == before && IsRunning(before) && Pointer(before).None? && Newest(before.runs) == Some(run)
         && ReadFrom(r, run, outcome, cause)
       case StopReadopt(pid) => c == before && IsRunning(before) && Pointer(before).None?
            && NewestLink(before) == Some(pid)
       case StopTerminate(pid) => IsRunning(before) && Owner(before) == Some(pid) && Held(before, c, pid)
       case StopFinalize(pid) => IsRunning(before) && Owner(before) == Some(pid) && Held(before, c, pid)
                                 && !Live(r.ptys, pid) && Live(start.ptys, pid)
       case StopRecord(pid) => IsRunning(before) && Owner(before) == Some(pid) && Held(before, c, pid)
       case StopReturned => true
  }

  ghost predicate ReadFrom(r: Rows, run: RunId, outcome: Outcome, cause: StopCause)
    requires run in r.command.runs
  {
    var link := r.command.runs[run].link;
    || (outcome == UNASSOCIATED && NoRowBehind(r.command.runs[run], r.ptys))
    || (link.Some? && HasEnded(r.ptys, link.value)
        && var facts := r.ptys[link.value].row.facts;
           var o := TerminalOutcome(facts, AtEvent);
           && outcome.runStatus == o.runStatus && outcome.diagnostic == o.diagnostic
           && outcome.stateStatus == if InterruptedByRuntime(facts) && cause == User then Failed else o.stateStatus)
  }

  // ----- Each call keeps the stop on course -----

  lemma SettlingKeepsStopOnCourse(start: Rows, r: Rows, stop: StopRequest, at: StopPc, circ: StopCircumstances)
    requires OnStopCourse(start, r, stop.cause, at, circ)
    ensures OnStopCourse(start, Settled(Stop(r, stop, at), circ.moves(at)).rows, stop.cause, at, circ)
  {
    var before := start.command;
    if Owner(before).Some? {
      SettleKeeps(r.ptys, Stopping(stop, at), circ.moves(at), Owner(before).value);
    }
  }

  lemma ReadStaysOnStopCourse(start: Rows, r: Rows, stop: StopRequest, at: StopPc, circ: StopCircumstances)
    requires OnStopCourse(start, r, stop.cause, at, circ) && StopReads(at)
    ensures var l' := StopReadStep(r, stop, at, StopChoiceAt(r.ptys, at, circ));
            l'.pc.Stopping? ==> OnStopCourse(start, l'.rows, l'.pc.stop.cause, l'.pc.at, circ) && l'.pc.stop == stop
  {
    if at.StopResolve? {
      var link := NewestLink(r.command);
      if link.Some? && HasEnded(r.ptys, link.value) {
        RunRecordDeterminesState(r.ptys[link.value].row.facts, AtEvent);
      }
    }
  }

  lemma WriteStaysOnStopCourse(start: Rows, r: Rows, stop: StopRequest, at: StopPc, circ: StopCircumstances)
    requires OnStopCourse(start, r, stop.cause, at, circ) && !StopReads(at)
    ensures var l' := StopWriteStep(r, stop, at, StopChoiceAt(r.ptys, at, circ));
            l'.pc.Stopping? ==> OnStopCourse(start, l'.rows, l'.pc.stop.cause, l'.pc.at, circ) && l'.pc.stop == stop
  {
  }

  lemma CallStaysOnStopCourse(start: Rows, r: Rows, stop: StopRequest, at: StopPc, circ: StopCircumstances)
    requires OnStopCourse(start, r, stop.cause, at, circ)
    ensures var l' := StopAfter(r, stop, at, circ);
            l'.pc.Stopping? ==> OnStopCourse(start, l'.rows, l'.pc.stop.cause, l'.pc.at, circ) && l'.pc.stop == stop
  {
    var settled := Settled(Stop(r, stop, at), circ.moves(at)).rows;
    SettlingKeepsStopOnCourse(start, r, stop, at, circ);
    if StopReads(at) {
      ReadStaysOnStopCourse(start, settled, stop, at, circ);
    } else {
      WriteStaysOnStopCourse(start, settled, stop, at, circ);
    }
  }

  // ----- What the deciding call leaves -----

  // The resolution each call comes to, when the stop returns after it.
  function ResolutionAt(at: StopPc, cause: StopCause): Resolution {
    match at
    case StopClear => StoppedNow
    case StopUnassociated => Unassociated
    case StopConverge(_, outcome) => if outcome == UNASSOCIATED then Unassociated else ConvergedNow
    case StopFinalize(_) => if cause == Deactivation then SuspendedNow else StoppedNow
    case _ => Unchanged
  }

  // What a stop that returned has left, and whether it had a process to end.
  ghost predicate ReturnsOnRecord(start: Rows, r: Rows, cause: StopCause, resolution: Resolution,
                                  circ: StopCircumstances) {
    && ResolutionOnRecord(start.command, r, cause, resolution)
    && (IsRunning(start.command) && Owner(start.command).Some? ==>
          var pid := Owner(start.command).value;
          && (Stoppable(start, pid) && StaysUp(circ, pid) ==> resolution in {StoppedNow, SuspendedNow})
          && (!Live(start.ptys, pid) ==> resolution !in {StoppedNow, SuspendedNow}))
  }

  lemma ReadDecides(start: Rows, r: Rows, stop: StopRequest, at: StopPc, circ: StopCircumstances)
    requires OnStopCourse(start, r, stop.cause, at, circ) && StopReads(at) && !at.StopReturned?
    ensures var l' := StopReadStep(r, stop, at, StopChoiceAt(r.ptys, at, circ));
            l'.pc == Stopping(stop, StopReturned) ==>
              ReturnsOnRecord(start, l'.rows, stop.cause, ResolutionAt(at, stop.cause), circ)
  {
  }

  lemma WriteDecides(start: Rows, r: Rows, stop: StopRequest, at: StopPc, circ: StopCircumstances)
    requires OnStopCourse(start, r, stop.cause, at, circ) && !StopReads(at)
    ensures var l' := StopWriteStep(r, stop, at, StopChoiceAt(r.ptys, at, circ));
            l'.pc == Stopping(stop, StopReturned) ==>
              ReturnsOnRecord(start, l'.rows, stop.cause, ResolutionAt(at, stop.cause), circ)
  {
    match at
    case StopConverge(run, outcome) => ConvergeDecides(start, r, stop.cause, run, outcome, circ);
    case StopFinalize(pid) => FinalizeDecides(start, r, stop.cause, pid, circ);
    case _ =>
  }

  lemma ConvergeDecides(start: Rows, r: Rows, cause: StopCause, run: RunId, outcome: Outcome, circ: StopCircumstances)
    requires OnStopCourse(start, r, cause, StopConverge(run, outcome), circ)
    ensures ReturnsOnRecord(start, Wrote(r, FinalizeByRun(r.command, run, outcome)), cause,
                            ResolutionAt(StopConverge(run, outcome), cause), circ)
  {
    var link := NewestLink(r.command);
    if link.Some? && HasEnded(r.ptys, link.value) {
      RunRecordDeterminesState(r.ptys[link.value].row.facts, AtEvent);
    }
  }

  lemma FinalizeDecides(start: Rows, r: Rows, cause: StopCause, pid: Pid, circ: StopCircumstances)
    requires OnStopCourse(start, r, cause, StopFinalize(pid), circ)
    ensures ReturnsOnRecord(start, Wrote(r, FinalizeByPty(r.command, pid, StoppedOutcome(cause))), cause,
                            ResolutionAt(StopFinalize(pid), cause), circ)
  {
    var before, c := start.command, r.command;
    if Pointer(before).None? {
      NewestRunIsNewestLinked(c, Newest(before.runs).value, pid);
    }
  }

  lemma NewestRunIsNewestLinked(c: Command, run: RunId, pid: Pid)
    requires run in c.runs && c.runs[run].link == Some(pid) && forall other :: other in c.runs ==> other <= run
    ensures NewestLinked(c.runs, pid) == Some(run)
  {
  }

  lemma CallDecides(start: Rows, r: Rows, stop: StopRequest, at: StopPc, circ: StopCircumstances)
    requires OnStopCourse(start, r, stop.cause, at, circ) && !at.StopReturned?
    ensures var l' := StopAfter(r, stop, at, circ);
            l'.pc == Stopping(stop, StopReturned) ==>
              ReturnsOnRecord(start, l'.rows, stop.cause, ResolutionAt(at, stop.cause), circ)
  {
    var settled := Settled(Stop(r, stop, at), circ.moves(at)).rows;
    SettlingKeepsStopOnCourse(start, r, stop, at, circ);
    if StopReads(at) {
      ReadDecides(start, settled, stop, at, circ);
    } else {
      WriteDecides(start, settled, stop, at, circ);
    }
  }

  // ----- What the whole stop leaves -----

  // The stop came to its return, having decided at the call before.
  ghost predicate Returned(path: seq<Local>, stop: StopRequest) {
    && |path| >= 3 && path[|path| - 2].pc == Stopping(stop, StopReturned)
    && path[|path| - 3].pc.Stopping?
  }

  ghost function Decision(path: seq<Local>, stop: StopRequest): Resolution
    requires Returned(path, stop)
  {
    ResolutionAt(path[|path| - 3].pc.at, stop.cause)
  }

  lemma RecordSettles(start: Rows, r: Rows, stop: StopRequest, resolution: Resolution, circ: StopCircumstances)
    requires ReturnsOnRecord(start, r, stop.cause, resolution, circ)
    ensures ReturnsOnRecord(start, Settled(Stop(r, stop, StopReturned), circ.moves(StopReturned)).rows,
                            stop.cause, resolution, circ)
  {
    var before := start.command;
    if Owner(before).Some? {
      SettleKeeps(r.ptys, Stopping(stop, StopReturned), circ.moves(StopReturned), Owner(before).value);
    }
  }

  lemma ReturnKeepsRows(r: Rows, stop: StopRequest, circ: StopCircumstances)
    ensures var l' := StopAfter(r, stop, StopReturned, circ);
            !l'.pc.Stopping? && l'.rows == Settled(Stop(r, stop, StopReturned), circ.moves(StopReturned)).rows
  {
  }

  lemma StopPathUnfolds(l: Local, circ: StopCircumstances)
    requires l.pc.Stopping?
    ensures var next := StopAfter(l.rows, l.pc.stop, l.pc.at, circ);
            && StopDistance(next.pc) < StopDistance(l.pc)
            && StopPath(l, circ) == [l] + StopPath(next, circ)
            && (!next.pc.Stopping? ==> StopPath(next, circ) == [next])
  {
    EveryStopCallIsAStep(l.rows, l.pc.stop, l.pc.at, circ);
  }

  /** Whatever happens to a stop, if it returns, what it resolved is on record in both rows. */
  lemma {:induction false} StopIsOnRecord(start: Rows, l: Local, circ: StopCircumstances)
    requires l.pc.Stopping? && !l.pc.at.StopReturned?
    requires OnStopCourse(start, l.rows, l.pc.stop.cause, l.pc.at, circ)
    ensures var path := StopPath(l, circ);
            Returned(path, l.pc.stop) ==>
              ReturnsOnRecord(start, path[|path| - 1].rows, l.pc.stop.cause, Decision(path, l.pc.stop), circ)
    decreases StopDistance(l.pc)
  {
    var stop := l.pc.stop;
    var next := StopAfter(l.rows, stop, l.pc.at, circ);
    StopPathUnfolds(l, circ);
    CallStaysOnStopCourse(start, l.rows, stop, l.pc.at, circ);
    if next.pc == Stopping(stop, StopReturned) {
      StopPathUnfolds(next, circ);
      CallDecides(start, l.rows, stop, l.pc.at, circ);
      ReturnKeepsRows(next.rows, stop, circ);
      RecordSettles(start, next.rows, stop, ResolutionAt(l.pc.at, stop.cause), circ);
    } else if next.pc.Stopping? {
      StopIsOnRecord(start, next, circ);
    }
  }

  lemma CommittedCallGoesOn(r: Rows, stop: StopRequest, at: StopPc, circ: StopCircumstances)
    requires (forall pc :: circ.signal(pc) == Commits) && !at.StopRecord? && !at.StopReturned?
    ensures var l' := StopAfter(r, stop, at, circ); l'.pc.Stopping? && l'.pc.stop == stop && !l'.pc.at.StopRecord?
  {
  }

  /** A stop whose every call commits returns. */
  lemma {:induction false} CommittedStopReturns(l: Local, circ: StopCircumstances)
    requires l.pc.Stopping? && !l.pc.at.StopReturned? && !l.pc.at.StopRecord?
    requires forall at :: circ.signal(at) == Commits
    ensures Returned(StopPath(l, circ), l.pc.stop)
    decreases StopDistance(l.pc)
  {
    var next := StopAfter(l.rows, l.pc.stop, l.pc.at, circ);
    StopPathUnfolds(l, circ);
    CommittedCallGoesOn(l.rows, l.pc.stop, l.pc.at, circ);
    if next.pc.at.StopReturned? {
      StopPathUnfolds(next, circ);
      ReturnKeepsRows(next.rows, l.pc.stop, circ);
    } else {
      CommittedStopReturns(next, circ);
    }
  }

  /** The run of a process that was alive is open, so a stop that ends the process stops that very run. */
  lemma LiveRunIsStopped(start: Rows, r: Rows, cause: StopCause)
    requires RowsOk(start) && EndedByStop(start.command, r, cause) && Live(start.ptys, Owner(start.command).value)
    ensures var newest := Newest(start.command.runs);
            newest.Some? && r.command.runs[newest.value] == RunRow(RunStopped, Owner(start.command), None)
  {
    var before, pid := start.command, Owner(start.command).value;
    NewestRunIsNewestLinked(before, Newest(before.runs).value, pid);
  }
}
