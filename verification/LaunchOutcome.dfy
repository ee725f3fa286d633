/**
 What one launch leaves in the tables, said of the command before and after it: which rows an installed
 launch has, what a refused or failed one records, and when a launch is bound to succeed.
 */
module LaunchOutcome {
  import opened Optional
  import opened Outcomes
  import opened CommandStore
  import opened Protocol
  import opened ProtocolInvariant
  import opened LaunchRun

  // ----- What holds on the way -----

  // The marker's state row: running, with the ports resolved for this launch and no process yet.
  ghost predicate Marked(c: Command, circ: Circumstances) {
    circ.preparation.Ready? && c.state == Some(StateRow(Running, None, Some(circ.preparation.ports)))
  }

  ghost predicate PortsKept(c: Command, circ: Circumstances) {
    circ.preparation.Ready? && PortsOf(c) == Some(circ.preparation.ports)
  }

  // The newest run names the launch's process, and is open unless that process's row says that it ended.
  ghost predicate Linked(r: Rows, run: RunId, pid: Pid, circ: Circumstances) {
    && pid == circ.pid && pid in r.ptys && NewestNames(r.command, run, pid) && PortsKept(r.command, circ)
    && (r.command.runs[run].status == Open || HasEnded(r.ptys, pid))
  }

  ghost predicate Starts(r: Rows, run: RunId, pid: Pid, circ: Circumstances) {
    Linked(r, run, pid, circ) && Marked(r.command, circ) && r.command.runs[run].status == Open
  }

  ghost predicate Created(r: Rows, run: RunId, before: Command, circ: Circumstances) {
    circ.preparation.Ready? && NewestIs(r.command, run, Open, None) && r.command.state == before.state
  }

  ghost predicate RefusalRecorded(r: Rows, before: Command, circ: Circumstances) {
    && circ.preparation.Refused? && r.command.state == before.state
    && Newest(r.command.runs).Some?
    && r.command.runs[Newest(r.command.runs).value] == RunRow(RunFailed, None, Some(circ.preparation.reason))
  }

  // The run failed before it was known to name a process; a masked finalizer may have got that far already.
  ghost predicate Unlaunched(c: Command, run: RunId, before: Command, circ: Circumstances) {
    && circ.preparation.Ready? && Newest(c.runs) == Some(run)
    && (c.runs[run].status == Open || FailedLaunch(c.runs[run]))
    && (c.state == before.state || Marked(c, circ) || c.state == FailedState(circ))
  }

  predicate FailedLaunch(run: RunRow) {
    run.status == RunFailed && run.diagnostic == Some(PtyLaunchFailed)
  }

  function FailedState(circ: Circumstances): Option<StateRow>
    requires circ.preparation.Ready?
  {
    Some(StateRow(Failed, None, Some(circ.preparation.ports)))
  }

  ghost predicate OnCourse(r: Rows, at: LaunchPc, before: Command, circ: Circumstances) {
    var c := r.command;
    !IsRunning(before) &&
    match at
    case LaunchCheck => c == before && RunIdsFresh(r)
    case Preparing => c == before && RunIdsFresh(r)
    case RecordingFailure(reason) => c == before && RunIdsFresh(r) && circ.preparation == Refused(reason)
    case PruningFailure => RefusalRecorded(r, before, circ)
    case WritingFailure => RefusalRecorded(r, before, circ)
    case Creating(ports) => c == before && RunIdsFresh(r) && circ.preparation == Ready(ports)
    case Pruning(run, ports) => Created(r, run, before, circ) && ports == circ.preparation.ports
    case Marking(run, ports) => Created(r, run, before, circ) && ports == circ.preparation.ports
    case Aborting(run) => Created(r, run, before, circ)
    case Allocating(run) => Marked(c, circ) && NewestIs(c, run, Open, None)
    case Linking(run, pid) => Marked(c, circ) && NewestIs(c, run, Open, None) && pid == circ.pid && pid in r.ptys
    case Starting(run, pid) => Starts(r, run, pid, circ)
    case Handoff(run, pid) => Starts(r, run, pid, circ)
    case Installing(run, pid, masked) => Linked(r, run, pid, circ) && (!masked ==> Starts(r, run, pid, circ))
    case Recovering(run, pid) => Linked(r, run, pid, circ)
    case Converging(run, outcome, owned, masked) =>
      if owned.Some? then Ends(r, run, owned.value, outcome, masked, circ)
      else
        && outcome == LAUNCH_FAILURE && Unlaunched(c, run, before, circ)
        && (!masked ==> Marked(c, circ) && NewestIs(c, run, Open, None))
  }

  // The end being written is the one the process's row records.
  ghost predicate Ends(r: Rows, run: RunId, pid: Pid, outcome: Outcome, masked: bool, circ: Circumstances) {
    && Linked(r, run, pid, circ) && HasEnded(r.ptys, pid)
    && outcome == TerminalOutcome(r.ptys[pid].row.facts, AtLaunch)
    && (!masked ==> Starts(r, run, pid, circ))
  }

  // ----- Each call keeps the launch on course -----

  lemma SettlingStaysOnCourse(r: Rows, at: LaunchPc, before: Command, circ: Circumstances)
    requires OnCourse(r, at, before, circ)
    ensures OnCourse(Settled(Launch(r, at), circ.moves(at)).rows, at, before, circ)
  {
    SettleKeeps(r.ptys, Launching(at), circ.moves(at), circ.pid);
  }

  lemma PrepareStaysOnCourse(r: Rows, at: LaunchPc, before: Command, circ: Circumstances)
    requires OnCourse(r, at, before, circ) && !AroundMarker(at) && !AfterAllocation(at)
    ensures var l' := PrepareStep(r, at, ChoiceAt(r.ptys, at, circ));
            l'.pc.Launching? ==> OnCourse(l'.rows, l'.pc.launch, before, circ)
  {
    match at
    case RecordingFailure(reason) =>
      NewestAfterInsert(r.command.runs, r.nextRun, RunRow(RunFailed, None, Some(reason)));
    case PruningFailure => PruneKeepsNewest(r.command);
    case Creating(_) => NewestAfterInsert(r.command.runs, r.nextRun, RunRow(Open, None, None));
    case _ =>
  }

  lemma MarkStaysOnCourse(r: Rows, at: LaunchPc, before: Command, circ: Circumstances)
    requires OnCourse(r, at, before, circ) && AroundMarker(at)
    ensures var l' := MarkStep(r, at, ChoiceAt(r.ptys, at, circ));
            l'.pc.Launching? ==> OnCourse(l'.rows, l'.pc.launch, before, circ)
  {
    if at.Pruning? || at.Aborting? {
      RunOnlyStaysOnCourse(r, at, before, circ);
    }
  }

  lemma RunOnlyStaysOnCourse(r: Rows, at: LaunchPc, before: Command, circ: Circumstances)
    requires OnCourse(r, at, before, circ) && (at.Pruning? || at.Aborting?)
    ensures var l' := MarkStep(r, at, ChoiceAt(r.ptys, at, circ));
            l'.pc.Launching? ==> OnCourse(l'.rows, l'.pc.launch, before, circ)
  {
    if at.Pruning? {
      PruneKeepsNewest(r.command);
    } else {
      NewestAfterUpdate(r.command.runs, at.run, RunRow(RunFailed, None, Some(PtyLaunchFailed)));
    }
  }

  lemma HandoffStaysOnCourse(r: Rows, at: LaunchPc, before: Command, circ: Circumstances)
    requires OnCourse(r, at, before, circ) && AfterAllocation(at)
    ensures var l' := HandoffStep(r, at, ChoiceAt(r.ptys, at, circ));
            l'.pc.Launching? ==> OnCourse(l'.rows, l'.pc.launch, before, circ)
  {
    if at.Linking? {
      LinkStaysOnCourse(r, at, before, circ);
    } else if at.Converging? {
      ConvergeStaysOnCourse(r, at, before, circ);
    }
  }

  lemma LinkStaysOnCourse(r: Rows, at: LaunchPc, before: Command, circ: Circumstances)
    requires OnCourse(r, at, before, circ) && at.Linking?
    ensures var l' := HandoffStep(r, at, ChoiceAt(r.ptys, at, circ));
            l'.pc.Launching? ==> OnCourse(l'.rows, l'.pc.launch, before, circ)
  {
    NewestAfterUpdate(r.command.runs, at.run, r.command.runs[at.run].(link := Some(at.pid)));
  }

  lemma ConvergeStaysOnCourse(r: Rows, at: LaunchPc, before: Command, circ: Circumstances)
    requires OnCourse(r, at, before, circ) && at.Converging?
    ensures var l' := HandoffStep(r, at, ChoiceAt(r.ptys, at, circ));
            l'.pc.Launching? ==> OnCourse(l'.rows, l'.pc.launch, before, circ)
  {
    FinalizedNewest(r.command, at.run, at.outcome);
  }

  lemma FinalizedNewest(c: Command, run: RunId, outcome: Outcome)
    requires Newest(c.runs) == Some(run)
    ensures var c' := FinalizeByRun(c, run, outcome);
            && Newest(c'.runs) == Some(run) && c'.runs[run].link == c.runs[run].link
            && c'.runs[run] == (if c.runs[run].status == Open
                                then RunRow(outcome.runStatus, c.runs[run].link, outcome.diagnostic) else c.runs[run])
  {
    NewestAfterUpdate(c.runs, run, RunRow(outcome.runStatus, c.runs[run].link, outcome.diagnostic));
  }

  lemma CallStaysOnCourse(r: Rows, at: LaunchPc, before: Command, circ: Circumstances)
    requires OnCourse(r, at, before, circ)
    ensures var l' := After(r, at, circ);
            l'.pc.Launching? ==> OnCourse(l'.rows, l'.pc.launch, before, circ)
  {
    var settled := Settled(Launch(r, at), circ.moves(at)).rows;
    SettlingStaysOnCourse(r, at, before, circ);
    if AroundMarker(at) {
      MarkStaysOnCourse(settled, at, before, circ);
    } else if AfterAllocation(at) {
      HandoffStaysOnCourse(settled, at, before, circ);
    } else {
      PrepareStaysOnCourse(settled, at, before, circ);
    }
  }

  // ----- What the last call leaves -----

  // The calls after which a launch answers with a status, and those after which it has announced one.
  predicate Replying(at: LaunchPc, circ: Circumstances) {
    && (at.LaunchCheck? || at.WritingFailure? || (at.Installing? && !at.masked) || (at.Converging? && !at.masked))
    && circ.signal(at) == Commits
  }

  predicate Announcing(at: LaunchPc, circ: Circumstances) {
    && (at.WritingFailure? || at.Aborting? || at.Installing? || at.Converging?)
    && (circ.signal(at) == Commits || ((at.Installing? || at.Converging?) && at.masked && circ.signal(at) != Faults))
  }

  // The command owns the process of this launch: pointer, newest run and remembered ports.
  ghost predicate Installed(r: Rows, circ: Circumstances) {
    && circ.preparation.Ready?
    && r.command.state == Some(StateRow(Running, Some(circ.pid), Some(circ.preparation.ports)))
    && Newest(r.command.runs).Some? && r.command.runs[Newest(r.command.runs).value].link == Some(circ.pid)
    && (r.command.runs[Newest(r.command.runs).value].status == Open || HasEnded(r.ptys, circ.pid))
  }

  ghost predicate Owned(r: Rows, circ: Circumstances) {
    Installed(r, circ) && r.command.runs[Newest(r.command.runs).value].status == Open
  }

  // The refusal is on record: the command failed, and a run that never had a process says why.
  ghost predicate RefusedOnRecord(before: Command, after: Command, reason: DiagnosticReason) {
    && after.state == Some(StateRow(Failed, None, PortsOf(before)))
    && NewestRunIs(after, RunRow(RunFailed, None, Some(reason)))
  }

  // The launch ended before it was installed: without a process it failed, with one both rows say how the
  // process ended.
  ghost predicate EndedOnRecord(r: Rows, ports: Ports, pid: Pid) {
    var c := r.command;
    || (c.state == Some(StateRow(Failed, None, Some(ports)))
        && NewestRunIs(c, RunRow(RunFailed, None, Some(PtyLaunchFailed))))
    || (HasEnded(r.ptys, pid)
        && var o := TerminalOutcome(r.ptys[pid].row.facts, AtLaunch);
           && c.state == Some(StateRow(o.stateStatus, None, Some(ports)))
           && NewestRunIs(c, RunRow(o.runStatus, Some(pid), o.diagnostic)))
  }

  // What a launch that answered has left of a command that was not running.
  ghost predicate AnswerOnRecord(before: Command, r: Rows, circ: Circumstances) {
    if IsRunning(r.command) then Owned(r, circ)
    else match circ.preparation
      case Refused(reason) => RefusedOnRecord(before, r.command, reason)
      case Ready(ports) => EndedOnRecord(r, ports, circ.pid)
  }

  lemma LastCallReplies(r: Rows, at: LaunchPc, before: Command, circ: Circumstances)
    requires OnCourse(r, at, before, circ) && After(r, at, circ).pc == Unlocked && Replying(at, circ)
    ensures AnswerOnRecord(before, After(r, at, circ).rows, circ)
  {
    var settled := Settled(Launch(r, at), circ.moves(at)).rows;
    SettlingStaysOnCourse(r, at, before, circ);
    if at.Converging? {
      ConvergedReplies(settled, at, before, circ);
    } else if at.Installing? {
      InstalledReplies(settled, at, before, circ);
    }
  }

  lemma ConvergedReplies(r: Rows, at: LaunchPc, before: Command, circ: Circumstances)
    requires OnCourse(r, at, before, circ) && at.Converging? && !at.masked
    ensures AnswerOnRecord(before, Wrote(r, FinalizeByRun(r.command, at.run, at.outcome)), circ)
  {
    FinalizedNewest(r.command, at.run, at.outcome);
    if at.owned.Some? {
      RunRecordDeterminesState(r.ptys[at.owned.value].row.facts, AtLaunch);
    }
  }

  lemma InstalledReplies(r: Rows, at: LaunchPc, before: Command, circ: Circumstances)
    requires OnCourse(r, at, before, circ) && at.Installing?
    ensures var r' := Wrote(r, WriteState(r.command, Running, Some(at.pid)));
            Installed(r', circ) && (!at.masked ==> Owned(r', circ))
  {
  }

  // A launch, interrupted or not, that has announced `running` has installed its process.
  lemma LastCallAnnounces(r: Rows, at: LaunchPc, before: Command, circ: Circumstances)
    requires OnCourse(r, at, before, circ) && After(r, at, circ).pc == Unlocked && Announcing(at, circ)
    ensures IsRunning(After(r, at, circ).rows.command) ==> Installed(After(r, at, circ).rows, circ)
  {
    var settled := Settled(Launch(r, at), circ.moves(at)).rows;
    SettlingStaysOnCourse(r, at, before, circ);
    if at.Installing? {
      InstalledReplies(settled, at, before, circ);
    } else if at.Converging? && at.owned.Some? {
      RunRecordDeterminesState(settled.ptys[at.owned.value].row.facts, AtLaunch);
    }
  }

  lemma GoesOnOrReleases(r: Rows, at: LaunchPc, circ: Circumstances)
    ensures After(r, at, circ).pc.Launching? || After(r, at, circ).pc == Unlocked
  {
  }

  // The launch's last call was made from here.
  ghost function LastCall(path: seq<Local>): (l: Local)
    requires |path| >= 2
  {
    path[|path| - 2]
  }

  lemma PathGoesOn(l: Local, circ: Circumstances)
    requires l.pc.Launching?
    ensures var next := After(l.rows, l.pc.launch, circ);
            Path(l, circ) == [l] + Path(next, circ) && (next.pc == Unlocked ==> Path(next, circ) == [next])
            && (next.pc.Launching? ==> |Path(next, circ)| >= 2)
  {
    EveryCallIsAStep(l.rows, l.pc.launch, circ);
  }

  // A launch whose last call replies, or announces, has left this.
  ghost predicate OnRecord(last: Local, end: Local, before: Command, circ: Circumstances) {
    && last.pc.Launching? && end.pc == Unlocked
    && (Replying(last.pc.launch, circ) ==> AnswerOnRecord(before, end.rows, circ))
    && (Announcing(last.pc.launch, circ) && IsRunning(end.rows.command) ==> Installed(end.rows, circ))
  }

  /** Whatever happens to a launch, what it leaves is on record in both rows. */
  lemma {:induction false} LaunchIsOnRecord(l: Local, circ: Circumstances, before: Command)
    requires l.pc.Launching? && OnCourse(l.rows, l.pc.launch, before, circ)
    ensures var path := Path(l, circ); |path| >= 2 && OnRecord(LastCall(path), path[|path| - 1], before, circ)
    decreases Distance(l.pc)
  {
    var next := After(l.rows, l.pc.launch, circ);
    EveryCallIsAStep(l.rows, l.pc.launch, circ);
    GoesOnOrReleases(l.rows, l.pc.launch, circ);
    PathGoesOn(l, circ);
    if next.pc.Launching? {
      CallStaysOnCourse(l.rows, l.pc.launch, before, circ);
      LaunchIsOnRecord(next, circ, before);
    } else {
      LastCallIsOnRecord(l, circ, before);
    }
  }

  lemma LastCallIsOnRecord(l: Local, circ: Circumstances, before: Command)
    requires l.pc.Launching? && OnCourse(l.rows, l.pc.launch, before, circ)
    requires After(l.rows, l.pc.launch, circ).pc == Unlocked
    ensures OnRecord(l, After(l.rows, l.pc.launch, circ), before, circ)
  {
    if Replying(l.pc.launch, circ) {
      LastCallReplies(l.rows, l.pc.launch, before, circ);
    }
    if Announcing(l.pc.launch, circ) {
      LastCallAnnounces(l.rows, l.pc.launch, before, circ);
    }
  }

  // ----- When a launch is bound to succeed -----

  // Every call commits, the preparation succeeds, and no end of the launch's process is recorded.
  ghost predicate Smooth(circ: Circumstances) {
    && circ.preparation.Ready? && (forall at :: circ.signal(at) == Commits)
    && forall at :: NoEndOf(circ.moves(at), circ.pid)
  }

  // The launch's process does not exit while it is being launched.
  ghost predicate Undisturbed(circ: Circumstances) {
    forall at :: NoExitOf(circ.moves(at), circ.pid)
  }

  ghost predicate OnSmoothCourse(ptys: map<Pid, Pty>, at: LaunchPc, circ: Circumstances) {
    match at
    case LaunchCheck => circ.pid !in ptys
    case Preparing => circ.pid !in ptys
    case Creating(_) => circ.pid !in ptys
    case Pruning(_, _) => circ.pid !in ptys
    case Marking(_, _) => circ.pid !in ptys
    case Allocating(_) => circ.pid !in ptys
    case Linking(_, pid) => pid == circ.pid && pid in ptys && ptys[pid].row == Pending
    case Starting(_, pid) => pid == circ.pid && pid in ptys && ptys[pid].row == Pending
    case Handoff(_, pid) => pid == circ.pid && StartedWell(ptys, circ)
    case Installing(_, pid, masked) => pid == circ.pid && !masked && StartedWell(ptys, circ)
    case _ => false
  }

  ghost predicate StartedWell(ptys: map<Pid, Pty>, circ: Circumstances) {
    circ.pid in ptys && ptys[circ.pid].row == Pending && (circ.alive && Undisturbed(circ) ==> Live(ptys, circ.pid))
  }

  lemma SmoothSettling(r: Rows, at: LaunchPc, circ: Circumstances)
    requires OnSmoothCourse(r.ptys, at, circ) && Smooth(circ)
    ensures OnSmoothCourse(Settled(Launch(r, at), circ.moves(at)).rows.ptys, at, circ)
  {
    SettleKeeps(r.ptys, Launching(at), circ.moves(at), circ.pid);
  }

  lemma SmoothCall(r: Rows, at: LaunchPc, before: Command, circ: Circumstances)
    requires OnSmoothCourse(r.ptys, at, circ) && Smooth(circ) && OnCourse(r, at, before, circ)
    ensures var l' := After(r, at, circ);
            if at.Installing? then l'.pc == Unlocked && StartedWell(l'.rows.ptys, circ)
            else l'.pc.Launching? && OnSmoothCourse(l'.rows.ptys, l'.pc.launch, circ)
  {
    SmoothSettling(r, at, circ);
  }

  /** A launch in which every call commits, whose process is new and has no end recorded, replies with the
      process installed, and alive if it started and nothing happened to it. */
  lemma {:induction false} SmoothLaunchReplies(l: Local, circ: Circumstances, before: Command)
    requires l.pc.Launching? && OnCourse(l.rows, l.pc.launch, before, circ)
    requires Smooth(circ) && OnSmoothCourse(l.rows.ptys, l.pc.launch, circ)
    ensures var path := Path(l, circ);
            && |path| >= 2 && LastCall(path).pc.Launching? && LastCall(path).pc.launch.Installing?
            && Replying(LastCall(path).pc.launch, circ) && StartedWell(path[|path| - 1].rows.ptys, circ)
            && IsRunning(path[|path| - 1].rows.command)
    decreases Distance(l.pc)
  {
    var next := After(l.rows, l.pc.launch, circ);
    EveryCallIsAStep(l.rows, l.pc.launch, circ);
    PathGoesOn(l, circ);
    SmoothCall(l.rows, l.pc.launch, before, circ);
    if next.pc.Launching? {
      CallStaysOnCourse(l.rows, l.pc.launch, before, circ);
      SmoothLaunchReplies(next, circ, before);
    }
  }
}
