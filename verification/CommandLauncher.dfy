/**
 The launch flow itself (apps/runtime/src/commands/launch.ts): ordered durable writes against
 the command tables, with the two handoff facts the interruption finalizer reads.

 Every method's contract says that the durable states it produced, in order, are the ones the
 protocol goes through under the same circumstances.
 */
module CommandLauncher {
  import opened Optional
  import opened Outcomes
  import opened CommandStore
  import opened CommandTables
  import opened Protocol
  import opened ProtocolInvariant
  import opened LaunchRun
  import opened LaunchOutcome

  // What the caller of a launch is told: a status, or an error (a fault, or the interruption).
  datatype Answer = Answered(status: CommandStatus) | Raised

  // The later history is the earlier one with its last state continued along the protocol's path.
  ghost predicate Continues(before: seq<Local>, after: seq<Local>, circ: Circumstances) {
    |before| > 0 && after == before[..|before| - 1] + Path(before[|before| - 1], circ)
  }

  // One more state: the one the protocol's next call leads to.
  ghost predicate Extends(before: seq<Local>, after: seq<Local>, circ: Circumstances) {
    && |before| > 0 && before[|before| - 1].pc.Launching?
    && var l := before[|before| - 1]; after == before + [After(l.rows, l.pc.launch, circ)]
  }

  lemma OneCallFurther(before: seq<Local>, noted: seq<Local>, after: seq<Local>, circ: Circumstances)
    requires Extends(before, noted, circ) && Continues(noted, after, circ)
    ensures Continues(before, after, circ)
  {
    var l := before[|before| - 1];
    EveryCallIsAStep(l.rows, l.pc.launch, circ);
    assert noted[..|noted| - 1] == before;
    assert before == before[..|before| - 1] + [l];
  }

  lemma LaunchEnds(before: seq<Local>, circ: Circumstances)
    requires |before| > 0 && !before[|before| - 1].pc.Launching?
    ensures Continues(before, before, circ)
  {
    assert before == before[..|before| - 1] + [before[|before| - 1]];
  }

  lemma {:induction false} SettleKeepsPids(ptys: map<Pid, Pty>, pc: Pc, moves: seq<Step>)
    ensures Settle(ptys, pc, moves).Keys == ptys.Keys
    decreases |moves|
  {
    if moves != [] {
      SettleKeepsPids(Move(ptys, pc, moves[0]), pc, moves[1..]);
    }
  }

  class Launcher {
    const repository: CommandRepository
    const target: Target
    // The process layer's view of this command's incarnations.
    var ptys: map<Pid, Pty>
    var announced: seq<CommandStatus>

    // Handoff facts of the launch in flight.
    var allocation: Option<Pid>
    var linked: bool

    ghost var history: seq<Local>

    // The state of one command as an operation finds it, holding its lock at `start`.
    constructor (repository: CommandRepository, target: Target, ptys: map<Pid, Pty>, ghost start: Pc)
      requires repository.Valid()
      ensures Valid() && this.repository == repository && this.target == target && this.ptys == ptys
      ensures announced == [] && history == [Local(Durable(), start)]
    {
      this.repository, this.target, this.ptys := repository, target, ptys;
      announced, allocation, linked := [], None, false;
      history := [Local(Rows(repository.View(target), ptys, repository.nextRunId), start)];
    }

    ghost predicate Valid()
      reads this, repository
    {
      repository.Valid()
    }

    ghost function Durable(): Rows
      reads this, repository
    {
      Rows(repository.View(target), ptys, repository.nextRunId)
    }

    ghost predicate At(at: LaunchPc)
      reads this, repository
    {
      |history| > 0 && history[|history| - 1] == Launch(Durable(), at)
    }

    // The launch is over, and the tables hold what the last recorded state says.
    ghost predicate Released()
      reads this, repository
    {
      |history| > 0 && history[|history| - 1] == Done(Durable())
    }

    // The launch has run to the release of its lock: the recorded states continue along the protocol's
    // path, and no other command's rows have changed.
    twostate predicate Concludes(circ: Circumstances)
      reads this, repository
    {
      && Valid() && Released() && Continues(old(history), history, circ)
      && forall u :: u != target ==> repository.View(u) == old(repository.View(u))
    }

    // A status is only ever reported as the tables hold it.
    ghost predicate Truthful(answer: Answer)
      reads this, repository
    {
      answer.Answered? ==> answer.status == StatusOf(repository.View(target))
    }

    // The status last recorded, which is the one the tables hold once the launch is over.
    ghost function Recorded(): CommandStatus
      reads this`history
    {
      if history == [] then Idle else StatusOf(history[|history| - 1].rows.command)
    }

    // A launch announces at most once, and then the status the tables are left with; whenever it answers
    // with a status it has announced it. Which of the two it does is decided by its last call.
    twostate predicate Announces(answer: Answer, circ: Circumstances)
      reads this`history, this`announced
    {
      && (announced == old(announced) || announced == old(announced) + [Recorded()])
      && (answer.Answered? ==> announced == old(announced) + [Recorded()])
      && Replies(answer, circ)
      && (announced != old(announced) ==> Announcing(LastCall(history).pc.launch, circ))
    }

    ghost predicate Replies(answer: Answer, circ: Circumstances)
      reads this`history
    {
      && |history| >= 2 && LastCall(history).pc.Launching?
      && (answer.Answered? <==> Replying(LastCall(history).pc.launch, circ))
    }

    // The call just made leads the protocol to `at`, with the rows as they stand.
    ghost predicate Leads(at: LaunchPc, circ: Circumstances)
      reads this, repository
    {
      && |history| > 0 && history[|history| - 1].pc.Launching?
      && var l := history[|history| - 1]; After(l.rows, l.pc.launch, circ) == Launch(Durable(), at)
    }

    ghost method Note(at: LaunchPc, circ: Circumstances)
      requires Leads(at, circ)
      modifies this`history
      ensures Extends(old(history), history, circ) && At(at)
    {
      history := history + [Launch(Durable(), at)];
    }

    // The call just made was the launch's last one.
    ghost method Release(circ: Circumstances)
      requires |history| > 0 && history[|history| - 1].pc.Launching?
      requires var l := history[|history| - 1]; After(l.rows, l.pc.launch, circ) == Done(Durable())
      modifies this`history
      ensures Released() && Continues(old(history), history, circ)
      ensures |history| >= 2 && LastCall(history) == old(history[|history| - 1])
    {
      history := history + [Done(Durable())];
      LaunchEnds(history, circ);
      OneCallFurther(old(history), history, history, circ);
    }

    method Observe(at: LaunchPc, circ: Circumstances)
      modifies this`ptys
      ensures ptys == Settle(old(ptys), Launching(at), circ.moves(at)) && ptys.Keys == old(ptys.Keys)
    {
      SettleKeepsPids(ptys, Launching(at), circ.moves(at));
      ptys := Settle(ptys, Launching(at), circ.moves(at));
    }

    // An announcement always carries the status the tables hold.
    method PublishCommandChanged(status: CommandStatus)
      requires status == StatusOf(repository.View(target))
      modifies this`announced
      ensures announced == old(announced) + [status]
    {
      announced := announced + [status];
    }

    /** A launch. It takes the protocol's path, and what it answers is on record: an answer of `running` to a
        command that was not running leaves the new process installed, any other answer says in both rows
        how the launch ended. Interrupted or not, an announced `running` is an installed process; and a
        launch in which every call commits and no end is recorded does answer `running`. */
    method RunCommand(circ: Circumstances) returns (answer: Answer)
      requires Valid() && At(LaunchCheck)
      modifies this, repository
      ensures Concludes(circ) && Truthful(answer)
      ensures old(IsRunning(repository.View(target))) ==>
                announced == old(announced) && repository.View(target) == old(repository.View(target))
      ensures old(!IsRunning(repository.View(target))) ==>
                && Announces(answer, circ)
                && (answer.Answered? ==> AnswerOnRecord(old(repository.View(target)), Durable(), circ))
                && (announced == old(announced) + [Running] ==> Installed(Durable(), circ))
      ensures old(!IsRunning(repository.View(target))) && Smooth(circ) && circ.pid !in old(ptys) ==>
                answer == Answered(Running) && StartedWell(ptys, circ)
    {
      ghost var start := history[|history| - 1];
      assert RunIdsFresh(start.rows);
      answer := RunLocked(circ);
      if !IsRunning(start.rows.command) {
        ghost var path := Path(start, circ);
        LaunchIsOnRecord(start, circ, start.rows.command);
        assert LastCall(history) == LastCall(path) && history[|history| - 1] == path[|path| - 1];
        assert path[|path| - 1] == Done(Durable());
        if announced == old(announced) + [Running] {
          assert announced[|announced| - 1] == Running;
          assert Recorded() == Running;
        }
        if Smooth(circ) && circ.pid !in old(ptys) {
          SmoothLaunchReplies(start, circ, start.rows.command);
        }
      }
    }

    method RunLocked(circ: Circumstances) returns (answer: Answer)
      requires Valid() && At(LaunchCheck)
      modifies this, repository
      ensures Concludes(circ) && Truthful(answer)
      ensures if old(IsRunning(repository.View(target)))
              then announced == old(announced) && repository.View(target) == old(repository.View(target))
              else Announces(answer, circ)
    {
      Observe(LaunchCheck, circ);
      if circ.signal(LaunchCheck) != Commits {
        Release(circ);
        return Raised;
      }
      var current := repository.FindState(target);
      if current.Some? && current.value.status == Running {
        Release(circ);
        return Answered(Running);
      }
      ghost var before := history;
      Note(Preparing, circ);
      ghost var noted := history;
      answer := Prepare(circ);
      OneCallFurther(before, noted, history, circ);
    }

    // Working directory, ports and environment are settled before anything durable happens.
    method Prepare(circ: Circumstances) returns (answer: Answer)
      requires Valid() && At(Preparing)
      modifies this, repository
      ensures Concludes(circ) && Truthful(answer) && Announces(answer, circ)
    {
      Observe(Preparing, circ);
      if circ.signal(Preparing) != Commits {
        Release(circ);
        return Raised;
      }
      ghost var before, noted := history, history;
      if circ.preparation.Refused? {
        Note(RecordingFailure(circ.preparation.reason), circ);
        noted := history;
        answer := FailedRun(circ.preparation.reason, circ);
      } else {
        Note(Creating(circ.preparation.ports), circ);
        noted := history;
        answer := CreateAndLaunch(circ.preparation.ports, circ);
      }
      OneCallFurther(before, noted, history, circ);
    }

    method FailedRun(reason: DiagnosticReason, circ: Circumstances) returns (answer: Answer)
      requires Valid() && At(RecordingFailure(reason))
      modifies this, repository
      ensures Concludes(circ) && Truthful(answer) && Announces(answer, circ)
    {
      Observe(RecordingFailure(reason), circ);
      var signal := circ.signal(RecordingFailure(reason));
      if signal in {Commits, CommitsThenInterrupts} {
        var _ := repository.CreateRun(target, RunFailed, Some(reason));
      }
      if signal != Commits {
        Release(circ);
        return Raised;
      }
      ghost var before := history;
      Note(PruningFailure, circ);
      ghost var noted := history;
      answer := PruneFailure(circ);
      OneCallFurther(before, noted, history, circ);
    }

    method PruneFailure(circ: Circumstances) returns (answer: Answer)
      requires Valid() && At(PruningFailure)
      modifies this, repository
      ensures Concludes(circ) && Truthful(answer) && Announces(answer, circ)
    {
      Observe(PruningFailure, circ);
      var signal := circ.signal(PruningFailure);
      if signal in {Commits, CommitsThenInterrupts} {
        PruneRuns();
      }
      if signal != Commits {
        Release(circ);
        return Raised;
      }
      ghost var before := history;
      Note(WritingFailure, circ);
      ghost var noted := history;
      answer := WriteFailure(circ);
      OneCallFurther(before, noted, history, circ);
    }

    method WriteFailure(circ: Circumstances) returns (answer: Answer)
      requires Valid() && At(WritingFailure)
      modifies this, repository
      ensures Concludes(circ) && Truthful(answer) && Announces(answer, circ)
    {
      Observe(WritingFailure, circ);
      var signal := circ.signal(WritingFailure);
      if signal in {Commits, CommitsThenInterrupts} {
        repository.TransitionState(target, Failed, None);
      }
      Release(circ);
      if signal != Commits {
        return Raised;
      }
      PublishCommandChanged(Failed);
      return Answered(Failed);
    }

    method CreateAndLaunch(ports: Ports, circ: Circumstances) returns (answer: Answer)
      requires Valid() && At(Creating(ports))
      modifies this, repository
      ensures Concludes(circ) && Truthful(answer) && Announces(answer, circ)
    {
      Observe(Creating(ports), circ);
      var signal := circ.signal(Creating(ports));
      var run := repository.nextRunId;
      if signal in {Commits, CommitsThenInterrupts} {
        run := repository.CreateRun(target, Open, None);
      }
      if signal != Commits {
        Release(circ);
        return Raised;
      }
      NewestAfterInsert(old(repository.View(target)).runs, run, RunRow(Open, None, None));
      answer := ProtectedLaunch(run, ports, circ);
    }

    // The part of the launch that the interruption finalizer covers.
    method ProtectedLaunch(run: RunId, ports: Ports, circ: Circumstances) returns (answer: Answer)
      requires Valid() && Leads(Pruning(run, ports), circ) && Newest(repository.View(target).runs) == Some(run)
      modifies this, repository
      ensures Concludes(circ) && Truthful(answer) && Announces(answer, circ)
    {
      allocation, linked := None, false;
      ghost var before := history;
      Note(Pruning(run, ports), circ);
      ghost var noted := history;
      answer := PruneAndMark(run, ports, circ);
      OneCallFurther(before, noted, history, circ);
    }

    method PruneAndMark(run: RunId, ports: Ports, circ: Circumstances) returns (answer: Answer)
      requires Valid() && At(Pruning(run, ports)) && Newest(repository.View(target).runs) == Some(run)
               && allocation.None? && !linked
      modifies this, repository
      ensures Concludes(circ) && Truthful(answer) && Announces(answer, circ)
    {
      Observe(Pruning(run, ports), circ);
      var signal := circ.signal(Pruning(run, ports));
      if signal in {Commits, CommitsThenInterrupts} {
        PruneRuns();
      }
      match signal {
        case Commits =>
          answer := MarkPruned(run, ports, circ);
        case Faults =>
          answer := FailUnmarked(run, circ);
        case _ =>
          CutOff(run, circ);
          return Raised;
      }
    }

    method MarkPruned(run: RunId, ports: Ports, circ: Circumstances) returns (answer: Answer)
      requires Valid() && Leads(Marking(run, ports), circ) && allocation.None? && !linked
      requires Newest(repository.View(target).runs) == Some(run)
      modifies this, repository
      ensures Concludes(circ) && Truthful(answer) && Announces(answer, circ)
    {
      ghost var before := history;
      Note(Marking(run, ports), circ);
      ghost var noted := history;
      answer := Mark(run, ports, circ);
      OneCallFurther(before, noted, history, circ);
    }

    method FailUnmarked(run: RunId, circ: Circumstances) returns (answer: Answer)
      requires Valid() && Leads(Aborting(run), circ) && allocation.None? && !linked
      requires Newest(repository.View(target).runs) == Some(run)
      modifies this, repository
      ensures Concludes(circ) && answer.Raised? && Announces(answer, circ)
    {
      ghost var before := history;
      Note(Aborting(run), circ);
      ghost var noted := history;
      answer := ConvergeBeforeMarker(run, circ);
      OneCallFurther(before, noted, history, circ);
    }

    // The launch was interrupted: the finalizer goes by what it knows of the handoff.
    method CutOff(run: RunId, circ: Circumstances)
      requires Valid() && (linked ==> allocation.Some?)
      requires Leads(if linked then Recovering(run, allocation.value)
                     else Converging(run, LAUNCH_FAILURE, None, true), circ)
      modifies this, repository
      ensures Concludes(circ) && Announces(Raised, circ)
    {
      ghost var before := history;
      Note(if linked then Recovering(run, allocation.value) else Converging(run, LAUNCH_FAILURE, None, true), circ);
      ghost var noted := history;
      InterruptionFinalizer(run, circ);
      OneCallFurther(before, noted, history, circ);
    }

    method PruneRuns()
      requires Valid()
      modifies repository`runs
      ensures Valid() && repository.View(target) == Prune(old(repository.View(target)), RUNS_TO_RETAIN)
      ensures Newest(repository.View(target).runs) == Newest(old(repository.View(target)).runs)
      ensures forall u :: u != target ==> repository.View(u) == old(repository.View(u))
    {
      PruneKeepsNewest(repository.View(target));
      var _ := repository.PruneRunHistory(target, RUNS_TO_RETAIN);
    }

    method Mark(run: RunId, ports: Ports, circ: Circumstances) returns (answer: Answer)
      requires Valid() && At(Marking(run, ports)) && Newest(repository.View(target).runs) == Some(run)
               && allocation.None? && !linked
      modifies this, repository
      ensures Concludes(circ) && Truthful(answer) && Announces(answer, circ)
    {
      Observe(Marking(run, ports), circ);
      var signal := circ.signal(Marking(run, ports));
      if signal in {Commits, CommitsThenInterrupts} {
        repository.MarkLaunchInProgress(target, ports);
      }
      match signal {
        case Commits =>
          answer := LaunchMarked(run, circ);
        case Faults =>
          answer := FailUnmarked(run, circ);
        case _ =>
          CutOff(run, circ);
          return Raised;
      }
    }

    method LaunchMarked(run: RunId, circ: Circumstances) returns (answer: Answer)
      requires Valid() && Leads(Allocating(run), circ) && allocation.None? && !linked
      requires Newest(repository.View(target).runs) == Some(run) && IsRunning(repository.View(target))
      modifies this, repository
      ensures Concludes(circ) && Truthful(answer) && Announces(answer, circ)
    {
      ghost var before := history;
      Note(Allocating(run), circ);
      ghost var noted := history;
      answer := AllocateLaunch(run, circ);
      OneCallFurther(before, noted, history, circ);
    }

    // The marker was never written, so the state row stays untouched and the run alone is closed. The same
    // status is announced again.
    method ConvergeBeforeMarker(run: RunId, circ: Circumstances) returns (answer: Answer)
      requires Valid() && At(Aborting(run)) && allocation.None? && !linked
      requires Newest(repository.View(target).runs) == Some(run)
      modifies this, repository
      ensures Concludes(circ) && answer.Raised? && Announces(answer, circ)
      ensures circ.signal(Aborting(run)) == Commits ==>
                && repository.View(target).state == old(repository.View(target)).state
                && run in repository.View(target).runs && FailedLaunch(repository.View(target).runs[run])
                && announced == old(announced) + [Recorded()]
    {
      Observe(Aborting(run), circ);
      match circ.signal(Aborting(run)) {
        case Commits =>
          FailOpenRun(run);
          Release(circ);
          Republish();
        case Faults =>
          Release(circ);
        case Interrupts =>
          CutOff(run, circ);
        case CommitsThenInterrupts =>
          FailOpenRun(run);
          CutOff(run, circ);
      }
      return Raised;
    }

    // Announce the status as it stands.
    method Republish()
      requires Released()
      modifies this`announced
      ensures Released() && announced == old(announced) + [Recorded()]
    {
      var current := repository.FindState(target);
      PublishCommandChanged(if current.Some? then current.value.status else Idle);
    }

    method FailOpenRun(run: RunId)
      requires Valid() && run in repository.View(target).runs
      modifies repository`runs
      ensures Valid()
      ensures repository.View(target) ==
                CompleteRun(old(repository.View(target)), run, RunFailed, Some(PtyLaunchFailed))
      ensures forall u :: u != target ==> repository.View(u) == old(repository.View(u))
    {
      assert forall u :: u != target ==> run !in repository.View(u).runs;
      var _ := repository.CompleteRun(run, RunFailed, Some(PtyLaunchFailed));
    }

    method AllocateLaunch(run: RunId, circ: Circumstances) returns (answer: Answer)
      requires Valid() && At(Allocating(run)) && Newest(repository.View(target).runs) == Some(run) && allocation.None?
               && !linked && IsRunning(repository.View(target))
      modifies this, repository
      ensures Concludes(circ) && Truthful(answer) && Announces(answer, circ)
    {
      Observe(Allocating(run), circ);
      var signal := circ.signal(Allocating(run));
      var acquired := signal in {Commits, CommitsThenInterrupts} && circ.pid !in ptys;
      if acquired {
        ptys := ptys[circ.pid := Pty(Pending, NotStarted)];
      }
      if acquired && signal == Commits {
        answer := LinkAllocated(run, circ.pid, circ);
      } else {
        answer := FailUnlinked(run, acquired || signal == Interrupts, circ);
      }
    }

    method LinkAllocated(run: RunId, pid: Pid, circ: Circumstances) returns (answer: Answer)
      requires Valid() && Leads(Linking(run, pid), circ) && !linked
      requires IsRunning(repository.View(target)) && Newest(repository.View(target).runs) == Some(run) && pid in ptys
      modifies this, repository
      ensures Concludes(circ) && Truthful(answer) && Announces(answer, circ)
    {
      allocation := Some(pid);
      ghost var before := history;
      Note(Linking(run, pid), circ);
      ghost var noted := history;
      answer := LinkRun(run, pid, circ);
      OneCallFurther(before, noted, history, circ);
    }

    // No process can own the run yet: it converges as a failed launch.
    method FailUnlinked(run: RunId, interrupted: bool, circ: Circumstances) returns (answer: Answer)
      requires Valid() && !linked && Leads(Converging(run, LAUNCH_FAILURE, None, interrupted), circ)
      requires IsRunning(repository.View(target))
      modifies this, repository
      ensures Concludes(circ) && Truthful(answer) && Announces(answer, circ)
    {
      if interrupted {
        CutOff(run, circ);
        return Raised;
      }
      answer := ConvergeAs(run, LAUNCH_FAILURE, circ);
    }

    method ConvergeAs(run: RunId, outcome: Outcome, circ: Circumstances) returns (answer: Answer)
      requires Valid() && Leads(Converging(run, outcome, if linked then allocation else None, false), circ)
      requires IsRunning(repository.View(target)) && (linked ==> allocation.Some?)
      modifies this, repository
      ensures Concludes(circ) && Truthful(answer) && Announces(answer, circ)
    {
      ghost var before := history;
      Note(Converging(run, outcome, if linked then allocation else None, false), circ);
      ghost var noted := history;
      answer := Converge(run, outcome, circ);
      OneCallFurther(before, noted, history, circ);
    }

    // The run names its incarnation before that is started.
    method LinkRun(run: RunId, pid: Pid, circ: Circumstances) returns (answer: Answer)
      requires Valid() && At(Linking(run, pid)) && allocation == Some(pid) && !linked
      requires IsRunning(repository.View(target)) && Newest(repository.View(target).runs) == Some(run) && pid in ptys
      modifies this, repository
      ensures Concludes(circ) && Truthful(answer) && Announces(answer, circ)
    {
      Observe(Linking(run, pid), circ);
      var signal := circ.signal(Linking(run, pid));
      if signal in {Commits, CommitsThenInterrupts} {
        WriteLink(run, pid);
      }
      if signal == Commits {
        answer := StartLinked(run, pid, circ);
      } else {
        answer := FailUnlinked(run, signal != Faults, circ);
      }
    }

    // From here on the interruption finalizer knows that the link is durable.
    method StartLinked(run: RunId, pid: Pid, circ: Circumstances) returns (answer: Answer)
      requires Valid() && Leads(Starting(run, pid), circ) && allocation == Some(pid)
      requires IsRunning(repository.View(target)) && pid in ptys
      modifies this, repository
      ensures Concludes(circ) && Truthful(answer) && Announces(answer, circ)
    {
      linked := true;
      ghost var before := history;
      Note(Starting(run, pid), circ);
      ghost var noted := history;
      answer := Start(run, pid, circ);
      OneCallFurther(before, noted, history, circ);
    }

    method WriteLink(run: RunId, pid: Pid)
      requires Valid() && run in repository.View(target).runs
      modifies repository`runs
      ensures Valid()
      ensures repository.View(target) == CommandStore.LinkRun(old(repository.View(target)), run, pid)
      ensures forall u :: u != target ==> repository.View(u) == old(repository.View(u))
    {
      assert forall u :: u != target ==> run !in repository.View(u).runs;
      var _ := repository.UpdateRunPty(run, pid);
    }

    method Start(run: RunId, pid: Pid, circ: Circumstances) returns (answer: Answer)
      requires Valid() && At(Starting(run, pid)) && allocation == Some(pid) && linked
      requires IsRunning(repository.View(target)) && pid in ptys
      modifies this, repository
      ensures Concludes(circ) && Truthful(answer) && Announces(answer, circ)
    {
      Observe(Starting(run, pid), circ);
      var signal := circ.signal(Starting(run, pid));
      if signal != Interrupts && circ.alive {
        ptys := ptys[pid := ptys[pid].(process := Alive)];
      }
      if signal in {Interrupts, CommitsThenInterrupts} {
        CutOff(run, circ);
        return Raised;
      }
      ghost var before := history;
      Note(Handoff(run, pid), circ);
      ghost var noted := history;
      answer := ReadStarted(run, pid, circ);
      OneCallFurther(before, noted, history, circ);
    }

    // The row is read back once: an end it records is converged to, and otherwise, or when the read fails,
    // the launch goes on to own the process.
    method ReadStarted(run: RunId, pid: Pid, circ: Circumstances) returns (answer: Answer)
      requires Valid() && At(Handoff(run, pid)) && allocation == Some(pid) && linked
      requires IsRunning(repository.View(target))
      modifies this, repository
      ensures Concludes(circ) && Truthful(answer) && Announces(answer, circ)
    {
      Observe(Handoff(run, pid), circ);
      var signal := circ.signal(Handoff(run, pid));
      if signal in {Interrupts, CommitsThenInterrupts} {
        CutOff(run, circ);
        return Raised;
      }
      if signal == Commits && pid in ptys && ptys[pid].row.Ended? {
        answer := ConvergeAs(run, TerminalOutcome(ptys[pid].row.facts, AtLaunch), circ);
        return;
      }
      ghost var before := history;
      Note(Installing(run, pid, false), circ);
      ghost var noted := history;
      answer := Install(run, pid, circ);
      OneCallFurther(before, noted, history, circ);
    }

    method Install(run: RunId, pid: Pid, circ: Circumstances) returns (answer: Answer)
      requires Valid() && At(Installing(run, pid, false)) && allocation == Some(pid) && linked
      modifies this, repository
      ensures Concludes(circ) && Truthful(answer) && Announces(answer, circ)
    {
      Observe(Installing(run, pid, false), circ);
      var signal := circ.signal(Installing(run, pid, false));
      if signal in {Commits, CommitsThenInterrupts} {
        repository.TransitionState(target, Running, Some(pid));
      }
      if signal in {Commits, Faults} {
        Release(circ);
        if signal == Commits {
          PublishCommandChanged(Running);
        }
        return if signal == Commits then Answered(Running) else Raised;
      }
      CutOff(run, circ);
      return Raised;
    }

    // The run-keyed finalizer, under the launch-in-progress marker.
    method Converge(run: RunId, outcome: Outcome, circ: Circumstances) returns (answer: Answer)
      requires Valid() && At(Converging(run, outcome, if linked then allocation else None, false))
      requires IsRunning(repository.View(target)) && (linked ==> allocation.Some?)
      modifies this, repository
      ensures Concludes(circ) && Truthful(answer) && Announces(answer, circ)
    {
      var at := Converging(run, outcome, if linked then allocation else None, false);
      Observe(at, circ);
      var signal := circ.signal(at);
      var transitioned := false;
      if signal in {Commits, CommitsThenInterrupts} {
        var result := repository.FinalizeRunAndStateByRun(target, run, outcome);
        transitioned := result.stateTransitioned;
      }
      if signal in {Interrupts, CommitsThenInterrupts} {
        CutOff(run, circ);
        return Raised;
      }
      Release(circ);
      if signal == Faults {
        return Raised;
      }
      if transitioned {
        PublishCommandChanged(outcome.stateStatus);
      }
      return Answered(outcome.stateStatus);
    }

    // Cannot itself be interrupted, and the lock is held. What it does depends on whether the link was seen
    // to commit: if not, the launch has failed; if so, the process may exist, and it is owned unless its row
    // says that it has ended.
    method InterruptionFinalizer(run: RunId, circ: Circumstances)
      requires Valid() && (linked ==> allocation.Some?)
      requires At(if linked then Recovering(run, allocation.value) else Converging(run, LAUNCH_FAILURE, None, true))
      modifies this, repository
      ensures Concludes(circ) && Announces(Raised, circ)
    {
      if !linked {
        ConvergeMasked(run, LAUNCH_FAILURE, None, circ);
        return;
      }
      var pid := allocation.value;
      Observe(Recovering(run, pid), circ);
      ghost var before, noted := history, history;
      if circ.signal(Recovering(run, pid)) != Faults && pid in ptys && ptys[pid].row.Ended? {
        var outcome := TerminalOutcome(ptys[pid].row.facts, AtLaunch);
        Note(Converging(run, outcome, Some(pid), true), circ);
        noted := history;
        ConvergeMasked(run, outcome, Some(pid), circ);
      } else {
        Note(Installing(run, pid, true), circ);
        noted := history;
        InstallMasked(run, pid, circ);
      }
      OneCallFurther(before, noted, history, circ);
    }

    method ConvergeMasked(run: RunId, outcome: Outcome, owned: Option<Pid>, circ: Circumstances)
      requires Valid() && At(Converging(run, outcome, owned, true))
      modifies this, repository
      ensures Concludes(circ) && Announces(Raised, circ)
      ensures circ.signal(Converging(run, outcome, owned, true)) != Faults
              && IsRunning(old(repository.View(target))) ==>
                announced == old(announced) + [outcome.stateStatus]
    {
      Observe(Converging(run, outcome, owned, true), circ);
      if circ.signal(Converging(run, outcome, owned, true)) != Faults {
        var result := repository.FinalizeRunAndStateByRun(target, run, outcome);
        if result.stateTransitioned {
          PublishCommandChanged(outcome.stateStatus);
        }
      }
      Release(circ);
    }

    method InstallMasked(run: RunId, pid: Pid, circ: Circumstances)
      requires Valid() && At(Installing(run, pid, true))
      modifies this, repository
      ensures Concludes(circ) && Announces(Raised, circ)
      ensures circ.signal(Installing(run, pid, true)) != Faults ==> announced == old(announced) + [Running]
    {
      Observe(Installing(run, pid, true), circ);
      if circ.signal(Installing(run, pid, true)) != Faults {
        repository.TransitionState(target, Running, Some(pid));
        PublishCommandChanged(Running);
      }
      Release(circ);
    }
  }

  /** Every durable state a launch leaves behind satisfies the ownership invariant, under any circumstances. */
  lemma LaunchKeepsOwnership(before: seq<Local>, after: seq<Local>, circ: Circumstances, i: nat)
    requires Continues(before, after, circ) && |before| - 1 <= i < |after|
    requires Inv(before[|before| - 1]) && before[|before| - 1].pc.Launching?
    ensures Inv(after[i]) && after[|after| - 1].pc == Unlocked
  {
    var path := Path(before[|before| - 1], circ);
    PathKeepsInv(before[|before| - 1], circ);
    assert after[i] == path[i - (|before| - 1)];
    assert after[|after| - 1] == path[|path| - 1];
  }
}
