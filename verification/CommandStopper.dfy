/**
 The stop flow and the restart built on it (apps/runtime/src/commands/service.ts). As for a launch,
 the durable states a stop produces are the ones the protocol goes through under the same circumstances.
 */
module CommandStopper {
  import opened Optional
  import opened Outcomes
  import opened CommandStore
  import opened CommandTables
  import opened Protocol
  import opened ProtocolInvariant
  import opened LaunchRun
  import opened LaunchOutcome
  import opened StopRun
  import opened StopOutcome
  import opened CommandLauncher

  datatype StopAnswer = StopAnswered(status: CommandStatus, resolution: Resolution) | StopRaised

  ghost predicate StopContinues(before: seq<Local>, after: seq<Local>, circ: StopCircumstances) {
    |before| > 0 && after == before[..|before| - 1] + StopPath(before[|before| - 1], circ)
  }

  ghost predicate StopExtends(before: seq<Local>, after: seq<Local>, circ: StopCircumstances) {
    && |before| > 0 && before[|before| - 1].pc.Stopping?
    && var l := before[|before| - 1]; after == before + [StopAfter(l.rows, l.pc.stop, l.pc.at, circ)]
  }

  lemma OneStopCallFurther(before: seq<Local>, noted: seq<Local>, after: seq<Local>, circ: StopCircumstances)
    requires StopExtends(before, noted, circ) && StopContinues(noted, after, circ)
    ensures StopContinues(before, after, circ)
  {
    var l := before[|before| - 1];
    EveryStopCallIsAStep(l.rows, l.pc.stop, l.pc.at, circ);
    assert noted[..|noted| - 1] == before;
    assert before == before[..|before| - 1] + [l];
  }

  lemma StopEnds(before: seq<Local>, circ: StopCircumstances)
    requires |before| > 0 && !before[|before| - 1].pc.Stopping?
    ensures StopContinues(before, before, circ)
  {
    assert before == before[..|before| - 1] + [before[|before| - 1]];
  }

  class Stopper {
    const runner: Launcher
    const repository: CommandRepository
    const target: Target
    const stop: StopRequest
    // A restart announces its launch, not the stop before it.
    const suppress: bool

    constructor (runner: Launcher, stop: StopRequest)
      ensures this.runner == runner && this.stop == stop && repository == runner.repository && target == runner.target
      ensures suppress == stop.restart
    {
      this.runner, this.stop, this.suppress := runner, stop, stop.restart;
      repository, target := runner.repository, runner.target;
    }

    ghost predicate Valid()
      reads this, runner, repository
    {
      repository == runner.repository && target == runner.target && runner.Valid()
    }

    ghost predicate StopAt(at: StopPc)
      reads this, runner, repository
      requires Valid()
    {
      |runner.history| > 0 && runner.history[|runner.history| - 1] == Stop(runner.Durable(), stop, at)
    }

    // The stop has run to its end: the recorded states continue along the protocol's path, and no
    // other command's rows have changed. Only a restart that may go on keeps the lock.
    twostate predicate Ends(answer: StopAnswer, circ: StopCircumstances)
      reads this, runner, repository
    {
      && Valid() && StopContinues(old(runner.history), runner.history, circ) && |runner.history| > 0
      && (if stop.restart && answer.StopAnswered? then runner.At(LaunchCheck) else runner.Released())
      && Resolves(answer, circ)
      && forall u :: u != target ==> repository.View(u) == old(repository.View(u))
    }

    // A stop answers when it has come to its return and is not cut off there, with what it decided before.
    ghost predicate Resolves(answer: StopAnswer, circ: StopCircumstances)
      reads runner`history
    {
      && (answer.StopAnswered? <==>
          Returned(runner.history, stop) && (stop.restart ==> circ.signal(StopReturned) == Commits))
      && (answer.StopAnswered? ==> answer.resolution == Decision(runner.history, stop))
    }

    // The answer says what became of the status, and whatever was announced is what the tables hold.
    twostate predicate Tells(answer: StopAnswer, was: CommandStatus)
      reads this, runner, repository
    {
      var now := StatusOf(repository.View(target));
      && (answer.StopAnswered? ==>
          && answer.status == now
          && (answer.resolution == Unchanged <==> now == was)
          && (answer.resolution == SuspendedNow ==> now == Suspended && stop.cause == Deactivation)
          && (answer.resolution == StoppedNow ==> now == Stopped)
          && (answer.resolution == Unassociated ==> now == Failed))
      && (runner.announced == old(runner.announced) || runner.announced == old(runner.announced) + [now])
      && (answer.StopAnswered? && !suppress ==>
          runner.announced == old(runner.announced) + if now == was then [] else [now])
    }

    // The call just made leads the protocol to `at`, with the rows as they stand.
    ghost predicate Leads(at: StopPc, circ: StopCircumstances)
      reads this, runner, repository
      requires Valid()
    {
      && |runner.history| > 0 && runner.history[|runner.history| - 1].pc.Stopping?
      && var l := runner.history[|runner.history| - 1];
         StopAfter(l.rows, l.pc.stop, l.pc.at, circ) == Stop(runner.Durable(), stop, at)
    }

    ghost method Note(at: StopPc, circ: StopCircumstances)
      requires Valid() && Leads(at, circ)
      modifies runner`history
      ensures Valid() && StopExtends(old(runner.history), runner.history, circ) && StopAt(at)
    {
      runner.history := runner.history + [Stop(runner.Durable(), stop, at)];
    }

    // The call just made was the stop's last one.
    ghost method Finish(circ: StopCircumstances, pc: Pc)
      requires Valid() && |runner.history| > 0 && runner.history[|runner.history| - 1].pc.Stopping? && !pc.Stopping?
      requires var l := runner.history[|runner.history| - 1];
               StopAfter(l.rows, l.pc.stop, l.pc.at, circ) == Local(runner.Durable(), pc)
      modifies runner`history
      ensures Valid() && StopContinues(old(runner.history), runner.history, circ)
      ensures |runner.history| > 0 && runner.history[|runner.history| - 1] == Local(runner.Durable(), pc)
      ensures runner.history[..|runner.history| - 1] == old(runner.history)
    {
      runner.history := runner.history + [Local(runner.Durable(), pc)];
      StopEnds(runner.history, circ);
      OneStopCallFurther(old(runner.history), runner.history, runner.history, circ);
    }

    method Observe(at: StopPc, circ: StopCircumstances)
      requires Valid()
      modifies runner`ptys
      ensures Valid() && runner.ptys == Settle(old(runner.ptys), Stopping(stop, at), circ.moves(at))
    {
      runner.ptys := Settle(runner.ptys, Stopping(stop, at), circ.moves(at));
    }

    /** A stop, entered with its command's lock held. It takes the protocol's path, and its resolution is on
        record: a process alive until then that this stop ended leaves the pointer clear, its run stopped and
        the command suspended exactly for a deactivation; a process that had ended shows its end; and a stop
        of a process that stays up, if it answers, has ended it. */
    method StopResolvedCommand(circ: StopCircumstances) returns (answer: StopAnswer)
      requires Valid() && StopAt(StopRead)
      modifies runner, repository
      ensures Ends(answer, circ) && Tells(answer, old(StatusOf(repository.View(target))))
      ensures old(!IsRunning(repository.View(target))) && stop.cause == Deactivation ==>
                repository.View(target) == old(repository.View(target))
      ensures answer.StopAnswered? ==>
                ReturnsOnRecord(old(runner.Durable()), runner.Durable(), stop.cause, answer.resolution, circ)
      ensures (forall at :: circ.signal(at) == Commits) ==> answer.StopAnswered?
    {
      ghost var start := runner.history[|runner.history| - 1];
      ghost var path := StopPath(start, circ);
      answer := StopLocked(circ);
      assert runner.history[|runner.history| - 1] == path[|path| - 1];
      StopIsOnRecord(start.rows, start, circ);
      if forall at :: circ.signal(at) == Commits {
        CommittedStopReturns(start, circ);
      }
      ReturnedAlong(old(runner.history), runner.history, path);
    }

    // Whether and how a stop returned shows in the states it added.
    lemma ReturnedAlong(before: seq<Local>, after: seq<Local>, path: seq<Local>)
      requires |before| > 0 && |path| >= 2 && after == before[..|before| - 1] + path
      requires path[0].pc == Stopping(stop, StopRead)
      ensures Returned(path, stop) ==> Returned(after, stop) && Decision(after, stop) == Decision(path, stop)
      ensures Returned(after, stop) ==> Returned(path, stop)
    {
    }

    method StopLocked(circ: StopCircumstances) returns (answer: StopAnswer)
      requires Valid() && StopAt(StopRead)
      modifies runner, repository
      ensures Ends(answer, circ) && Tells(answer, old(StatusOf(repository.View(target))))
      ensures old(!IsRunning(repository.View(target))) && stop.cause == Deactivation ==>
                repository.View(target) == old(repository.View(target))
    {
      Observe(StopRead, circ);
      if circ.signal(StopRead) != Commits {
        Finish(circ, Unlocked);
        return StopRaised;
      }
      var state := repository.FindState(target);
      var next := DecideStop(state);
      if next.StopReturned? {
        answer := Conclude(StopAnswered(if state.Some? then state.value.status else Idle, Unchanged), false, circ);
        return;
      }
      ghost var before := runner.history;
      Note(next, circ);
      ghost var noted := runner.history;
      match next {
        case StopClear => answer := ClearSuspension(circ);
        case StopTerminate(pid) => answer := TerminateProcess(pid, circ);
        case StopResolve => answer := ResolvePointerlessRunningState(circ);
      }
      OneStopCallFurther(before, noted, runner.history, circ);
    }

    // The stop matrix: what a status, and a running state's pointer, call for.
    function DecideStop(state: Option<StateRow>): (next: StopPc)
      ensures next.StopReturned? || next.StopClear? || next.StopTerminate? || next.StopResolve?
      ensures next.StopTerminate? || next.StopResolve? <==> state.Some? && state.value.status == Running
      ensures next.StopTerminate? ==> state.value.pointer == Some(next.pid)
      ensures next.StopClear? <==> state.Some? && state.value.status == Suspended && stop.cause == User
    {
      if state.None? then StopReturned
      else if state.value.status == Suspended then if stop.cause == User then StopClear else StopReturned
      else if state.value.status != Running then StopReturned
      else if state.value.pointer.Some? then StopTerminate(state.value.pointer.value)
      else StopResolve
    }

    // The stop, returning after a call made here, comes to this resolution.
    ghost predicate Decides(l: Local, result: StopAnswer)
      requires result.StopAnswered?
    {
      l.pc.Stopping? && result.resolution == ResolutionAt(l.pc.at, stop.cause)
    }

    // The call is about to return; a restart launches unless it is cut off first.
    method Return(result: StopAnswer, circ: StopCircumstances) returns (answer: StopAnswer)
      requires Valid() && StopAt(StopReturned) && result.StopAnswered?
      requires |runner.history| >= 2 && Decides(runner.history[|runner.history| - 2], result)
      modifies runner`ptys, runner`history
      ensures Ends(answer, circ) && (answer == result || answer.StopRaised?)
      ensures repository.View(target) == old(repository.View(target))
    {
      Observe(StopReturned, circ);
      if stop.restart && circ.signal(StopReturned) == Commits {
        Finish(circ, Launching(LaunchCheck));
        return result;
      }
      Finish(circ, Unlocked);
      return if stop.restart then StopRaised else result;
    }

    // The stop's last write is done: it is announced, unless nothing moved or a launch follows, and answered.
    method Conclude(result: StopAnswer, announce: bool, circ: StopCircumstances) returns (answer: StopAnswer)
      requires Valid() && Leads(StopReturned, circ) && result.StopAnswered?
      requires result.status == StatusOf(repository.View(target))
      requires Decides(runner.history[|runner.history| - 1], result)
      modifies runner`ptys, runner`history, runner`announced
      ensures Ends(answer, circ) && (answer == result || answer.StopRaised?)
      ensures repository.View(target) == old(repository.View(target))
      ensures runner.announced == old(runner.announced) + if announce then [result.status] else []
    {
      ghost var before := runner.history;
      Note(StopReturned, circ);
      ghost var noted := runner.history;
      if announce {
        runner.PublishCommandChanged(result.status);
      }
      answer := Return(result, circ);
      OneStopCallFurther(before, noted, runner.history, circ);
    }

    // Only a person clears a suspension.
    method ClearSuspension(circ: StopCircumstances) returns (answer: StopAnswer)
      requires Valid() && StopAt(StopClear) && StatusOf(repository.View(target)) == Suspended
      modifies runner, repository
      ensures Ends(answer, circ) && Tells(answer, Suspended)
    {
      Observe(StopClear, circ);
      var signal := circ.signal(StopClear);
      if signal in {Commits, CommitsThenInterrupts} {
        repository.TransitionState(target, Stopped, None);
      }
      if signal != Commits {
        Finish(circ, Unlocked);
        return StopRaised;
      }
      answer := Conclude(StopAnswered(Stopped, StoppedNow), !suppress, circ);
    }

    // No pointer says what to stop, so the newest run is asked.
    method ResolvePointerlessRunningState(circ: StopCircumstances) returns (answer: StopAnswer)
      requires Valid() && StopAt(StopResolve) && IsRunning(repository.View(target))
      modifies runner, repository
      ensures Ends(answer, circ) && Tells(answer, Running)
    {
      Observe(StopResolve, circ);
      if circ.signal(StopResolve) != Commits {
        Finish(circ, Unlocked);
        return StopRaised;
      }
      var next := DecidePointerless();
      ghost var before := runner.history;
      Note(next, circ);
      ghost var noted := runner.history;
      match next {
        case StopUnassociated => answer := FailUnassociated(circ);
        case StopConverge(run, outcome) => answer := Converge(run, outcome, circ);
        case StopReadopt(pid) => answer := ReadoptThenTerminate(pid, circ);
      }
      OneStopCallFurther(before, noted, runner.history, circ);
    }

    // A row that has ended gives the outcome, one that has not is owned again; failing the command is left
    // for when there is no row to go by.
    method DecidePointerless() returns (next: StopPc)
      requires Valid()
      ensures next == ResolvePointerless(runner.Durable(), stop.cause)
      ensures next.StopUnassociated? || next.StopConverge? || next.StopReadopt?
      ensures next.StopConverge? ==> Terminal(next.outcome)
    {
      var run := repository.FindLatestRun(target);
      if run.None? {
        return StopUnassociated;
      }
      var link := repository.runs[run.value].row.link;
      if link.None? || link.value !in runner.ptys {
        return StopConverge(run.value, UNASSOCIATED);
      }
      var row := runner.ptys[link.value].row;
      if row.Pending? {
        return StopReadopt(link.value);
      }
      var outcome := TerminalOutcome(row.facts, AtEvent);
      // A person who stops a suspended process means to stop it.
      var stateStatus :=
        if outcome.stateStatus == Suspended && stop.cause != Deactivation
        then StatusOfRun(outcome.runStatus) else outcome.stateStatus;
      return StopConverge(run.value, outcome.(stateStatus := stateStatus));
    }

    method FailUnassociated(circ: StopCircumstances) returns (answer: StopAnswer)
      requires Valid() && StopAt(StopUnassociated) && IsRunning(repository.View(target))
      modifies runner, repository
      ensures Ends(answer, circ) && Tells(answer, Running)
    {
      Observe(StopUnassociated, circ);
      var signal := circ.signal(StopUnassociated);
      if signal in {Commits, CommitsThenInterrupts} {
        repository.TransitionState(target, Failed, None);
      }
      if signal != Commits {
        Finish(circ, Unlocked);
        return StopRaised;
      }
      answer := Conclude(StopAnswered(Failed, Unassociated), true, circ);
    }

    method Converge(run: RunId, outcome: Outcome, circ: StopCircumstances) returns (answer: StopAnswer)
      requires Valid() && StopAt(StopConverge(run, outcome)) && IsRunning(repository.View(target)) && Terminal(outcome)
      modifies runner, repository
      ensures Ends(answer, circ) && Tells(answer, Running)
    {
      Observe(StopConverge(run, outcome), circ);
      var signal := circ.signal(StopConverge(run, outcome));
      var transitioned := false;
      if signal in {Commits, CommitsThenInterrupts} {
        var result := repository.FinalizeRunAndStateByRun(target, run, outcome);
        transitioned := result.stateTransitioned;
      }
      if signal != Commits {
        Finish(circ, Unlocked);
        return StopRaised;
      }
      var resolution := if outcome == UNASSOCIATED then Unassociated else ConvergedNow;
      answer := Conclude(StopAnswered(outcome.stateStatus, resolution), transitioned, circ);
    }

    // Ownership has two halves, repaired together.
    method Readopt(pid: Pid, diagnostic: Option<DiagnosticReason>)
      requires Valid()
      modifies repository
      ensures Valid() && runner.Durable() == Readopted(old(runner.Durable()), pid, diagnostic)
      ensures IsRunning(repository.View(target)) && Pointer(repository.View(target)) == Some(pid)
      ensures diagnostic.Some? ==> NewestRunIs(repository.View(target), RunRow(Open, Some(pid), diagnostic))
      ensures forall u :: u != target ==> repository.View(u) == old(repository.View(u))
    {
      ReadoptedNewest(repository.View(target), pid, diagnostic, repository.nextRunId);
      repository.ReadoptCommandIncarnation(target, pid, diagnostic);
    }

    // Nothing has failed: repair ownership, then stop through the ordinary path.
    method ReadoptThenTerminate(pid: Pid, circ: StopCircumstances) returns (answer: StopAnswer)
      requires Valid() && StopAt(StopReadopt(pid)) && IsRunning(repository.View(target))
      modifies runner, repository
      ensures Ends(answer, circ) && Tells(answer, Running)
    {
      Observe(StopReadopt(pid), circ);
      var signal := circ.signal(StopReadopt(pid));
      if signal in {Commits, CommitsThenInterrupts} {
        Readopt(pid, None);
      }
      if signal != Commits {
        Finish(circ, Unlocked);
        return StopRaised;
      }
      ghost var before := runner.history;
      Note(StopTerminate(pid), circ);
      ghost var noted := runner.history;
      answer := TerminateProcess(pid, circ);
      OneStopCallFurther(before, noted, runner.history, circ);
    }

    // Suspension is minted at one point: a live process terminated under a deactivation.
    method TerminateProcess(pid: Pid, circ: StopCircumstances) returns (answer: StopAnswer)
      requires Valid() && StopAt(StopTerminate(pid)) && IsRunning(repository.View(target))
      requires Pointer(repository.View(target)) == Some(pid)
      modifies runner, repository
      ensures Ends(answer, circ) && Tells(answer, Running)
    {
      Observe(StopTerminate(pid), circ);
      var result := Terminate(pid, circ);
      if result == Interrupt {
        Finish(circ, Unlocked);
        return StopRaised;
      }
      if result == AlreadyAbsent {
        // No process was found, and its own event will record the end.
        answer := Conclude(StopAnswered(Running, Unchanged), false, circ);
        return;
      }
      answer := FollowTermination(pid, result == TerminatedLive, circ);
    }

    method FollowTermination(pid: Pid, ended: bool, circ: StopCircumstances) returns (answer: StopAnswer)
      requires Valid() && Leads(if ended then StopFinalize(pid) else StopRecord(pid), circ)
      requires IsRunning(repository.View(target)) && Pointer(repository.View(target)) == Some(pid)
      modifies runner, repository
      ensures Ends(answer, circ) && Tells(answer, Running)
    {
      ghost var before := runner.history;
      Note(if ended then StopFinalize(pid) else StopRecord(pid), circ);
      ghost var noted := runner.history;
      if ended {
        answer := FinalizeStopped(pid, circ);
      } else {
        RecordProcessControlFailure(pid, circ);
        answer := StopRaised;
      }
      OneStopCallFurther(before, noted, runner.history, circ);
    }

    // The process layer's answer: it ended a live process, found none, failed, or was interrupted.
    method Terminate(pid: Pid, circ: StopCircumstances) returns (result: Choice)
      requires Valid()
      modifies runner`ptys
      ensures Valid() && result == StopChoiceAt(old(runner.ptys), StopTerminate(pid), circ)
      ensures result in {TerminatedLive, AlreadyAbsent, ControlFails, Interrupt}
      ensures result == TerminatedLive ==> pid in old(runner.ptys)
      ensures runner.ptys == if result == TerminatedLive
                             then old(runner.ptys)[pid := old(runner.ptys)[pid].(process := Dead)] else old(runner.ptys)
    {
      var signal := circ.signal(StopTerminate(pid));
      if signal == Faults {
        return ControlFails;
      } else if signal != Commits {
        return Interrupt;
      } else if pid !in runner.ptys || runner.ptys[pid].process != Alive {
        return AlreadyAbsent;
      }
      runner.ptys := runner.ptys[pid := runner.ptys[pid].(process := Dead)];
      return TerminatedLive;
    }

    // The process may still be alive: the command goes on owning it, with the reason recorded.
    method RecordProcessControlFailure(pid: Pid, circ: StopCircumstances)
      requires Valid() && StopAt(StopRecord(pid)) && IsRunning(repository.View(target))
      modifies runner, repository
      ensures Ends(StopRaised, circ) && Tells(StopRaised, Running)
      ensures circ.signal(StopRecord(pid)) == Commits ==>
                && Pointer(repository.View(target)) == Some(pid)
                && NewestRunIs(repository.View(target), RunRow(Open, Some(pid), Some(ProcessControlFailed)))
    {
      Observe(StopRecord(pid), circ);
      var signal := circ.signal(StopRecord(pid));
      if signal in {Commits, CommitsThenInterrupts} {
        Readopt(pid, Some(ProcessControlFailed));
      }
      Finish(circ, Unlocked);
      if signal == Commits {
        runner.PublishCommandChanged(Running);
      }
    }

    method FinalizeStopped(pid: Pid, circ: StopCircumstances) returns (answer: StopAnswer)
      requires Valid() && StopAt(StopFinalize(pid)) && IsRunning(repository.View(target))
      requires Pointer(repository.View(target)) == Some(pid)
      modifies runner, repository
      ensures Ends(answer, circ) && Tells(answer, Running)
    {
      Observe(StopFinalize(pid), circ);
      var signal := circ.signal(StopFinalize(pid));
      var stateStatus := if stop.cause == Deactivation then Suspended else Stopped;
      var transitioned := false;
      if signal in {Commits, CommitsThenInterrupts} {
        var result := repository.FinalizeRunAndStateByPty(target, pid, Outcome(RunStopped, stateStatus, None));
        transitioned := result.stateTransitioned;
      }
      if signal != Commits {
        Finish(circ, Unlocked);
        return StopRaised;
      }
      answer := Conclude(StopAnswered(stateStatus, if stateStatus == Suspended then SuspendedNow else StoppedNow),
                         transitioned && !suppress, circ);
    }

    // A user stop, and a launch under the same lock unless the stop failed.
    method Restart(circ: StopCircumstances, launch: Circumstances) returns (answer: Answer, ghost stopped: seq<Local>)
      requires Valid() && StopAt(StopRead) && stop.restart
      modifies runner, repository
      ensures Valid() && runner.Released()
      ensures StopContinues(old(runner.history), stopped, circ) && Continues(stopped, runner.history, launch)
      ensures runner.Truthful(answer)
      ensures |stopped| > 0 && var held := stopped[|stopped| - 1].rows.command;
              answer.Answered? && !IsRunning(held) ==> AnswerOnRecord(held, runner.Durable(), launch)
      ensures forall u :: u != target ==> repository.View(u) == old(repository.View(u))
    {
      var stopAnswer := StopResolvedCommand(circ);
      stopped := runner.history;
      if stopAnswer.StopRaised? {
        LaunchEnds(stopped, launch);
        return Raised, stopped;
      }
      answer := runner.RunCommand(launch);
    }
  }

  /** The same for every durable state a stop leaves behind. */
  lemma StopKeepsOwnership(before: seq<Local>, after: seq<Local>, circ: StopCircumstances, i: nat)
    requires StopContinues(before, after, circ) && |before| - 1 <= i < |after| && Inv(before[|before| - 1])
    ensures Inv(after[i])
  {
    var path := StopPath(before[|before| - 1], circ);
    StopPathKeepsInv(before[|before| - 1], circ);
    assert after[i] == path[i - (|before| - 1)];
  }
}
