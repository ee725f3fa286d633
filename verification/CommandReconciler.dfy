/**
 Cleaning up the incarnations a command still refers to, at boot or before its worktree is deleted, and
 repairing what they leave behind (apps/runtime/src/commands/convergence.ts).
 */
module CommandReconciler {
  import opened Optional
  import opened Outcomes
  import opened CommandStore
  import opened CommandTables
  import opened Protocol
  import opened ProtocolInvariant
  import opened LaunchRun

  // Which cleanup attempts succeed, which rows can be read back, which transactions commit, and the
  // process facts that land just before each call.
  datatype Conditions = Conditions(
    cleans: Pid -> bool,
    readable: Pid -> bool,
    commits: CleanupPc -> bool,
    moves: CleanupPc -> seq<Step>)

  // ----- The path through the protocol -----

  predicate InCleanup(pc: Pc) {
    pc.Reconciling? && (pc.cleanup.Cleaning? || pc.cleanup.Readopting? || pc.cleanup.RepairRead?
                        || pc.cleanup.RepairClose? || pc.cleanup.RepairState?)
  }

  function CleanupChoice(at: CleanupPc, given: Conditions): Choice {
    match at
    case Cleaning(_, _, todo, _) =>
      if todo == [] then Ok else if given.cleans(todo[0]) then Cleaned else CleanupFails(given.readable(todo[0]))
    case _ => if given.commits(at) then Ok else Fault
  }

  ghost function CleanupAfter(r: Rows, at: CleanupPc, given: Conditions): Local {
    var l := Settled(Reconcile(r, at), given.moves(at));
    CleanupStep(l.rows, at, CleanupChoice(at, given))
  }

  function CleanupDistance(pc: Pc): nat {
    if !pc.Reconciling? then 0 else
    match pc.cleanup
    case Cleaning(_, _, todo, _) => 3 + |todo|
    case RepairRead => 2
    case Readopting(_, _, _) => 1
    case RepairClose(_, _) => 1
    case RepairState(_) => 1
    case _ => 0
  }

  lemma EveryCleanupCallIsAStep(r: Rows, at: CleanupPc, given: Conditions)
    requires InCleanup(Reconciling(at))
    ensures CleanupEnabled(r, at, CleanupChoice(at, given))
    ensures CleanupDistance(CleanupAfter(r, at, given).pc) < CleanupDistance(Reconciling(at))
  {
  }

  ghost function CleanupPath(l: Local, given: Conditions): seq<Local>
    decreases CleanupDistance(l.pc)
  {
    if !InCleanup(l.pc) then [l]
    else
      EveryCleanupCallIsAStep(l.rows, l.pc.cleanup, given);
      [l] + CleanupPath(CleanupAfter(l.rows, l.pc.cleanup, given), given)
  }

  lemma CleanupAfterKeepsInv(r: Rows, at: CleanupPc, given: Conditions)
    requires Inv(Reconcile(r, at)) && InCleanup(Reconciling(at))
    ensures Inv(CleanupAfter(r, at, given))
  {
    var settled := Settled(Reconcile(r, at), given.moves(at));
    SettleOnlyEnds(Reconcile(r, at), given.moves(at));
    EveryCleanupCallIsAStep(settled.rows, at, given);
    ProgressKeepsInv(settled, CleanupChoice(at, given));
  }

  /** Every durable state of a cleanup satisfies the ownership invariant, whatever faults. */
  lemma {:induction false} CleanupPathKeepsInv(l: Local, given: Conditions)
    requires Inv(l)
    ensures forall i :: 0 <= i < |CleanupPath(l, given)| ==> Inv(CleanupPath(l, given)[i])
    decreases CleanupDistance(l.pc)
  {
    if InCleanup(l.pc) {
      CleanupAfterKeepsInv(l.rows, l.pc.cleanup, given);
      EveryCleanupCallIsAStep(l.rows, l.pc.cleanup, given);
      CleanupPathKeepsInv(CleanupAfter(l.rows, l.pc.cleanup, given), given);
    }
  }

  ghost predicate CleanupContinues(before: seq<Local>, after: seq<Local>, given: Conditions) {
    |before| > 0 && after == before[..|before| - 1] + CleanupPath(before[|before| - 1], given)
  }

  ghost predicate CleanupExtends(before: seq<Local>, after: seq<Local>, given: Conditions) {
    && |before| > 0 && InCleanup(before[|before| - 1].pc)
    && var l := before[|before| - 1]; after == before + [CleanupAfter(l.rows, l.pc.cleanup, given)]
  }

  lemma OneCleanupCallFurther(before: seq<Local>, noted: seq<Local>, after: seq<Local>, given: Conditions)
    requires CleanupExtends(before, noted, given) && CleanupContinues(noted, after, given)
    ensures CleanupContinues(before, after, given)
  {
    var l := before[|before| - 1];
    EveryCleanupCallIsAStep(l.rows, l.pc.cleanup, given);
    assert noted[..|noted| - 1] == before;
    assert before == before[..|before| - 1] + [l];
  }

  lemma CleanupEnds(before: seq<Local>, given: Conditions)
    requires |before| > 0 && !InCleanup(before[|before| - 1].pc)
    ensures CleanupContinues(before, before, given)
  {
    assert before == before[..|before| - 1] + [before[|before| - 1]];
  }

  // `after` is on `before`'s path: wherever that path goes on from `after`, it goes on from `before` too.
  ghost predicate OnPath(before: seq<Local>, after: seq<Local>, given: Conditions) {
    |after| > 0 && forall end :: CleanupContinues(after, end, given) ==> CleanupContinues(before, end, given)
  }

  lemma OnPathFurther(before: seq<Local>, middle: seq<Local>, after: seq<Local>, given: Conditions)
    requires OnPath(before, middle, given) && CleanupExtends(middle, after, given)
    ensures OnPath(before, after, given)
  {
    forall end | CleanupContinues(after, end, given) ensures CleanupContinues(before, end, given) {
      OneCleanupCallFurther(middle, after, end, given);
    }
  }

  lemma FailedOneMore(failures: seq<CleanupFailure>, more: seq<CleanupFailure>, pid: Pid)
    requires more == failures
             || (|more| == |failures| + 1 && more[..|failures|] == failures && more[|failures|].pid == pid)
    ensures forall other: Pid :: FailedPid(more, other) <==>
              FailedPid(failures, other) || (more != failures && other == pid)
  {
    forall other: Pid
      ensures FailedPid(more, other) <==> FailedPid(failures, other) || (more != failures && other == pid)
    {
      if i :| 0 <= i < |failures| && failures[i].pid == other {
        assert more[i] == failures[i];
      }
      if more != failures && other == pid {
        assert more[|failures|].pid == other;
      }
    }
  }

  // ----- The flow -----

  class Reconciler {
    const repository: CommandRepository
    const target: Target
    const mode: CleanupMode
    var ptys: map<Pid, Pty>
    var announced: seq<CommandStatus>
    // Every cleanup attempted, in order.
    var attempts: seq<Pid>

    ghost var history: seq<Local>

    constructor (repository: CommandRepository, target: Target, mode: CleanupMode, ptys: map<Pid, Pty>,
                 claims: bool, candidates: seq<Pid>)
      requires repository.Valid()
      ensures this.repository == repository && this.target == target && this.mode == mode && this.ptys == ptys
      ensures repository.Valid() && announced == [] && attempts == [] && |history| == 1
              && At(Cleaning(mode, claims, candidates, []))
    {
      this.repository, this.target, this.mode, this.ptys := repository, target, mode, ptys;
      announced, attempts := [], [];
      history := [Reconcile(Rows(repository.View(target), ptys, repository.nextRunId),
                            Cleaning(mode, claims, candidates, []))];
    }

    ghost function Durable(): Rows
      reads this, repository
    {
      Rows(repository.View(target), ptys, repository.nextRunId)
    }

    ghost predicate At(at: CleanupPc)
      reads this, repository
    {
      |history| > 0 && history[|history| - 1] == Reconcile(Durable(), at)
    }

    // The pass over this command has ended: at boot the residue sweep follows, otherwise the lock is released.
    twostate predicate Ends(failures: seq<CleanupFailure>, given: Conditions)
      reads this, repository
    {
      && repository.Valid() && CleanupContinues(old(history), history, given)
      && |history| > 0 && history[|history| - 1] == AfterCleanup(Durable(), mode, failures)
      && forall u :: u != target ==> repository.View(u) == old(repository.View(u))
    }

    ghost method Note(next: Local, given: Conditions)
      requires |history| > 0 && InCleanup(history[|history| - 1].pc)
      requires var l := history[|history| - 1]; CleanupAfter(l.rows, l.pc.cleanup, given) == next
      modifies this`history
      ensures CleanupExtends(old(history), history, given) && history[|history| - 1] == next
      ensures !InCleanup(next.pc) ==> CleanupContinues(old(history), history, given)
    {
      history := history + [next];
      if !InCleanup(next.pc) {
        CleanupEnds(history, given);
        OneCleanupCallFurther(old(history), history, history, given);
      }
    }

    method Observe(at: CleanupPc, given: Conditions)
      modifies this`ptys
      ensures ptys == Settle(old(ptys), Reconciling(at), given.moves(at))
    {
      ptys := Settle(ptys, Reconciling(at), given.moves(at));
    }

    method PublishCommandChanged(status: CommandStatus)
      requires status == StatusOf(repository.View(target))
      modifies this`announced
      ensures announced == old(announced) + [status]
    {
      announced := announced + [status];
    }

    // Reads the row once the attempt is over.
    method ClassifyCleanupFailure(pid: Pid, given: Conditions) returns (kind: FailureKind)
      ensures kind == Classify(Durable(), pid, given.readable(pid))
    {
      if !given.readable(pid) || pid !in ptys {
        return Unclassified;
      }
      return if ptys[pid].row.Ended? then TerminalGated else Unresolved;
    }

    // One attempt per candidate, in order; a failure does not end the pass.
    method AttemptCleanups(claims: bool, candidates: seq<Pid>, given: Conditions)
      returns (failures: seq<CleanupFailure>)
      requires repository.Valid() && At(Cleaning(mode, claims, candidates, []))
      modifies this`ptys, this`history, this`attempts
      ensures At(Cleaning(mode, claims, [], failures)) && OnPath(old(history), history, given)
      ensures attempts == old(attempts) + candidates
      ensures forall pid: Pid :: FailedPid(failures, pid) <==> pid in candidates && !given.cleans(pid)
      ensures repository.View(target) == old(repository.View(target))
    {
      failures := [];
      assert candidates[..0] == [] && candidates[0..] == candidates;
      for i := 0 to |candidates|
        invariant At(Cleaning(mode, claims, candidates[i..], failures)) && OnPath(old(history), history, given)
        invariant attempts == old(attempts) + candidates[..i]
        invariant forall pid: Pid :: FailedPid(failures, pid) <==> pid in candidates[..i] && !given.cleans(pid)
      {
        ghost var middle := history;
        assert candidates[i..][0] == candidates[i] && candidates[i..][1..] == candidates[i + 1..];
        assert candidates[..i + 1] == candidates[..i] + [candidates[i]];
        failures := AttemptCleanup(claims, candidates[i..], failures, given);
        OnPathFurther(old(history), middle, history, given);
      }
    }

    method AttemptCleanup(claims: bool, todo: seq<Pid>, failures: seq<CleanupFailure>, given: Conditions)
      returns (more: seq<CleanupFailure>)
      requires todo != [] && At(Cleaning(mode, claims, todo, failures))
      modifies this`ptys, this`history, this`attempts
      ensures At(Cleaning(mode, claims, todo[1..], more)) && CleanupExtends(old(history), history, given)
      ensures attempts == old(attempts) + [todo[0]]
      ensures forall pid: Pid :: FailedPid(more, pid) <==>
                FailedPid(failures, pid) || (pid == todo[0] && !given.cleans(pid))
    {
      var pid := todo[0];
      Observe(Cleaning(mode, claims, todo, failures), given);
      attempts := attempts + [pid];
      more := failures;
      if given.cleans(pid) {
        if pid in ptys && ptys[pid].process == Alive {
          ptys := ptys[pid := ptys[pid].(process := Dead)];
        }
      } else {
        var kind := ClassifyCleanupFailure(pid, given);
        more := failures + [CleanupFailure(pid, kind)];
      }
      FailedOneMore(failures, more, pid);
      Note(Reconcile(Durable(), Cleaning(mode, claims, todo[1..], more)), given);
    }

    // Re-adopt if, and only if, exactly one failure was left in total and it is unresolved.
    method CleanupCommandIncarnations(claims: bool, candidates: seq<Pid>, given: Conditions)
      returns (failures: seq<CleanupFailure>, readopted: Option<Pid>)
      requires repository.Valid() && At(Cleaning(mode, claims, candidates, []))
      modifies this, repository
      ensures repository.Valid() && attempts == old(attempts) + candidates
      ensures forall pid: Pid :: FailedPid(failures, pid) <==> pid in candidates && !given.cleans(pid)
      ensures if failures == [] && mode == AtBoot && claims
              then At(RepairRead) && OnPath(old(history), history, given) else Ends(failures, given)
      ensures readopted.Some? ==>
                && OneUnresolved(failures) && readopted == Some(failures[0].pid)
                && repository.View(target) == Readopt(old(repository.View(target)), failures[0].pid,
                                                      Some(ProcessControlFailed), old(repository.nextRunId))
                && announced == old(announced) + [Running]
      ensures readopted.None? ==>
                && repository.View(target) == old(repository.View(target)) && announced == old(announced)
                && (OneUnresolved(failures) ==> !given.commits(Readopting(mode, failures[0].pid, failures)))
      ensures forall u :: u != target ==> repository.View(u) == old(repository.View(u))
    {
      failures := AttemptCleanups(claims, candidates, given);
      readopted := None;
      ghost var middle := history;
      var at := Cleaning(mode, claims, [], failures);
      Observe(at, given);
      if failures == [] && mode == AtBoot && claims {
        Note(Reconcile(Durable(), RepairRead), given);
        OnPathFurther(old(history), middle, history, given);
        return;
      }
      if |failures| != 1 || failures[0].kind != Unresolved {
        // Nothing to repair, or more than one incarnation unaccounted for: every link is kept.
        Note(AfterCleanup(Durable(), mode, failures), given);
        return;
      }
      Note(Reconcile(Durable(), Readopting(mode, failures[0].pid, failures)), given);
      OnPathFurther(old(history), middle, history, given);
      readopted := ReadoptSurvivor(failures, given);
    }

    method ReadoptSurvivor(failures: seq<CleanupFailure>, given: Conditions) returns (readopted: Option<Pid>)
      requires repository.Valid() && OneUnresolved(failures) && At(Readopting(mode, failures[0].pid, failures))
      modifies this, repository
      ensures Ends(failures, given) && attempts == old(attempts)
      ensures readopted.Some? == given.commits(Readopting(mode, failures[0].pid, failures))
      ensures readopted.Some? ==>
                && readopted == Some(failures[0].pid)
                && repository.View(target) == Readopt(old(repository.View(target)), failures[0].pid,
                                                      Some(ProcessControlFailed), old(repository.nextRunId))
                && announced == old(announced) + [Running]
      ensures readopted.None? ==> repository.View(target) == old(repository.View(target)) && announced == old(announced)
    {
      var pid := failures[0].pid;
      Observe(Readopting(mode, pid, failures), given);
      readopted := None;
      if given.commits(Readopting(mode, pid, failures)) {
        repository.ReadoptCommandIncarnation(target, pid, Some(ProcessControlFailed));
        PublishCommandChanged(Running);
        readopted := Some(pid);
      }
      Note(AfterCleanup(Durable(), mode, failures), given);
    }

    method ConvergeCommandAtBoot(claims: bool, candidates: seq<Pid>, given: Conditions)
      requires repository.Valid() && mode == AtBoot && At(Cleaning(mode, claims, candidates, []))
      modifies this, repository
      ensures repository.Valid() && attempts == old(attempts) + candidates
      ensures CleanupContinues(old(history), history, given)
      ensures |history| > 0 && history[|history| - 1].pc.Reconciling? && history[|history| - 1].pc.cleanup.SweepScan?
      ensures history[|history| - 1].rows == Durable()
      ensures forall u :: u != target ==> repository.View(u) == old(repository.View(u))
    {
      var failures, _ := CleanupCommandIncarnations(claims, candidates, given);
      if failures == [] && claims {
        ghost var middle := history;
        RepairResolvedRunningCommand(given);
        assert CleanupContinues(middle, history, given);
      }
    }

    // The incarnation is accounted for, and the command may still claim to run.
    method RepairResolvedRunningCommand(given: Conditions)
      requires repository.Valid() && mode == AtBoot && At(RepairRead)
      modifies this, repository
      ensures Ends([], given) && attempts == old(attempts)
    {
      Observe(RepairRead, given);
      if !given.commits(RepairRead) {
        Note(Reconcile(Durable(), SweepScan([])), given);
        return;
      }
      var next := DecideRepair();
      ghost var before := history;
      Note(Reconcile(Durable(), next), given);
      ghost var noted := history;
      match next {
        case SweepScan(_) => CleanupEnds(history, given);
        case RepairClose(run, outcome) => CloseCutOffRun(run, outcome, given);
        case RepairState(status) => RepairStaleState(status, given);
      }
      OneCleanupCallFurther(before, noted, history, given);
    }

    // A run still open is decided by its incarnation's own terminal facts, and only in their absence
    // by the runtime's stop; a run that knows how it ended repairs the stale state.
    method DecideRepair() returns (next: CleanupPc)
      ensures next == Repair(Durable())
      ensures next == SweepScan([]) || next.RepairClose? || next.RepairState?
      ensures !next.SweepScan? ==> IsRunning(repository.View(target))
    {
      var state := repository.FindState(target);
      if state.None? || state.value.status != Running {
        return SweepScan([]);
      }
      var run := repository.FindLatestRun(target);
      if run.None? {
        return RepairState(Failed);
      }
      var row := repository.runs[run.value].row;
      if row.status != Open {
        return RepairState(StateForCompletedRun(row.status, row.diagnostic));
      }
      if row.link.Some? && row.link.value in ptys && ptys[row.link.value].row.Ended? {
        return RepairClose(run.value, TerminalOutcome(ptys[row.link.value].row.facts, AtEvent));
      }
      return RepairClose(run.value, RUNTIME_INTERRUPTED);
    }

    method CloseCutOffRun(run: RunId, outcome: Outcome, given: Conditions)
      requires repository.Valid() && mode == AtBoot && At(RepairClose(run, outcome))
      modifies this, repository
      ensures Ends([], given) && attempts == old(attempts)
    {
      Observe(RepairClose(run, outcome), given);
      if given.commits(RepairClose(run, outcome)) {
        var result := repository.FinalizeRunAndStateByRun(target, run, outcome);
        if result.stateTransitioned {
          PublishCommandChanged(outcome.stateStatus);
        }
      }
      Note(Reconcile(Durable(), SweepScan([])), given);
    }

    method RepairStaleState(status: CommandStatus, given: Conditions)
      requires repository.Valid() && mode == AtBoot && At(RepairState(status))
      modifies this, repository
      ensures Ends([], given) && attempts == old(attempts)
    {
      Observe(RepairState(status), given);
      if given.commits(RepairState(status)) {
        repository.TransitionState(target, status, None);
        PublishCommandChanged(status);
      }
      Note(Reconcile(Durable(), SweepScan([])), given);
    }
  }
}
