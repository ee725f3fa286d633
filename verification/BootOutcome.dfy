/** Where boot convergence leaves a command when its own database calls succeed (convergence.ts). */
module BootOutcome {
  import opened Optional
  import opened Outcomes
  import opened CommandStore
  import opened Protocol
  import opened ProtocolInvariant
  import opened ProtocolSafety

  // Processes and their rows may move at any time; boot's own database calls all commit.
  // Cleanup attempts may still fail.
  predicate FaultFree(step: Step) {
    IsEnvironment(step) || (step.Progress? && step.choice != Fault && (step.choice.SweepOne? ==> step.choice.committed))
  }

  // The command owns exactly one process, its state pointer, its newest run's link and that process
  // coincide, and the run says why.
  ghost predicate Owns(c: Command, pid: Pid) {
    && IsRunning(c) && Pointer(c) == Some(pid)
    && NewestRunIs(c, RunRow(Open, Some(pid), Some(ProcessControlFailed)))
  }

  ghost predicate SameLinks(c: Command, c': Command) {
    && c'.state == c.state && c'.runs.Keys == c.runs.Keys
    && forall id :: id in c.runs ==> c'.runs[id].link == c.runs[id].link
  }

  // Before the residue sweep.
  ghost predicate Accounted(r: Rows, before: Command, failures: seq<CleanupFailure>) {
    if failures == [] then !IsRunning(r.command) && NoneLive(r.ptys)
    else if OneUnresolved(failures) then Owns(r.command, failures[0].pid)
    else SameLinks(before, r.command)
  }

  ghost predicate BootOnCourse(l: Local, before: Command) {
    && Inv(l)
    && (l.pc.Reconciling? ==>
        match l.pc.cleanup
        case BootScan => l.rows.command == before
        case Cleaning(mode, _, _, _) => mode == AtBoot && l.rows.command == before
        case Readopting(mode, _, _) => mode == AtBoot
        case RepairRead => IsRunning(l.rows.command)
        case SweepScan(failures) => Accounted(l.rows, before, failures)
        case Sweeping(failures, residue) =>
          Accounted(l.rows, before, failures)
          && (failures == [] ==> forall id :: id in l.rows.command.runs && l.rows.command.runs[id].status == Open ==>
                id in residue)
        case _ => true)
    && (l.pc.Reconciling? || l.pc == Unlocked)
  }

  lemma CleanupStaysOnCourse(r: Rows, at: CleanupPc, choice: Choice, before: Command)
    requires BootOnCourse(Reconcile(r, at), before) && CleanupEnabled(r, at, choice) && FaultFree(Progress(choice))
    ensures BootOnCourse(CleanupStep(r, at, choice), before)
  {
    CleanupKeepsInv(r, at, choice);
    match at
    case Cleaning(_, _, _, _) =>
    case Readopting(_, pid, _) => ReadoptedNewest(r.command, pid, Some(ProcessControlFailed), r.nextRun);
    case RepairRead =>
    case RepairClose(run, outcome) => FinalizeByRunKeepsRows(r, run, outcome);
    case Sweeping(_, _) => SweepStaysOnCourse(r, at, choice, before);
    case _ =>
  }

  lemma SweepStaysOnCourse(r: Rows, at: CleanupPc, choice: Choice, before: Command)
    requires at.Sweeping? && BootOnCourse(Reconcile(r, at), before)
    requires CleanupEnabled(r, at, choice) && FaultFree(Progress(choice)) && Inv(CleanupStep(r, at, choice))
    ensures BootOnCourse(CleanupStep(r, at, choice), before)
  {
    if choice.SweepOne? {
      assert choice.run in LinklessOpenRuns(r.command);
      NewestAfterUpdate(r.command.runs, choice.run, RunRow(RunFailed, None, Some(PtyLaunchFailed)));
    }
  }

  lemma StepStaysOnCourse(l: Local, step: Step, before: Command)
    requires BootOnCourse(l, before) && Enabled(l, step) && FaultFree(step)
    ensures BootOnCourse(Apply(l, step), before)
  {
    match step
    case Progress(choice) => CleanupStaysOnCourse(l.rows, l.pc.cleanup, choice, before);
    case _ => EnvironmentKeepsInv(l, step);
  }

  lemma {:induction false} BootStaysOnCourse(states: seq<Local>, steps: seq<Step>, i: nat, before: Command)
    requires Execution(states, steps) && BootOnCourse(states[0], before)
    requires (forall k :: 0 <= k < |steps| ==> FaultFree(steps[k])) && i < |states|
    ensures BootOnCourse(states[i], before)
  {
    if i > 0 {
      BootStaysOnCourse(states, steps, i - 1, before);
      StepStaysOnCourse(states[i - 1], steps[i - 1], before);
    }
  }

  // ----- When every cleanup succeeds too -----

  predicate Unhindered(step: Step) {
    IsEnvironment(step) || step == Progress(Ok) || step == Progress(Cleaned)
  }

  predicate NothingFailed(pc: Pc) {
    pc.Reconciling? ==>
      match pc.cleanup
      case Cleaning(_, _, _, failures) => failures == []
      case Readopting(_, _, _) => false
      case SweepScan(failures) => failures == []
      case Sweeping(failures, _) => failures == []
      case _ => true
  }

  lemma NothingFailsNext(l: Local, step: Step)
    requires Enabled(l, step) && Unhindered(step) && l.pc.Reconciling? && NothingFailed(l.pc)
    ensures Apply(l, step).pc == Unlocked || (Apply(l, step).pc.Reconciling? && NothingFailed(Apply(l, step).pc))
  {
    if step.Progress? && l.pc.cleanup.Cleaning? {
      assert CleanupStep(l.rows, l.pc.cleanup, step.choice) == CleaningStep(l.rows, l.pc.cleanup, step.choice);
    }
  }

  // Once the lock is released a boot's calls are over.
  lemma ReleasedStaysReleased(l: Local, step: Step)
    requires Enabled(l, step) && Unhindered(step) && l.pc == Unlocked
    ensures Apply(l, step).pc == Unlocked
  {
  }

  lemma {:induction false} NothingFails(states: seq<Local>, steps: seq<Step>, i: nat)
    requires Execution(states, steps) && states[0].pc.Reconciling? && NothingFailed(states[0].pc) && i < |states|
    requires forall k :: 0 <= k < |steps| ==> Unhindered(steps[k])
    ensures states[i].pc == Unlocked || (states[i].pc.Reconciling? && NothingFailed(states[i].pc))
  {
    if i > 0 {
      NothingFails(states, steps, i - 1);
      if states[i - 1].pc == Unlocked {
        ReleasedStaysReleased(states[i - 1], steps[i - 1]);
      } else {
        NothingFailsNext(states[i - 1], steps[i - 1]);
      }
    }
  }

  /** Boot from any crash state, once it has nothing left to do. If every cleanup succeeded the command
      is not `running`, no process lives and no run is open. If exactly one cleanup failed and its row
      had not ended, the pointer, the newest run's link and that survivor coincide and the run is open.
      Otherwise the state row and every link are what they were. */
  lemma BootAccountsForEveryProcess(states: seq<Local>, steps: seq<Step>, i: nat, failures: seq<CleanupFailure>)
    requires Execution(states, steps) && Inv(states[0]) && states[0].pc == Reconciling(BootScan)
    requires (forall k :: 0 <= k < |steps| ==> FaultFree(steps[k])) && i < |states|
    requires states[i].pc == Reconciling(Sweeping(failures, {}))
    ensures var c := states[i].rows.command;
            if failures == [] then
              && !IsRunning(c) && NoneLive(states[i].rows.ptys)
              && (forall id :: id in c.runs ==> c.runs[id].status != Open)
            else if OneUnresolved(failures) then
              Owns(c, failures[0].pid) && (forall pid: Pid :: Live(states[i].rows.ptys, pid) ==> pid == failures[0].pid)
            else SameLinks(states[0].rows.command, c)
  {
    BootStaysOnCourse(states, steps, i, states[0].rows.command);
  }

  /** Every candidate whose cleanup failed is still linked when the pass is over, whatever faulted:
      the next boot or audit finds it again. */
  lemma FailedCandidatesStayLinked(states: seq<Local>, steps: seq<Step>, i: nat, k: nat)
    requires Execution(states, steps) && Inv(states[0]) && i < |states| && states[i].pc.Reconciling?
    requires var at := states[i].pc.cleanup;
             (at.Cleaning? || at.Readopting? || at.SweepScan? || at.Sweeping?) && k < |at.failures|
    ensures HasLink(states[i].rows.command, states[i].pc.cleanup.failures[k].pid)
  {
    ExecutionKeepsInv(states, steps, i);
  }

  // ----- What boot makes of a command that still claims to run -----

  // The newest run is open and no end of its process is on record: the runtime cut it off.
  ghost predicate CutOff(c: Command, ptys: map<Pid, Pty>) {
    && Newest(c.runs).Some? && c.runs[Newest(c.runs).value].status == Open
    && (NewestLink(c).Some? ==> !HasEnded(ptys, NewestLink(c).value))
  }

  // The newest run is open, and its process's own row says how it ended.
  ghost predicate EndedUnrecorded(c: Command, ptys: map<Pid, Pty>) {
    && Newest(c.runs).Some? && c.runs[Newest(c.runs).value].status == Open
    && NewestLink(c).Some? && HasEnded(ptys, NewestLink(c).value)
  }

  ghost predicate NewestBecomes(c: Command, id: RunId, row: RunRow) {
    Newest(c.runs) == Some(id) && c.runs[id] == row
  }

  // What boot, having read these rows of a running command, leaves in its state row and its newest run.
  ghost predicate RepairOnRecord(before: Command, ptys: map<Pid, Pty>, after: Command) {
    var newest := Newest(before.runs);
    && after.state.Some? && after.state.value == StateRow(StatusOf(after), None, PortsOf(before))
    && (newest.None? ==> StatusOf(after) == Failed && Newest(after.runs).None?)
    && (CutOff(before, ptys) ==>
          && StatusOf(after) == Suspended
          && NewestBecomes(after, newest.value, RunRow(RunFailed, NewestLink(before), Some(RuntimeStopped))))
    && (EndedUnrecorded(before, ptys) ==>
          var o := TerminalOutcome(ptys[NewestLink(before).value].row.facts, AtEvent);
          && StatusOf(after) == o.stateStatus
          && NewestBecomes(after, newest.value, RunRow(o.runStatus, NewestLink(before), o.diagnostic)))
    && (newest.Some? && before.runs[newest.value].status != Open ==>
          && NewestBecomes(after, newest.value, before.runs[newest.value])
          && StatusOf(after) == (if before.runs[newest.value].diagnostic == Some(RuntimeStopped) then Suspended
                                 else StatusOfRun(before.runs[newest.value].status)))
  }

  /** Boot suspends a command that claims to run exactly when the runtime cut its run off, ended its process,
      or had recorded so: these are the commands an activation resumes. */
  lemma BootSuspendsExactlyTheInterrupted(before: Command, ptys: map<Pid, Pty>, after: Command)
    requires RepairOnRecord(before, ptys, after)
    ensures StatusOf(after) == Suspended <==>
              || CutOff(before, ptys)
              || (EndedUnrecorded(before, ptys)
                  && InterruptedByRuntime(ptys[NewestLink(before).value].row.facts))
              || (Newest(before.runs).Some? && before.runs[Newest(before.runs).value].status != Open
                  && before.runs[Newest(before.runs).value].diagnostic == Some(RuntimeStopped))
  {
    if EndedUnrecorded(before, ptys) {
      RunRecordDeterminesState(ptys[NewestLink(before).value].row.facts, AtEvent);
    }
  }

  // The repair boot has decided on, for the rows it read.
  ghost predicate Planned(before: Command, ptys: map<Pid, Pty>, at: CleanupPc) {
    var newest := Newest(before.runs);
    match at
    case RepairClose(run, outcome) =>
      && newest == Some(run) && before.runs[run].status == Open
      && outcome == if EndedUnrecorded(before, ptys)
                    then TerminalOutcome(ptys[NewestLink(before).value].row.facts, AtEvent) else RUNTIME_INTERRUPTED
    case RepairState(status) =>
      if newest.None? then status == Failed
      else
        && before.runs[newest.value].status != Open
        && status == (if before.runs[newest.value].diagnostic == Some(RuntimeStopped) then Suspended
                      else StatusOfRun(before.runs[newest.value].status))
    case _ => false
  }

  lemma RepairPlans(r: Rows)
    requires IsRunning(r.command)
    ensures Planned(r.command, r.ptys, Repair(r))
  {
  }

  lemma PlanIsCarriedOut(before: Command, ptys: map<Pid, Pty>, r: Rows, at: CleanupPc)
    requires Planned(before, ptys, at) && IsRunning(before) && r.command == before
    ensures RepairOnRecord(before, ptys, CleanupStep(r, at, Ok).rows.command)
    ensures CleanupStep(r, at, Ok).pc == Reconciling(SweepScan([]))
  {
    if at.RepairClose? {
      var closed := RunRow(at.outcome.runStatus, before.runs[at.run].link, at.outcome.diagnostic);
      NewestAfterUpdate(before.runs, at.run, closed);
    }
  }

  // From the read of a command that claims to run to the end of its repair.
  ghost predicate UnderRepair(read: Rows, l: Local) {
    l.pc.Reconciling? ==>
      match l.pc.cleanup
      case RepairClose(_, _) => l.rows.command == read.command && Planned(read.command, read.ptys, l.pc.cleanup)
      case RepairState(_) => l.rows.command == read.command && Planned(read.command, read.ptys, l.pc.cleanup)
      case SweepScan(_) => RepairOnRecord(read.command, read.ptys, l.rows.command)
      case _ => true
  }

  lemma RepairGoesOn(read: Rows, l: Local, step: Step)
    requires UnderRepair(read, l) && IsRunning(read.command) && Enabled(l, step) && FaultFree(step)
    requires l.pc.Reconciling? && (l.pc.cleanup.RepairClose? || l.pc.cleanup.RepairState? || l.pc.cleanup.SweepScan?)
    ensures UnderRepair(read, Apply(l, step))
  {
    if step.Progress? && !l.pc.cleanup.SweepScan? {
      PlanIsCarriedOut(read.command, read.ptys, l.rows, l.pc.cleanup);
    }
  }

  predicate Repairing(pc: Pc) {
    pc.Reconciling? && (pc.cleanup.RepairClose? || pc.cleanup.RepairState? || pc.cleanup.SweepScan?)
  }

  /** A boot that has read a command claiming to run leaves this of it, until the sweep. */
  lemma {:induction false} RepairFollowsTheRead(states: seq<Local>, steps: seq<Step>, i: nat)
    requires Execution(states, steps) && 0 < i < |states|
    requires states[0].pc == Reconciling(RepairRead) && IsRunning(states[0].rows.command) && steps[0] == Progress(Ok)
    requires (forall k :: 0 <= k < |steps| ==> FaultFree(steps[k]))
    requires forall k :: 0 < k <= i ==> Repairing(states[k].pc)
    ensures UnderRepair(states[0].rows, states[i])
  {
    if i == 1 {
      RepairPlans(states[0].rows);
    } else {
      RepairFollowsTheRead(states, steps, i - 1);
      RepairGoesOn(states[0].rows, states[i - 1], steps[i - 1]);
    }
  }
}
