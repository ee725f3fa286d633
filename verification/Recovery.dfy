/** One terminal fact, recovered along any path, leaves one record. */
module Recovery {
  import opened Optional
  import opened Outcomes
  import opened CommandStore
  import opened Protocol
  import opened ProtocolInvariant
  import opened ProtocolSafety
  import opened LinkConservation

  // The fact being recovered: `run` is the newest run, `pid` its process, `facts` how it ended.
  datatype Fact = Fact(run: RunId, pid: Pid, facts: TerminalFacts, ports: Option<Ports>)

  function OutcomeOf(fact: Fact): Outcome {
    TerminalOutcome(fact.facts, AtEvent)
  }

  ghost predicate Concerns(r: Rows, fact: Fact) {
    && RowsOk(r)
    && NewestNames(r.command, fact.run, fact.pid)
    && fact.pid in r.ptys && r.ptys[fact.pid].row == Ended(fact.facts)
    && r.command.state.Some? && PortsOf(r.command) == fact.ports
  }

  // Nothing has recorded the end yet; the pointer may or may not have been installed.
  ghost predicate Unrecorded(r: Rows, fact: Fact) {
    Concerns(r, fact) && IsRunning(r.command) && r.command.runs[fact.run].status == Open
  }

  ghost predicate RunRecorded(r: Rows, fact: Fact) {
    Concerns(r, fact)
    && r.command.runs[fact.run] == RunRow(OutcomeOf(fact).runStatus, Some(fact.pid), OutcomeOf(fact).diagnostic)
  }

  // The run knows how it ended, but its state row never caught up.
  ghost predicate HalfRecorded(r: Rows, fact: Fact) {
    RunRecorded(r, fact) && IsRunning(r.command) && Pointer(r.command).None?
  }

  ghost predicate Recorded(r: Rows, fact: Fact) {
    RunRecorded(r, fact) && r.command.state == Some(StateRow(OutcomeOf(fact).stateStatus, None, fact.ports))
  }

  ghost predicate InRecovery(r: Rows, fact: Fact) {
    Unrecorded(r, fact) || HalfRecorded(r, fact) || Recorded(r, fact)
  }

  // Events (of any incarnation, late or repeated), crashes, boots with any faults, and the environment.
  predicate RecoveryStep(l: Local, step: Step) {
    match step
    case BeginLaunch => false
    case BeginActivation(_) => false
    case BeginStop(_) => false
    case BeginAudit(_) => false
    case _ => true
  }

  ghost predicate RecoveryPc(pc: Pc, fact: Fact) {
    match pc
    case Down => true
    case Unlocked => true
    case Reconciling(at) =>
      (match at
       case Cleaning(mode, _, _, failures) => mode == AtBoot && forall i :: 0 <= i < |failures| ==>
              failures[i].kind != Unresolved
       case Readopting(_, _, _) => false
       case RepairClose(run, outcome) => run == fact.run && outcome == OutcomeOf(fact)
       case RepairState(status) => status == OutcomeOf(fact).stateStatus
       case _ => true)
    case _ => false
  }

  ghost predicate Recovers(l: Local, fact: Fact) {
    Inv(l) && Single(l) && InRecovery(l.rows, fact) && RecoveryPc(l.pc, fact)
  }

  // A command names one incarnation, so the fact's is the only one it names.
  lemma FactIsTheOnlyLink(r: Rows, fact: Fact, pid: Pid)
    requires Concerns(r, fact) && NamesOne(r.command) && HasLink(r.command, pid)
    ensures pid == fact.pid
  {
    assert HasLink(r.command, fact.pid);
  }

  // An event either records the fact, in part or in full, or is of another incarnation and changes nothing.
  lemma EventRecords(r: Rows, pid: Pid, fact: Fact)
    requires InRecovery(r, fact) && NamesOne(r.command) && HasEnded(r.ptys, pid)
    ensures var r' := Wrote(r, FinalizeByPty(r.command, pid, TerminalOutcome(r.ptys[pid].row.facts, AtEvent)));
            && (pid != fact.pid ==> r' == r)
            && (pid == fact.pid && Unrecorded(r, fact) ==>
                if Pointer(r.command).Some? then Recorded(r', fact) else HalfRecorded(r', fact))
            && (!Unrecorded(r, fact) ==> r' == r)
  {
    var c, o := r.command, TerminalOutcome(r.ptys[pid].row.facts, AtEvent);
    RunRecordDeterminesState(r.ptys[pid].row.facts, AtEvent);
    if pid == fact.pid {
      assert NewestLinked(c.runs, pid) == Some(fact.run);
      FinalizeByPtyKeepsRows(r, pid, o);
      FinalizeByPtyKeepsNewestLink(r, pid, o);
    } else if HasLink(c, pid) {
      FactIsTheOnlyLink(r, fact, pid);
    }
  }

  lemma RepairFollowsFact(r: Rows, fact: Fact)
    requires InRecovery(r, fact) && NoneLive(r.ptys)
    ensures RecoveryPc(Reconciling(Repair(r)), fact)
    ensures IsRunning(r.command) ==> Repair(r) == if Unrecorded(r, fact) then RepairClose(fact.run, OutcomeOf(fact))
                                                  else RepairState(OutcomeOf(fact).stateStatus)
  {
    RunRecordDeterminesState(fact.facts, AtEvent);
  }

  lemma RepairRecords(r: Rows, at: CleanupPc, fact: Fact)
    requires InRecovery(r, fact) && CleanupOk(r, at) && RecoveryPc(Reconciling(at), fact)
    requires at.RepairClose? || at.RepairState?
    ensures Recorded(CleanupStep(r, at, Ok).rows, fact)
  {
    RunRecordDeterminesState(fact.facts, AtEvent);
    CleanupKeepsInv(r, at, Ok);
    if at.RepairClose? {
      FinalizeByRunKeepsRows(r, at.run, at.outcome);
    }
  }

  lemma SweepKeepsRecovery(r: Rows, at: CleanupPc, choice: Choice, fact: Fact)
    requires InRecovery(r, fact) && at.Sweeping? && CleanupOk(r, at) && CleanupEnabled(r, at, choice)
    ensures InRecovery(CleanupStep(r, at, choice).rows, fact)
    ensures Recorded(r, fact) ==> Recorded(CleanupStep(r, at, choice).rows, fact)
  {
    if choice.SweepOne? && choice.committed && !IsRunning(r.command) {
      assert choice.run in LinklessOpenRuns(r.command);
      CompleteRunKeepsRows(r, choice.run, RunFailed, Some(PtyLaunchFailed));
    }
  }

  lemma CleaningKeepsRecovery(r: Rows, at: CleanupPc, choice: Choice, fact: Fact)
    requires InRecovery(r, fact) && NamesOne(r.command)
    requires at.Cleaning? && CleanupOk(r, at) && RecoveryPc(Reconciling(at), fact)
    ensures CleaningStep(r, at, choice).rows == r && RecoveryPc(CleaningStep(r, at, choice).pc, fact)
  {
    assert NoneLive(r.ptys) by { NoneLiveUnlessNewest(r, fact.pid); }
    if at.todo != [] {
      FactIsTheOnlyLink(r, fact, at.todo[0]);
    }
  }

  lemma CleanupKeepsRecovery(r: Rows, at: CleanupPc, choice: Choice, fact: Fact)
    requires Recovers(Reconcile(r, at), fact) && CleanupEnabled(r, at, choice)
    ensures Recovers(CleanupStep(r, at, choice), fact)
  {
    StepKeepsInv(Reconcile(r, at), Progress(choice));
    StepKeepsSingle(Reconcile(r, at), Progress(choice));
    match at
    case Cleaning(_, _, _, _) => CleaningKeepsRecovery(r, at, choice, fact);
    case RepairRead => RepairFollowsFact(r, fact);
    case RepairClose(_, _) =>
      if choice == Ok {
        RepairRecords(r, at, fact);
      }
    case RepairState(_) =>
      if choice == Ok {
        RepairRecords(r, at, fact);
      }
    case Sweeping(_, _) => SweepKeepsRecovery(r, at, choice, fact);
    case _ =>
  }

  lemma EnvironmentKeepsRecovery(l: Local, step: Step, fact: Fact)
    requires Recovers(l, fact) && Enabled(l, step) && IsEnvironment(step)
    ensures Recovers(Apply(l, step), fact)
    ensures Recorded(l.rows, fact) ==> Recorded(Apply(l, step).rows, fact)
  {
    EnvironmentKeepsInv(l, step);
    StepKeepsSingle(l, step);
  }

  lemma EventKeepsRecovery(l: Local, pid: Pid, fact: Fact)
    requires Recovers(l, fact) && Enabled(l, DeliverEvent(pid))
    ensures Recovers(Apply(l, DeliverEvent(pid)), fact)
  {
    EventRecords(l.rows, pid, fact);
    StepKeepsInv(l, DeliverEvent(pid));
    StepKeepsSingle(l, DeliverEvent(pid));
  }

  lemma CrashAndBootKeepRecovery(l: Local, step: Step, fact: Fact)
    requires Recovers(l, fact) && Enabled(l, step) && (step.Crash? || step.Boot?)
    ensures Recovers(Apply(l, step), fact)
  {
    StepKeepsInv(l, step);
    StepKeepsSingle(l, step);
  }

  lemma StepKeepsRecovery(l: Local, step: Step, fact: Fact)
    requires Recovers(l, fact) && Enabled(l, step) && RecoveryStep(l, step)
    ensures Recovers(Apply(l, step), fact)
  {
    match step
    case Progress(choice) => CleanupKeepsRecovery(l.rows, l.pc.cleanup, choice, fact);
    case DeliverEvent(pid) => EventKeepsRecovery(l, pid, fact);
    case Crash => CrashAndBootKeepRecovery(l, step, fact);
    case Boot => CrashAndBootKeepRecovery(l, step, fact);
    case _ => EnvironmentKeepsRecovery(l, step, fact);
  }

  /** Whatever mix of events, crashes and faulty boots follows, the record is always on its way to the
      one the fact determines: unrecorded, recorded in the run only, or recorded in full. */
  lemma {:induction false} RecoveryNeverDiverges(states: seq<Local>, steps: seq<Step>, i: nat, fact: Fact)
    requires Execution(states, steps) && Recovers(states[0], fact) && i < |states|
    requires forall k :: 0 <= k < |steps| ==> RecoveryStep(states[k], steps[k])
    ensures Recovers(states[i], fact)
  {
    if i > 0 {
      RecoveryNeverDiverges(states, steps, i - 1, fact);
      StepKeepsRecovery(states[i - 1], steps[i - 1], fact);
    }
  }

  // ----- The two ways recovery completes -----

  // A boot whose reads, writes and cleanup attempts all succeed.
  predicate Unimpeded(step: Step) {
    IsEnvironment(step) || (step.Progress? && step.choice != Fault && !step.choice.CleanupFails?)
  }

  ghost predicate BootCompletes(l: Local, fact: Fact) {
    && Recovers(l, fact)
    && (if l.pc.Reconciling? then
          match l.pc.cleanup
          case Cleaning(_, _, _, failures) => failures == []
          case RepairRead => IsRunning(l.rows.command)
          case SweepScan(_) => Recorded(l.rows, fact)
          case Sweeping(_, _) => Recorded(l.rows, fact)
          case _ => true
        else l.pc == Unlocked && Recorded(l.rows, fact))
  }

  lemma CleanupCompletes(r: Rows, at: CleanupPc, choice: Choice, fact: Fact)
    requires BootCompletes(Reconcile(r, at), fact) && CleanupEnabled(r, at, choice) && Unimpeded(Progress(choice))
    ensures BootCompletes(CleanupStep(r, at, choice), fact)
  {
    CleanupKeepsRecovery(r, at, choice, fact);
    match at
    case Cleaning(_, _, _, _) => CleaningKeepsRecovery(r, at, choice, fact);
    case RepairRead => RepairFollowsFact(r, fact);
    case RepairClose(_, _) => RepairRecords(r, at, fact);
    case RepairState(_) => RepairRecords(r, at, fact);
    case Sweeping(_, _) => SweepKeepsRecovery(r, at, choice, fact);
    case _ =>
  }

  lemma UnimpededStepCompletes(l: Local, step: Step, fact: Fact)
    requires BootCompletes(l, fact) && Enabled(l, step) && Unimpeded(step)
    ensures BootCompletes(Apply(l, step), fact)
  {
    match step
    case Progress(choice) => CleanupCompletes(l.rows, l.pc.cleanup, choice, fact);
    case _ => EnvironmentKeepsRecovery(l, step, fact);
  }

  lemma {:induction false} UnimpededBootRecords(states: seq<Local>, steps: seq<Step>, i: nat, fact: Fact)
    requires Execution(states, steps) && Recovers(states[0], fact) && states[0].pc == Reconciling(BootScan)
    requires (forall k :: 0 <= k < |steps| ==> Unimpeded(steps[k])) && i < |states|
    ensures BootCompletes(states[i], fact)
  {
    if i > 0 {
      UnimpededBootRecords(states, steps, i - 1, fact);
      UnimpededStepCompletes(states[i - 1], steps[i - 1], fact);
    }
  }

  // The event arrived while the pointer named the process, or an unimpeded boot has finished.
  ghost predicate Completes(states: seq<Local>, steps: seq<Step>, from: nat, fact: Fact)
    requires Execution(states, steps) && from < |states|
  {
    var last := |states| - 1;
    || (from == last - 1 && steps[from] == DeliverEvent(fact.pid)
        && Pointer(states[from].rows.command) == Some(fact.pid))
    || (states[from].pc == Reconciling(BootScan) && states[last].pc == Unlocked
        && forall k :: from <= k < |steps| ==> Unimpeded(steps[k]))
  }

  /** Recovery is confluent. Take any history of events, crashes and faulty boots, ending either in
      the event with its pointer installed or in an unimpeded boot: the state row and the run row are
      exactly the ones the terminal fact determines. */
  lemma RecoveryIsConfluent(states: seq<Local>, steps: seq<Step>, from: nat, fact: Fact)
    requires Execution(states, steps) && Recovers(states[0], fact) && from < |states|
    requires forall k :: 0 <= k < |steps| ==> RecoveryStep(states[k], steps[k])
    requires Completes(states, steps, from, fact)
    ensures var c := states[|steps|].rows.command;
            && c.state == Some(StateRow(OutcomeOf(fact).stateStatus, None, fact.ports))
            && Newest(c.runs) == Some(fact.run)
            && c.runs[fact.run] == RunRow(OutcomeOf(fact).runStatus, Some(fact.pid), OutcomeOf(fact).diagnostic)
  {
    RecoveryNeverDiverges(states, steps, from, fact);
    if states[from].pc == Reconciling(BootScan) {
      assert Execution(states[from..], steps[from..]);
      UnimpededBootRecords(states[from..], steps[from..], |steps| - from, fact);
    } else {
      EventRecords(states[from].rows, fact.pid, fact);
    }
  }
}
