/**
 The durable command ownership protocol of one command, as a state machine.

 A `Local` is everything one (worktree, command) pair owns: its rows, the incarnations
 allocated for it, and the program counter of the operation that holds its lock. Each
 transaction either commits or faults without effect; processes, rows of ended processes,
 late or repeated events, interruptions and crashes happen between any two transactions.
 Sources: launch.ts, service.ts, convergence.ts and lifecycle.ts under apps/runtime/src/commands.
 */
module Protocol {
  import opened Optional
  import opened Outcomes
  import opened CommandStore

  // ----- Incarnations -----

  // The process behind an incarnation, and separately what its row says about it.
  datatype Process = NotStarted | Alive | Dead

  datatype PtyRow = Pending | Ended(facts: TerminalFacts)

  datatype Pty = Pty(row: PtyRow, process: Process)

  // ----- Operations in flight -----

  datatype StopCause = User | Deactivation

  // A restart is a user stop followed by a launch under the same lock.
  datatype StopRequest = StopRequest(cause: StopCause, restart: bool)

  datatype ActivationReason = Resume | Automation | KeepAlive

  datatype CleanupMode = AtBoot | AtAudit

  datatype FailureKind = Unresolved | TerminalGated | Unclassified

  datatype CleanupFailure = CleanupFailure(pid: Pid, kind: FailureKind)

  // `masked` marks the steps of the interruption finalizer, which is itself uninterruptible.
  datatype LaunchPc =
    | LaunchCheck
    | Preparing
    | RecordingFailure(reason: DiagnosticReason)
    | PruningFailure
    | WritingFailure
    | Creating(ports: Ports)
    | Pruning(run: RunId, ports: Ports)
    | Aborting(run: RunId)
    | Marking(run: RunId, ports: Ports)
    | Allocating(run: RunId)
    | Linking(run: RunId, pid: Pid)
    | Starting(run: RunId, pid: Pid)
    | Handoff(run: RunId, pid: Pid)
    | Installing(run: RunId, pid: Pid, masked: bool)
    | Recovering(run: RunId, pid: Pid)
    | Converging(run: RunId, outcome: Outcome, owned: Option<Pid>, masked: bool)

  datatype StopPc =
    | StopRead
    | StopClear
    | StopResolve
    | StopUnassociated
    | StopConverge(run: RunId, outcome: Outcome)
    | StopReadopt(pid: Pid)
    | StopTerminate(pid: Pid)
    | StopFinalize(pid: Pid)
    | StopRecord(pid: Pid)
    | StopReturned

  datatype CleanupPc =
    | BootScan
    | Cleaning(mode: CleanupMode, claims: bool, todo: seq<Pid>, failures: seq<CleanupFailure>)
    | Readopting(mode: CleanupMode, pid: Pid, failures: seq<CleanupFailure>)
    | RepairRead
    | RepairClose(run: RunId, outcome: Outcome)
    | RepairState(status: CommandStatus)
    | SweepScan(failures: seq<CleanupFailure>)
    | Sweeping(failures: seq<CleanupFailure>, residue: set<RunId>)

  datatype Pc =
    | Down
    | Unlocked
    | Launching(launch: LaunchPc)
    | ActivationCheck(why: ActivationReason)
    | Stopping(stop: StopRequest, at: StopPc)
    | Reconciling(cleanup: CleanupPc)

  // The durable rows of one command, and the incarnations ever allocated for it.
  datatype Rows = Rows(command: Command, ptys: map<Pid, Pty>, nextRun: RunId)

  datatype Local = Local(rows: Rows, pc: Pc)

  const INITIAL := Local(Rows(EMPTY_COMMAND, map[], 0), Unlocked)

  // How the call an operation is waiting on turns out.
  datatype Choice =
    | Ok
    | Fault
    | Interrupt
    | DoneThenInterrupt
    | PrepareFails(reason: DiagnosticReason)
    | Resolved(ports: Ports)
    | Fresh(pid: Pid)
    | FreshThenInterrupt(pid: Pid)
    | Started(alive: bool)
    | StartedThenInterrupt(alive: bool)
    | Discard
    | TerminatedLive
    | AlreadyAbsent
    | ControlFails
    | Scanned(candidates: seq<Pid>)
    | Cleaned
    | CleanupFails(readable: bool)
    | SweepOne(run: RunId, committed: bool)

  datatype Step =
    | ProcessExits(pid: Pid)
    | RowEnds(pid: Pid, facts: TerminalFacts)
    | OthersInsert(runs: nat)
    | Crash
    | Boot
    | BeginLaunch
    | BeginActivation(why: ActivationReason)
    | BeginStop(stop: StopRequest)
    | BeginAudit(candidates: seq<Pid>)
    | DeliverEvent(pid: Pid)
    | Progress(choice: Choice)

  // ----- Observations -----

  predicate Live(ptys: map<Pid, Pty>, pid: Pid) {
    pid in ptys && ptys[pid].process == Alive
  }

  ghost predicate NoneLive(ptys: map<Pid, Pty>) {
    forall pid: Pid :: !Live(ptys, pid)
  }

  predicate HasEnded(ptys: map<Pid, Pty>, pid: Pid) {
    pid in ptys && ptys[pid].row.Ended?
  }

  // Boot attempts every link whose row has not ended, and any link whose row it could not read.
  ghost predicate BootCandidates(r: Rows, s: seq<Pid>) {
    && Distinct(s)
    && (forall pid: Pid :: pid in s ==> HasLink(r.command, pid))
    && (forall pid: Pid :: HasLink(r.command, pid) && !HasEnded(r.ptys, pid) ==> pid in s)
  }

  predicate FailedPid(failures: seq<CleanupFailure>, pid: Pid) {
    exists i :: 0 <= i < |failures| && failures[i].pid == pid
  }

  // ----- Effects -----

  function SetProcess(r: Rows, pid: Pid, process: Process): Rows {
    if pid in r.ptys then r.(ptys := r.ptys[pid := r.ptys[pid].(process := process)]) else r
  }

  function Kill(r: Rows, pid: Pid): Rows {
    if Live(r.ptys, pid) then SetProcess(r, pid, Dead) else r
  }

  function Allocate(r: Rows, pid: Pid): Rows {
    r.(ptys := r.ptys[pid := Pty(Pending, NotStarted)])
  }

  // Re-adoption inserts a run only when the command has none.
  ghost function Readopted(r: Rows, pid: Pid, diagnostic: Option<DiagnosticReason>): Rows {
    r.(command := Readopt(r.command, pid, diagnostic, r.nextRun),
       nextRun := if r.command.runs == map[] then r.nextRun + 1 else r.nextRun)
  }

  // A transaction that inserts a run consumes one auto-incremented id.
  function Inserted(r: Rows, command: Command): Rows {
    r.(command := command, nextRun := r.nextRun + 1)
  }

  function Wrote(r: Rows, command: Command): Rows {
    r.(command := command)
  }

  function Launch(r: Rows, launch: LaunchPc): Local {
    Local(r, Launching(launch))
  }

  function Done(r: Rows): Local {
    Local(r, Unlocked)
  }

  // Where a launch goes when its fiber is interrupted: an unlinked allocation is abandoned
  // and the run converges as a failed launch; a linked one is read before anything is written.
  function Interrupted(r: Rows, run: RunId, owned: Option<Pid>): Local {
    Launch(r, if owned.Some? then Recovering(run, owned.value) else Converging(run, LAUNCH_FAILURE, None, true))
  }

  // ----- launch.ts -----

  predicate LaunchEnabled(r: Rows, at: LaunchPc, choice: Choice) {
    match at
    case Preparing => choice in {Interrupt, Fault} || choice.PrepareFails? || choice.Resolved?
    case Allocating(_) => choice in {Interrupt, Fault} || (choice.Fresh? && choice.pid !in r.ptys)
                          || (choice.FreshThenInterrupt? && choice.pid !in r.ptys)
    case Starting(_, _) => choice == Interrupt || choice.Started? || choice.StartedThenInterrupt?
    case Recovering(_, _) => choice in {Ok, Fault}
    case Installing(_, _, masked) => choice in {Ok, Fault} || (!masked && choice in {Interrupt, DoneThenInterrupt})
    case Converging(_, _, _, masked) => choice in {Ok, Fault} || (!masked && choice in {Interrupt, DoneThenInterrupt})
    case _ => choice in {Ok, Fault, Interrupt, DoneThenInterrupt}
  }

  // Up to the creation of the run: nothing durable says a launch is under way.
  ghost function PrepareStep(r: Rows, at: LaunchPc, choice: Choice): Local {
    var c := r.command;
    match at
    case LaunchCheck =>
      if choice == Ok && !IsRunning(c) then Launch(r, Preparing) else Done(r)
    case Preparing =>
      if choice.PrepareFails? then Launch(r, RecordingFailure(choice.reason))
      else if choice.Resolved? then Launch(r, Creating(choice.ports))
      else Done(r)
    case RecordingFailure(reason) =>
      var r' := Inserted(r, CreateRun(c, r.nextRun, RunFailed, Some(reason)));
      if choice == Ok then Launch(r', PruningFailure) else if choice == DoneThenInterrupt then Done(r') else Done(r)
    case PruningFailure =>
      var r' := Wrote(r, Prune(c, RUNS_TO_RETAIN));
      if choice == Ok then Launch(r', WritingFailure) else if choice == DoneThenInterrupt then Done(r') else Done(r)
    case WritingFailure =>
      Done(if choice in {Ok, DoneThenInterrupt} then Wrote(r, WriteState(c, Failed, None)) else r)
    case Creating(ports) =>
      var r' := Inserted(r, CreateRun(c, r.nextRun, Open, None));
      if choice == Ok then Launch(r', Pruning(r.nextRun, ports))
      // Interrupted before the interruption finalizer is in place: the open run is left behind.
      else if choice == DoneThenInterrupt then Done(r')
      else Done(r)
    case _ => Launch(r, at)
  }

  // From the created run to the allocated incarnation, around the launch-in-progress marker.
  ghost function MarkStep(r: Rows, at: LaunchPc, choice: Choice): Local {
    var c := r.command;
    match at
    case Pruning(run, ports) =>
      var r' := Wrote(r, Prune(c, RUNS_TO_RETAIN));
      if choice == Ok then Launch(r', Marking(run, ports))
      else if choice == DoneThenInterrupt then Interrupted(r', run, None)
      else if choice == Fault then Launch(r, Aborting(run))
      else Interrupted(r, run, None)
    case Aborting(run) =>
      var r' := Wrote(r, CompleteRun(c, run, RunFailed, Some(PtyLaunchFailed)));
      if choice == Ok then Done(r')
      else if choice == DoneThenInterrupt then Interrupted(r', run, None)
      else if choice == Fault then Done(r)
      else Interrupted(r, run, None)
    case Marking(run, ports) =>
      var r' := Wrote(r, MarkLaunch(c, ports));
      if choice == Ok then Launch(r', Allocating(run))
      else if choice == DoneThenInterrupt then Interrupted(r', run, None)
      else if choice == Fault then Launch(r, Aborting(run))
      else Interrupted(r, run, None)
    case Allocating(run) =>
      if choice.Fresh? then Launch(Allocate(r, choice.pid), Linking(run, choice.pid))
      else if choice.FreshThenInterrupt? then Interrupted(Allocate(r, choice.pid), run, None)
      else if choice == Fault then Launch(r, Converging(run, LAUNCH_FAILURE, None, false))
      else Interrupted(r, run, None)
    case _ => Launch(r, at)
  }

  // From the allocated incarnation to the installed pointer.
  ghost function HandoffStep(r: Rows, at: LaunchPc, choice: Choice): Local {
    var c := r.command;
    match at
    case Linking(run, pid) =>
      var r' := Wrote(r, LinkRun(c, run, pid));
      if choice == Ok then Launch(r', Starting(run, pid))
      // The link is durable but the launch does not know it yet.
      else if choice == DoneThenInterrupt then Interrupted(r', run, None)
      else if choice == Fault then Launch(r, Converging(run, LAUNCH_FAILURE, None, false))
      else Interrupted(r, run, None)
    case Starting(run, pid) =>
      if choice.Started? then Launch(if choice.alive then SetProcess(r, pid, Alive) else r, Handoff(run, pid))
      else if choice.StartedThenInterrupt?
      then Interrupted(if choice.alive then SetProcess(r, pid, Alive) else r, run, Some(pid))
      else Interrupted(r, run, Some(pid))
    case Handoff(run, pid) =>
      if choice == Ok && HasEnded(r.ptys, pid)
      then Launch(r, Converging(run, TerminalOutcome(r.ptys[pid].row.facts, AtLaunch), Some(pid), false))
      else if choice in {Ok, Fault} then Launch(r, Installing(run, pid, false))
      else Interrupted(r, run, Some(pid))
    case Installing(run, pid, _) =>
      var r' := Wrote(r, WriteState(c, Running, Some(pid)));
      if choice == Ok then Done(r')
      else if choice == DoneThenInterrupt then Interrupted(r', run, Some(pid))
      else if choice == Fault then Done(r)
      else Interrupted(r, run, Some(pid))
    case Recovering(run, pid) =>
      if choice == Ok && HasEnded(r.ptys, pid)
      then Launch(r, Converging(run, TerminalOutcome(r.ptys[pid].row.facts, AtLaunch), Some(pid), true))
      else Launch(r, Installing(run, pid, true))
    case Converging(run, outcome, owned, _) =>
      var r' := Wrote(r, FinalizeByRun(c, run, outcome));
      if choice == Ok then Done(r')
      else if choice == DoneThenInterrupt then Interrupted(r', run, owned)
      else if choice == Fault then Done(r)
      else Interrupted(r, run, owned)
    case _ => Launch(r, at)
  }

  predicate AroundMarker(at: LaunchPc) {
    at.Pruning? || at.Aborting? || at.Marking? || at.Allocating?
  }

  predicate AfterAllocation(at: LaunchPc) {
    at.Linking? || at.Starting? || at.Handoff? || at.Installing? || at.Recovering? || at.Converging?
  }

  ghost function LaunchStep(r: Rows, at: LaunchPc, choice: Choice): Local {
    if AroundMarker(at) then MarkStep(r, at, choice)
    else if AfterAllocation(at) then HandoffStep(r, at, choice)
    else PrepareStep(r, at, choice)
  }

  // ----- service.ts: stops, restarts -----

  predicate StopEnabled(r: Rows, at: StopPc, choice: Choice) {
    match at
    case StopTerminate(pid) =>
      || choice in {Interrupt, ControlFails}
      || (choice == TerminatedLive && Live(r.ptys, pid))
      || (choice == AlreadyAbsent && !Live(r.ptys, pid))
    case _ => choice in {Ok, Fault, Interrupt, DoneThenInterrupt}
  }

  // Only a deactivation may keep the resume intent a runtime interruption leaves.
  function StopOutcome(facts: TerminalFacts, cause: StopCause): Outcome {
    var o := TerminalOutcome(facts, AtEvent);
    if o.stateStatus == Suspended && cause != Deactivation then o.(stateStatus := StatusOfRun(o.runStatus)) else o
  }

  function StoppedOutcome(cause: StopCause): Outcome {
    Outcome(RunStopped, if cause == Deactivation then Suspended else Stopped, None)
  }

  ghost function ResolvePointerless(r: Rows, cause: StopCause): StopPc {
    var id := Newest(r.command.runs);
    if id.None? then StopUnassociated else
    var link := r.command.runs[id.value].link;
    if link.None? || link.value !in r.ptys then StopConverge(id.value, UNASSOCIATED)
    else if HasEnded(r.ptys, link.value) then
      StopConverge(id.value, StopOutcome(r.ptys[link.value].row.facts, cause))
    else StopReadopt(link.value)
  }

  function Stop(r: Rows, stop: StopRequest, at: StopPc): Local {
    Local(r, Stopping(stop, at))
  }

  // What the stop reads decide, before anything is written.
  ghost function StopReadStep(r: Rows, stop: StopRequest, at: StopPc, choice: Choice): Local {
    var c := r.command;
    match at
    case StopRead =>
      if choice != Ok then Done(r)
      else if c.state.None? then Stop(r, stop, StopReturned)
      else if StatusOf(c) == Suspended then
        Stop(r, stop, if stop.cause == Deactivation then StopReturned else StopClear)
      else if StatusOf(c) != Running then Stop(r, stop, StopReturned)
      else if Pointer(c).Some? then Stop(r, stop, StopTerminate(Pointer(c).value))
      else Stop(r, stop, StopResolve)
    case StopResolve =>
      if choice == Ok then Stop(r, stop, ResolvePointerless(r, stop.cause)) else Done(r)
    case StopTerminate(pid) =>
      if choice == TerminatedLive then Stop(Kill(r, pid), stop, StopFinalize(pid))
      else if choice == AlreadyAbsent then Stop(r, stop, StopReturned)
      else if choice == ControlFails then Stop(r, stop, StopRecord(pid))
      else Done(r)
    case StopReturned =>
      if stop.restart && choice == Ok then Launch(r, LaunchCheck) else Done(r)
    case _ => Stop(r, stop, at)
  }

  // One write of a stop: it commits and the stop goes on, commits and is cut off, or does nothing.
  function StopWrite(r: Rows, r': Rows, stop: StopRequest, next: StopPc, choice: Choice): Local {
    if choice == Ok then Stop(r', stop, next) else if choice == DoneThenInterrupt then Done(r') else Done(r)
  }

  ghost function StopWriteStep(r: Rows, stop: StopRequest, at: StopPc, choice: Choice): Local {
    var c := r.command;
    match at
    case StopClear => StopWrite(r, Wrote(r, WriteState(c, Stopped, None)), stop, StopReturned, choice)
    case StopUnassociated => StopWrite(r, Wrote(r, WriteState(c, Failed, None)), stop, StopReturned, choice)
    case StopConverge(run, outcome) =>
      StopWrite(r, Wrote(r, FinalizeByRun(c, run, outcome)), stop, StopReturned, choice)
    case StopReadopt(pid) =>
      StopWrite(r, Readopted(r, pid, None), stop, StopTerminate(pid), choice)
    case StopFinalize(pid) =>
      StopWrite(r, Wrote(r, FinalizeByPty(c, pid, StoppedOutcome(stop.cause))), stop, StopReturned, choice)
    case StopRecord(pid) =>
      // The stop itself fails either way; only the diagnostic is at stake.
      Done(if choice in {Ok, DoneThenInterrupt}
           then Readopted(r, pid, Some(ProcessControlFailed)) else r)
    case _ => Stop(r, stop, at)
  }

  predicate StopReads(at: StopPc) {
    at.StopRead? || at.StopResolve? || at.StopTerminate? || at.StopReturned?
  }

  ghost function StopStep(r: Rows, stop: StopRequest, at: StopPc, choice: Choice): Local {
    if StopReads(at) then StopReadStep(r, stop, at, choice) else StopWriteStep(r, stop, at, choice)
  }

  // ----- convergence.ts: boot and the deletion audit -----

  ghost predicate CleanupEnabled(r: Rows, at: CleanupPc, choice: Choice) {
    match at
    case BootScan => choice == Fault || (choice.Scanned? && BootCandidates(r, choice.candidates))
    case Cleaning(_, _, todo, _) =>
      if todo == [] then choice == Ok else choice == Cleaned || choice.CleanupFails?
    case Sweeping(_, residue) =>
      if residue == {} then choice == Ok else choice.SweepOne? && choice.run in residue
    case _ => choice in {Ok, Fault}
  }

  function Reconcile(r: Rows, at: CleanupPc): Local {
    Local(r, Reconciling(at))
  }

  // What the row says once the attempt is over.
  function Classify(r: Rows, pid: Pid, readable: bool): FailureKind {
    if !readable || pid !in r.ptys then Unclassified
    else if r.ptys[pid].row.Ended? then TerminalGated
    else Unresolved
  }

  function AfterCleanup(r: Rows, mode: CleanupMode, failures: seq<CleanupFailure>): Local {
    if mode == AtBoot then Reconcile(r, SweepScan(failures)) else Done(r)
  }

  predicate OneUnresolved(failures: seq<CleanupFailure>) {
    |failures| == 1 && failures[0].kind == Unresolved
  }

  function ResolveCleanup(r: Rows, mode: CleanupMode, claims: bool, failures: seq<CleanupFailure>): Local {
    if failures == [] && mode == AtBoot && claims then Reconcile(r, RepairRead)
    else if OneUnresolved(failures) then Reconcile(r, Readopting(mode, failures[0].pid, failures))
    else AfterCleanup(r, mode, failures)
  }

  ghost function CleaningStep(r: Rows, at: CleanupPc, choice: Choice): Local
    requires at.Cleaning?
  {
    var Cleaning(mode, claims, todo, failures) := at;
    if todo == [] then ResolveCleanup(r, mode, claims, failures)
    else if choice.CleanupFails? then
      var failure := CleanupFailure(todo[0], Classify(r, todo[0], choice.readable));
      Reconcile(r, Cleaning(mode, claims, todo[1..], failures + [failure]))
    else Reconcile(Kill(r, todo[0]), Cleaning(mode, claims, todo[1..], failures))
  }

  // What boot writes for a command that still claims to run but owns no process.
  ghost function Repair(r: Rows): CleanupPc {
    var c := r.command;
    if !IsRunning(c) then SweepScan([]) else
    var id := Newest(c.runs);
    if id.None? then RepairState(Failed) else
    var run := c.runs[id.value];
    if run.status != Open then RepairState(StateForCompletedRun(run.status, run.diagnostic))
    else if run.link.Some? && HasEnded(r.ptys, run.link.value) then
      RepairClose(id.value, TerminalOutcome(r.ptys[run.link.value].row.facts, AtEvent))
    else RepairClose(id.value, RUNTIME_INTERRUPTED)
  }

  function LinklessOpenRuns(c: Command): set<RunId> {
    set id | id in c.runs && c.runs[id].status == Open && c.runs[id].link.None?
  }

  ghost function CleanupStep(r: Rows, at: CleanupPc, choice: Choice): Local {
    var c := r.command;
    match at
    case BootScan =>
      if choice.Scanned? then Reconcile(r, Cleaning(AtBoot, IsRunning(c), choice.candidates, [])) else Done(r)
    case Cleaning(_, _, _, _) => CleaningStep(r, at, choice)
    case Readopting(mode, pid, failures) =>
      AfterCleanup(if choice == Ok then Readopted(r, pid, Some(ProcessControlFailed)) else r,
                   mode, failures)
    case RepairRead => Reconcile(r, if choice == Ok then Repair(r) else SweepScan([]))
    case RepairClose(run, outcome) =>
      Reconcile(if choice == Ok then Wrote(r, FinalizeByRun(c, run, outcome)) else r, SweepScan([]))
    case RepairState(status) =>
      Reconcile(if choice == Ok then Wrote(r, WriteState(c, status, None)) else r, SweepScan([]))
    case SweepScan(failures) =>
      if choice == Ok then Reconcile(r, Sweeping(failures, LinklessOpenRuns(c))) else Done(r)
    case Sweeping(failures, residue) =>
      if !choice.SweepOne? then Done(r) else
      Reconcile(if choice.committed && !IsRunning(c)
                then Wrote(r, CompleteRun(c, choice.run, RunFailed, Some(PtyLaunchFailed))) else r,
                Sweeping(failures, residue - {choice.run}))
  }

  // ----- lifecycle.ts: one entry of an activation plan -----

  // The plan may be stale: the entry is decided by the state read under the lock.
  function ActivationStep(r: Rows, why: ActivationReason, choice: Choice): Local {
    var wanted :=
      if why == Automation then r.command.state.None? || StatusOf(r.command) == Idle
      else StatusOf(r.command) == Suspended;
    if choice == Ok && wanted then Launch(r, LaunchCheck) else Done(r)
  }

  // ----- The step relation -----

  // Whether an in-flight launch still holds this incarnation's pre-start reservation.
  predicate Reserved(pc: Pc, pid: Pid) {
    pc.Launching? && (pc.launch.Linking? || pc.launch.Starting?) && pc.launch.pid == pid
  }

  // What happens around an operation without taking its lock.
  predicate IsEnvironment(step: Step) {
    step.ProcessExits? || step.RowEnds? || step.OthersInsert?
  }

  ghost predicate Enabled(l: Local, step: Step) {
    var r := l.rows;
    match step
    case ProcessExits(pid) => Live(r.ptys, pid)
    case RowEnds(pid, _) => pid in r.ptys && r.ptys[pid].row == Pending && !Live(r.ptys, pid) && !Reserved(l.pc, pid)
    case OthersInsert(_) => true
    case Crash => l.pc != Down
    case Boot => l.pc == Down
    case BeginLaunch => l.pc == Unlocked
    case BeginActivation(_) => l.pc == Unlocked
    case BeginStop(stop) => l.pc == Unlocked && (stop.restart ==> stop.cause == User)
    case BeginAudit(candidates) => l.pc == Unlocked && LinksOf(r.command, candidates)
    case DeliverEvent(pid) => l.pc == Unlocked && HasEnded(r.ptys, pid)
    case Progress(choice) =>
      match l.pc
      case Launching(at) => LaunchEnabled(r, at, choice)
      case ActivationCheck(_) => choice in {Ok, Fault, Discard}
      case Stopping(_, at) => StopEnabled(r, at, choice)
      case Reconciling(at) => CleanupEnabled(r, at, choice)
      case _ => false
  }

  ghost function ProgressStep(l: Local, choice: Choice): Local {
    match l.pc
    case Launching(at) => LaunchStep(l.rows, at, choice)
    case ActivationCheck(why) => ActivationStep(l.rows, why, choice)
    case Stopping(stop, at) => StopStep(l.rows, stop, at, choice)
    case Reconciling(at) => CleanupStep(l.rows, at, choice)
    case _ => l
  }

  ghost function Apply(l: Local, step: Step): Local
    requires Enabled(l, step)
  {
    var r := l.rows;
    match step
    case ProcessExits(pid) => l.(rows := SetProcess(r, pid, Dead))
    case RowEnds(pid, facts) => l.(rows := r.(ptys := r.ptys[pid := r.ptys[pid].(row := Ended(facts))]))
    // Run ids are numbered across commands.
    case OthersInsert(runs) => l.(rows := r.(nextRun := r.nextRun + runs))
    case Crash => Local(r, Down)
    case Boot => Reconcile(r, BootScan)
    case BeginLaunch => Launch(r, LaunchCheck)
    case BeginActivation(why) => Local(r, ActivationCheck(why))
    case BeginStop(stop) => Stop(r, stop, StopRead)
    case BeginAudit(candidates) => Reconcile(r, Cleaning(AtAudit, IsRunning(r.command), candidates, []))
    case DeliverEvent(pid) =>
      Done(Wrote(r, FinalizeByPty(r.command, pid, TerminalOutcome(r.ptys[pid].row.facts, AtEvent))))
    case Progress(choice) => ProgressStep(l, choice)
  }

  ghost predicate Next(l: Local, l': Local) {
    exists step :: Enabled(l, step) && Apply(l, step) == l'
  }

  // ----- The invariant -----

  ghost predicate LinksAllocated(r: Rows) {
    forall pid: Pid :: HasLink(r.command, pid) ==> pid in r.ptys
  }

  ghost predicate LiveOwned(r: Rows) {
    forall pid: Pid :: Live(r.ptys, pid) ==>
      && IsRunning(r.command)
      && NewestLink(r.command) == Some(pid)
      && r.command.runs[Newest(r.command.runs).value].status == Open
  }

  ghost predicate PointerOwned(r: Rows) {
    Pointer(r.command).Some? ==> IsRunning(r.command) && NewestLink(r.command) == Pointer(r.command)
  }

  // A run that is still open and names a process is the newest run of a running command.
  ghost predicate OpenLinkedOwned(r: Rows) {
    forall id :: id in r.command.runs && r.command.runs[id].status == Open && r.command.runs[id].link.Some? ==>
      Newest(r.command.runs) == Some(id) && IsRunning(r.command)
  }

  ghost predicate RowsHonest(r: Rows) {
    forall pid: Pid :: HasEnded(r.ptys, pid) ==> !Live(r.ptys, pid)
  }

  ghost predicate RunIdsFresh(r: Rows) {
    forall id :: id in r.command.runs ==> id < r.nextRun
  }

  ghost predicate RowsOk(r: Rows) {
    && LinksAllocated(r) && LiveOwned(r) && PointerOwned(r) && OpenLinkedOwned(r)
    && RowsHonest(r) && RunIdsFresh(r)
  }

  ghost predicate NewestIs(c: Command, run: RunId, status: RunStatus, link: Option<Pid>) {
    Newest(c.runs) == Some(run) && c.runs[run].status == status && c.runs[run].link == link
  }

  ghost predicate NewestNames(c: Command, run: RunId, pid: Pid) {
    Newest(c.runs) == Some(run) && c.runs[run].link == Some(pid)
  }

  ghost predicate AwaitsProcess(c: Command, run: RunId, link: Option<Pid>) {
    IsRunning(c) && Pointer(c).None? && NewestIs(c, run, Open, link)
  }

  predicate NeverStarted(r: Rows, pid: Pid) {
    pid in r.ptys && r.ptys[pid] == Pty(Pending, NotStarted)
  }

  ghost predicate LaunchOk(r: Rows, at: LaunchPc) {
    var c := r.command;
    match at
    case LaunchCheck => true
    case PruningFailure => !IsRunning(c) && Newest(c.runs).Some? && NewestLink(c).None?
    case Pruning(run, _) => !IsRunning(c) && NewestIs(c, run, Open, None)
    case Marking(run, _) => !IsRunning(c) && NewestIs(c, run, Open, None)
    case Aborting(run) => !IsRunning(c) && NewestIs(c, run, Open, None)
    case Allocating(run) => AwaitsProcess(c, run, None)
    case Linking(run, pid) => AwaitsProcess(c, run, None) && !HasLink(c, pid) && NeverStarted(r, pid)
    case Starting(run, pid) => AwaitsProcess(c, run, Some(pid)) && NeverStarted(r, pid)
    case Handoff(run, pid) => NewestNames(c, run, pid)
    case Installing(run, pid, _) => NewestNames(c, run, pid)
    case Recovering(run, pid) => NewestNames(c, run, pid)
    case Converging(run, outcome, owned, _) =>
      && Newest(c.runs) == Some(run) && NoneLive(r.ptys) && Observed(outcome)
      && (owned.Some? ==> c.runs[run].link == owned)
    case _ => !IsRunning(c)
  }

  ghost predicate StopOk(r: Rows, cause: StopCause, at: StopPc) {
    var c := r.command;
    match at
    case StopRead => true
    case StopClear => StatusOf(c) == Suspended && cause == User
    case StopResolve => IsRunning(c) && Pointer(c).None?
    case StopUnassociated => IsRunning(c) && c.runs == map[]
    case StopConverge(run, outcome) =>
      && IsRunning(c) && Newest(c.runs) == Some(run) && NoneLive(r.ptys) && Observed(outcome)
      && (cause == User ==> outcome.stateStatus != Suspended)
    case StopReadopt(pid) => IsRunning(c) && NewestLink(c) == Some(pid)
    case StopTerminate(pid) => Pointer(c) == Some(pid)
    case StopFinalize(pid) => Pointer(c) == Some(pid) && !Live(r.ptys, pid)
    case StopRecord(pid) => Pointer(c) == Some(pid)
    case StopReturned => cause == User ==> StatusOf(c) != Suspended
  }

  // Every candidate whose cleanup failed is still a durable link of the command.
  ghost predicate FailuresLinked(c: Command, failures: seq<CleanupFailure>) {
    forall i :: 0 <= i < |failures| ==> HasLink(c, failures[i].pid)
  }

  ghost predicate CleanupOk(r: Rows, at: CleanupPc) {
    var c := r.command;
    match at
    case BootScan => true
    case Cleaning(_, claims, todo, failures) =>
      && claims == IsRunning(c)
      && (forall pid: Pid :: pid in todo ==> HasLink(c, pid))
      && FailuresLinked(c, failures)
      && (forall pid: Pid :: Live(r.ptys, pid) ==> pid in todo || FailedPid(failures, pid))
    case Readopting(_, pid, failures) =>
      && failures == [CleanupFailure(pid, Unresolved)]
      && HasLink(c, pid)
      && (forall other: Pid :: Live(r.ptys, other) ==> other == pid)
    case RepairRead => NoneLive(r.ptys)
    case RepairClose(run, outcome) =>
      IsRunning(c) && NoneLive(r.ptys) && Newest(c.runs) == Some(run) && Observed(outcome)
    case RepairState(status) =>
      && IsRunning(c) && NoneLive(r.ptys)
      && if Newest(c.runs).None? then status == Failed else
         var run := c.runs[Newest(c.runs).value];
         run.status != Open && status == StateForCompletedRun(run.status, run.diagnostic)
    case SweepScan(failures) => FailuresLinked(c, failures)
    case Sweeping(failures, residue) => FailuresLinked(c, failures) && residue <= LinklessOpenRuns(c)
  }

  ghost predicate PcOk(r: Rows, pc: Pc) {
    match pc
    case Launching(at) => LaunchOk(r, at)
    case Stopping(stop, at) => StopOk(r, stop.cause, at)
    case Reconciling(at) => CleanupOk(r, at)
    case _ => true
  }

  ghost predicate Inv(l: Local) {
    RowsOk(l.rows) && PcOk(l.rows, l.pc)
  }
}
