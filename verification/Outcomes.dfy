/** Optional values, shared by every module. */
module Optional {
  datatype Option<+T> = None | Some(value: T)
}

/**
 What the end of a process means for the run and the command it belonged to
 (apps/runtime/src/commands/outcomes.ts). Process identity, process rows and the
 command vocabulary are declared here because every other command module reads them.
 */
module Outcomes {
  import opened Optional

  type Pid = nat
  type RunId = nat

  datatype CommandStatus = Idle | Running | Exited | Stopped | Failed | Suspended

  datatype RunStatus = Open | RunExited | RunStopped | RunFailed

  datatype DiagnosticReason =
    | MissingCwd
    | EnvInvalid
    | PtyLaunchFailed
    | PortAllocationFailed
    | RuntimeStopped
    | ProcessControlFailed

  datatype StatusReason =
    | UserRequested
    | RuntimeShutdown
    | BackendUnavailable
    | BackendProcessMissing
    | BackendAttachFailed
    | BackendLaunchFailed
    | RuntimeEphemeralLost

  datatype EndedStatus = PtyExited | PtyFailed | PtyKilled

  // What a finished incarnation's row records.
  datatype TerminalFacts = TerminalFacts(status: EndedStatus, exitCode: Option<int>, reason: Option<StatusReason>)

  datatype Context = AtLaunch | AtEvent

  datatype Outcome = Outcome(runStatus: RunStatus, stateStatus: CommandStatus, diagnostic: Option<DiagnosticReason>)

  // The status a command takes from a finished run of the same name.
  function StatusOfRun(status: RunStatus): CommandStatus {
    match status
    case Open => Running
    case RunExited => Exited
    case RunStopped => Stopped
    case RunFailed => Failed
  }

  predicate InterruptedByRuntime(facts: TerminalFacts) {
    || (facts.status == PtyKilled && facts.reason == Some(RuntimeShutdown))
    || (facts.status == PtyFailed && facts.reason == Some(RuntimeEphemeralLost))
  }

  const RUNTIME_INTERRUPTED := Outcome(RunFailed, Suspended, Some(RuntimeStopped))

  const LAUNCH_FAILURE := Outcome(RunFailed, Failed, Some(PtyLaunchFailed))

  const UNASSOCIATED := Outcome(RunFailed, Failed, Some(ProcessControlFailed))

  function TerminalOutcome(facts: TerminalFacts, context: Context): Outcome {
    if facts.status == PtyExited then
      var run := if facts.exitCode == Some(0) then RunExited else RunFailed;
      Outcome(run, StatusOfRun(run), None)
    else if InterruptedByRuntime(facts) then
      RUNTIME_INTERRUPTED
    else if facts.status == PtyKilled then
      if facts.reason == Some(UserRequested)
      then Outcome(RunStopped, Stopped, None)
      else Outcome(RunFailed, Failed, None)
    else
      Outcome(RunFailed, Failed, if context == AtLaunch then Some(PtyLaunchFailed) else None)
  }

  // What boot makes of a run that had already finished when the runtime stopped.
  function StateForCompletedRun(status: RunStatus, diagnostic: Option<DiagnosticReason>): CommandStatus {
    if diagnostic == Some(RuntimeStopped) then Suspended else StatusOfRun(status)
  }

  // An outcome a finalizer may write: the run really ends, and the command leaves `Running`.
  predicate Terminal(outcome: Outcome) {
    outcome.runStatus != Open && outcome.stateStatus in {Exited, Stopped, Failed, Suspended}
  }

  // An outcome read off an incarnation: only the runtime ending it may suspend the command.
  predicate Observed(outcome: Outcome) {
    Terminal(outcome) && (outcome.stateStatus == Suspended ==> outcome == RUNTIME_INTERRUPTED)
  }

  /** A run's own record carries the command's status: reading an outcome back from the run
      it closed gives the status the outcome wrote, in either context. */
  lemma RunRecordDeterminesState(facts: TerminalFacts, context: Context)
    ensures var o := TerminalOutcome(facts, context);
            Observed(o) && StateForCompletedRun(o.runStatus, o.diagnostic) == o.stateStatus
    ensures TerminalOutcome(facts, context).stateStatus == Suspended <==> InterruptedByRuntime(facts)
  {
  }

  /** Which end makes which run: exited for an exit with code 0, stopped for a kill that a person asked for,
      failed for every other end. The command's status says the same, except that it is suspended when the
      runtime ended the process. */
  lemma EndDeterminesRun(facts: TerminalFacts, context: Context)
    ensures var o := TerminalOutcome(facts, context);
            && (o.runStatus == RunExited <==> facts.status == PtyExited && facts.exitCode == Some(0))
            && (o.runStatus == RunStopped <==> facts.status == PtyKilled && facts.reason == Some(UserRequested))
            && o.runStatus in {RunExited, RunStopped, RunFailed}
            && o.stateStatus == (if InterruptedByRuntime(facts) then Suspended
                                 else if o.runStatus == RunExited then Exited
                                 else if o.runStatus == RunStopped then Stopped else Failed)
            && o.diagnostic == (if InterruptedByRuntime(facts) then Some(RuntimeStopped)
                                else if facts.status == PtyFailed && context == AtLaunch then Some(PtyLaunchFailed)
                                else None)
    ensures InterruptedByRuntime(facts) <==>
              || (facts.status == PtyKilled && facts.reason == Some(RuntimeShutdown))
              || (facts.status == PtyFailed && facts.reason == Some(RuntimeEphemeralLost))
  {
  }

  /** Where an end is noticed, by a launch or by an event, affects the diagnostic only. */
  lemma ContextChangesOnlyTheDiagnostic(facts: TerminalFacts)
    ensures var a, b := TerminalOutcome(facts, AtLaunch), TerminalOutcome(facts, AtEvent);
            && a.runStatus == b.runStatus && a.stateStatus == b.stateStatus
            && (a.diagnostic != b.diagnostic <==>
                facts.status == PtyFailed && facts.reason != Some(RuntimeEphemeralLost))
  {
  }
}
