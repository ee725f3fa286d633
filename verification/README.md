# Verified models of command ownership, workflow structure and harness observation

A Dafny project that models the parts of the runtime and of the workflow verifier whose correctness
depends on reasoning across many functions, and proves what they promise. `dafny verify dfyconfig.toml`
checks all of it.

## What is modelled

**Durable command ownership** (`apps/runtime/src/commands`). Each (worktree, command) pair has a state row
and run rows. A launch is a handshake of many transactions, and stops, process events, boot, activation,
deactivation and deletion write the same rows.

- `Outcomes`, `CommandStore`: what a finished process means for its command, and each transaction as a
  function of one command's record.
- `CommandTables`: the two tables as a class whose methods change them in place; each method is proved
  to be its transaction on one command and to leave every other command alone.
- `Protocol`: the whole protocol of one command as a step relation. A program counter says where the
  operation holding the command's lock stands; every transaction commits, faults without effect, or
  commits and is interrupted; processes die, rows end, events arrive late or repeatedly, and the runtime
  crashes and boots between any two steps. `ProtocolInvariant` proves the ownership invariant and
  `LinkConservation` that a command never names two incarnations, and what becomes of its links at every
  step. Both hold initially (`InitiallySingle`) and are kept by every step, so results that require them
  hold in every reachable state. `Ownership`, `ProtocolSafety`, `BootOutcome`, `Recovery`, `Witnesses` and
  `ExactConditions` draw the consequences.
- `CommandLauncher`, `CommandStopper`, `CommandReconciler`, `BootPass`, `WorktreeLifecycle`: the flows
  themselves, as methods over the tables. `LaunchRun`, `StopRun` and the first half of
  `CommandReconciler` say which path the protocol takes under given circumstances (how each call turns
  out, and which process facts land before it), and each flow is proved to produce exactly that path.
  `FlowExecutions` proves the paths to be executions of the protocol. `LaunchOutcome`, `StopOutcome` and
  `RepairOutcome` say what each flow leaves in the tables, in terms of the rows before and after it.

The process layer is not part of the model. Its assumed contract: a row that has ended stays ended; a row
ends only when no process is behind it; terminating reports that it ended a live process, found none, or
failed; a successful cleanup leaves no process (its row may still be open); an abandoned allocation never
starts; an event follows its row's end, at any time and any number of times; process ids are never reused.

**The workflow structure inspector** (`packages/workflow-verifier/src/structure.ts`). `WorkflowModel` is
the unvalidated data read off a module, with graphs told apart by identity. `Containment` is the
depth-first walk with its limit, `ContainmentFacts` what it establishes, `ContainmentDepth` the memoized
depth, `GraphRules` the validators, `WorkflowDescriptor` the canonical descriptor, `DescriptorMeaning` what it says
of the registrations and `WorkflowInspection` the verdict on a whole module.

**The harness ledger observer** (`apps/runtime/src/harnesses`). `JsonlTail` and `LedgerObserver` read
growing sources incrementally; `Incarnations` drops late records of replaced executions; `TurnEdges`
pairs a lifecycle's edges and makes failures stick; `AgentEdges` projects an agent's sessions and
publishes each edge at most once per baseline. Parsing a line and reducing a harness's records are
parameters.

**Three algorithms.** `PortResolution` (`apps/runtime/src/commands/ports.ts`), `JsonScan`
(`apps/runtime/src/harnesses/headless-output.ts`) and `HashInput`
(`packages/workflow-verifier/src/receipt.ts`). `Sorting` and `ByteStrings` are shared.

## Where the code differs from what its comments promise

- `stopped`, `exited` and `failed` are not absorbing over boots and audits. A failed cleanup of a process
  whose row has not ended re-adopts it and makes the command `running` whatever its status
  (`apps/runtime/src/commands/convergence.ts:177-199`). `Witnesses.BootCanReviveAFailedCommand` reaches such
  a state. `ExactConditions.FinishedCanChangeExactlyWhenPending` gives the condition on the rows beforehand:
  the command names a row that has not ended. Since a command names one incarnation at most, the branch for
  several failures is never taken.
- A prune can drop the last link to a row that has not ended
  (`apps/runtime/src/commands/launch.ts:261-271`): an allocation abandoned after its link was written, whose
  row was never ended, loses it at the next launch (`Witnesses.PruneCanDropAPendingLink`), and so does a
  process that was stopped if its row's end had not landed when the stop was finalized.
  `ExactConditions.PruneForgetsPendingExactlyWhenNamed` gives the condition as a launch begins. Every other
  transaction keeps every link (`LinkConservation.LinksChangeExactly`), and `Ownership.LiveLinkSurvives` has
  no exception.
- A poll can miss that a source was replaced
  (`apps/runtime/src/harnesses/observer.service.ts:494-520`). The inspection of the cursors ends at the
  first source it cannot read and then reports nothing, so a replaced or removed source later in the order
  goes unnoticed and the old file's records are kept (`LedgerObserver.ReplacementIsMissed`,
  `LedgerObserver.StaleLineIsReported`). `LedgerObserver.Observer.RefreshLedger` states exactly when a poll
  ends in step with the disk, and `LedgerObserver.Observer.FollowLedger` that every run of polls does while
  no source is unreadable.

## Model

| member | source | states |
|---|---|---|
| `Outcomes.RunRecordDeterminesState` | apps/runtime/src/commands/outcomes.ts:60-105 | Reading a run's record back gives the status its outcome wrote, in either context, and an outcome suspends exactly when the runtime ended the process |
| `Outcomes.EndDeterminesRun` | apps/runtime/src/commands/outcomes.ts:60-105 | A run is exited exactly for an exit with code 0, stopped exactly for a kill a person asked for and failed otherwise; the status and the diagnostic follow, suspended exactly when the runtime ended the process |
| `Outcomes.ContextChangesOnlyTheDiagnostic` | apps/runtime/src/commands/outcomes.ts:68-105 | Launch and event contexts agree on both statuses; the diagnostic differs exactly for a failed row the runtime did not end |
| `CommandStore.PruneKeepsNewest` | apps/runtime/src/commands/launch.ts:29 | Retaining one run retains exactly the newest, so a prune drops the links of superseded runs only |
| `CommandTables.CommandRepository.TransitionState` | apps/runtime/src/commands/repository.ts:218-223 | Writes status and pointer of one command, keeps its remembered ports, touches no other command |
| `CommandTables.CommandRepository.MarkLaunchInProgress` | apps/runtime/src/commands/repository.ts:224-235 | The launch-in-progress marker: running, no pointer, and the resolved ports, atomically |
| `CommandTables.CommandRepository.WriteCommandState` | apps/runtime/src/commands/repository.ts:870-920 | Inserts or updates the state row; the pointer and the ports are replaced only when named |
| `CommandTables.CommandRepository.CreateRun` | apps/runtime/src/commands/repository.ts:236-258 | A fresh id, larger than every other, with no link |
| `CommandTables.CommandRepository.UpdateRunPty` | apps/runtime/src/commands/repository.ts:259-272 | Links a run by id wherever it is, reporting whether it existed |
| `CommandTables.CommandRepository.CompleteRun` | apps/runtime/src/commands/repository.ts:273-290 | Completes a run by id unconditionally, reporting whether it existed |
| `CommandTables.CommandRepository.PruneRunHistory` | apps/runtime/src/commands/repository.ts:504-530 | Deletes all but the newest runs of one command and returns exactly the deleted ones |
| `CommandTables.CommandRepository.FinalizeRunAndStateByPty` | apps/runtime/src/commands/repository.ts:291-315 | Completes the newest run linked to the process if it is open, transitions the state if its pointer names the process, and says which happened |
| `CommandTables.CommandRepository.FinalizeRunAndStateByRun` | apps/runtime/src/commands/repository.ts:316-342 | The same keyed by a run scoped to its command, and by the state being running |
| `CommandTables.CommandRepository.FinalizeRunAndState` | apps/runtime/src/commands/repository.ts:719-785 | The two guarded halves are independent, and a finished run is not rewritten |
| `CommandTables.CommandRepository.ReadoptCommandIncarnation` | apps/runtime/src/commands/repository.ts:343-435 | Repoints the state and reopens and relinks the newest run, or inserts one, in one transaction; an omitted diagnostic is kept |
| `CommandTables.CommandRepository.FindRunByPtyProcess` | apps/runtime/src/commands/repository.ts:486-503 | The newest run linked to a process over all commands, or none when no command links it |
| `CommandTables.CommandRepository.ListCommandPtyLinks` | apps/runtime/src/commands/repository.ts:436-441 | Every process a state pointer or a run names, each command and process pair once |
| `CommandTables.DistinctCommandPtyLinks` | apps/runtime/src/commands/repository.ts:838-857 | The distinct non-null links of all sources, no other |
| `ProtocolInvariant.StepKeepsInv` | apps/runtime/src/commands/launch.ts:73-381 | Every step of every flow, with any fault, interruption, crash or process event, keeps the ownership invariant |
| `Ownership.LiveProcessIsOwned` | apps/runtime/src/commands/launch.ts:73-381 | In every reachable state a live process is named by the newest, still open run of a running command |
| `Ownership.LiveProcessIsExclusive` | apps/runtime/src/commands/launch.ts:73-381 | A command never has two live processes, and no other command refers to a live one |
| `LinkConservation.StepKeepsSingle` | apps/runtime/src/commands/launch.ts:261-343 | Every step of every flow keeps a command from naming two incarnations, and a pass over it from having two candidates |
| `LinkConservation.LinksChangeExactly` | apps/runtime/src/commands/repository.ts:343-435 | The links after any step, exactly: a prune drops all of them, the launch's link transaction adds its own, every other step of every flow keeps each one |
| `LinkConservation.ReadoptionForgetsNothing` | apps/runtime/src/commands/repository.ts:343-435 | A committed re-adoption keeps the link to every incarnation, whether it lives, is unended or could not be read |
| `Ownership.CommandNamesOneIncarnation` | apps/runtime/src/commands/convergence.ts:177-199 | In every reachable state a command names at most one incarnation |
| `Ownership.LinkSurvives` | apps/runtime/src/commands/repository.ts:343-435 | Over any run of all commands, only a launch's own prune removes the link to an incarnation of any kind, and only with nothing alive behind it |
| `Ownership.LiveLinkSurvives` | apps/runtime/src/commands/repository.ts:343-435 | No transaction of any flow removes the last durable link to a process while it lives |
| `ProtocolSafety.FinishedIsAbsorbing` | apps/runtime/src/commands/lifecycle.ts:331-384 | Over any execution without a requested launch or a committed re-adoption, stopped, exited and failed stay as they are |
| `ProtocolSafety.FinishedChangesOnlyByReadoption` | apps/runtime/src/commands/lifecycle.ts:503-527 | For a finished command the status changes if and only if the step commits a re-adoption, and then to running |
| `ExactConditions.FinishedStaysOnceLinksEnded` | apps/runtime/src/commands/lifecycle.ts:331-384 | A finished command whose linked rows have all ended keeps its status over any events, activations, stops, boots, audits, crashes and faults until a launch is asked for |
| `ExactConditions.FinishedCanChangeExactlyWhenPending` | apps/runtime/src/commands/convergence.ts:148-199 | A finished command can change without a launch if and only if it names a row that has not ended, before anything starts |
| `ProtocolSafety.SuspensionHasACause` | apps/runtime/src/commands/service.ts:301-419 | Over any execution suspended is entered only by a deactivation stop's finalization, by an outcome read off a row the runtime ended, by boot's verdict on a run left open, or from a run that recorded one of these |
| `ProtocolSafety.FinalizedProcessWasTerminated` | apps/runtime/src/commands/service.ts:346-405 | A stop finalizes only a process that this same stop terminated while it was alive, with nothing of its own in between |
| `ProtocolSafety.FinalizationSuspendsExactlyForDeactivation` | apps/runtime/src/commands/service.ts:395-419 | A committed finalization clears the pointer, stops the open run and suspends the command exactly when the stop is a deactivation, otherwise stops it |
| `ProtocolSafety.DeactivationKeepsSuspension` | apps/runtime/src/commands/service.ts:312-318 | A deactivation meeting a suspended command changes no row |
| `ProtocolSafety.UserStopClearsSuspension` | apps/runtime/src/commands/service.ts:216-419 | No stop with cause user returns with the command suspended |
| `ProtocolSafety.RunOutcomeIsWriteOnce` | apps/runtime/src/commands/repository.ts:709-785 | A finished run's status and diagnostic never change, except for the newest run of a command being re-adopted |
| `ProtocolSafety.SupersededEventChangesNothing` | apps/runtime/src/commands/service.ts:114-136 | The event of a superseded process changes no row, so nothing is announced |
| `ProtocolSafety.SupersededEventsStaySilent` | apps/runtime/src/commands/service.ts:474-500 | Once superseded, however late or often the event is delivered |
| `ProtocolSafety.RepeatedEventChangesNothing` | apps/runtime/src/commands/service.ts:474-500 | Delivering an event twice is delivering it once |
| `ProtocolSafety.OnlyTheMarkerWritesPorts` | apps/runtime/src/commands/launch.ts:277-285 | The remembered ports change only when the marker commits, and then to the launch's own resolution |
| `BootOutcome.BootAccountsForEveryProcess` | apps/runtime/src/commands/convergence.ts:260-492 | From any reachable crash state: no cleanup failure leaves nothing running, alive or open; one unresolved failure leaves exactly the survivor owned, with the reason on its run; otherwise the state row and all links are as before |
| `BootOutcome.RepairFollowsTheRead` | apps/runtime/src/commands/convergence.ts:378-446 | What boot reads of a command that claims to run decides what it leaves: a cut-off run fails as stopped by the runtime and suspends the command, an ended process is recorded, a finished run repairs the state, no run fails it |
| `BootOutcome.BootSuspendsExactlyTheInterrupted` | apps/runtime/src/commands/convergence.ts:378-446 | Boot suspends such a command if and only if the runtime cut its run off, ended its process, or had recorded so |
| `RepairOutcome.BootIsOnRecord` | apps/runtime/src/commands/convergence.ts:352-446 | The same along the flow: a boot whose cleanups and writes succeed leaves what the rows it read call for |
| `BootOutcome.FailedCandidatesStayLinked` | apps/runtime/src/commands/convergence.ts:153-175 | Every candidate whose cleanup failed is still linked when the pass is over, whatever faulted |
| `Recovery.RecoveryNeverDiverges` | apps/runtime/src/commands/service.ts:474-500 | Any mix of events, crashes and faulty boots keeps the record on its way to the one the terminal fact determines |
| `Recovery.RecoveryIsConfluent` | apps/runtime/src/commands/convergence.ts:378-424 | The event, or a boot from any crash, ends with the same state row and the same run row |
| `Witnesses.BootCanReviveAFailedCommand` | apps/runtime/src/commands/convergence.ts:177-212 | A reachable failed command that a boot makes running again with no launch asked for |
| `Witnesses.PruneCanDropAPendingLink` | apps/runtime/src/commands/launch.ts:261-271 | A reachable launch whose prune drops the last link to a process row that has not ended |
| `ExactConditions.PruneForgetsWhatWasLinked` | apps/runtime/src/commands/repository.ts:504-530 | A launch's prune drops exactly the links the command had when the launch began |
| `ExactConditions.PruneForgetsPendingExactlyWhenNamed` | apps/runtime/src/commands/launch.ts:261-271 | A launch can forget an incarnation whose row has not ended if and only if, as it begins, the command is not running and names one |
| `FlowExecutions.LaunchPathConnects` | apps/runtime/src/commands/launch.ts:73-381 | Every durable state of a launch is reached by an execution of the protocol, so what holds of executions holds of the flow |
| `FlowExecutions.StopPathConnects` | apps/runtime/src/commands/service.ts:301-419 | The same of a stop |
| `FlowExecutions.CleanupPathConnects` | apps/runtime/src/commands/convergence.ts:108-219 | The same of a cleanup, by steps of whatever kind its conditions allow |
| `LaunchRun.PathKeepsInv` | apps/runtime/src/commands/launch.ts:73-381 | Under any faults, interruptions and process events every durable state of a launch satisfies the ownership invariant, and the launch ends |
| `LaunchOutcome.LaunchIsOnRecord` | apps/runtime/src/commands/launch.ts:73-422 | A launch that answers running has its process in the pointer and in the newest, open run, with the resolved ports; any other answer is a recorded refusal, a failed launch or the end of the process; an announced running is installed even if interrupted |
| `LaunchOutcome.SmoothLaunchReplies` | apps/runtime/src/commands/launch.ts:261-380 | With every call committing, a new process and no end recorded, a launch answers running, with the process alive if it started and did not exit |
| `CommandLauncher.Launcher.RunCommand` | apps/runtime/src/commands/launch.ts:82-103 | The launch goes through exactly the protocol's states, answers with the stored status and announces it unless it was found running, leaves other commands alone, and leaves both rows on record as LaunchOutcome says, and succeeds when nothing goes wrong |
| `CommandLauncher.Launcher.CreateAndLaunch` | apps/runtime/src/commands/launch.ts:148-158 | The same from the creation of the run |
| `CommandLauncher.Launcher.PruneAndMark` | apps/runtime/src/commands/launch.ts:261-271 | The same from the prune, whose fault aborts before the marker |
| `CommandLauncher.Launcher.Mark` | apps/runtime/src/commands/launch.ts:273-291 | The same from the marker |
| `CommandLauncher.Launcher.ConvergeBeforeMarker` | apps/runtime/src/commands/launch.ts:176-211 | Without a marker only the run is completed; the status is untouched and republished |
| `CommandLauncher.Launcher.AllocateLaunch` | apps/runtime/src/commands/launch.ts:294-314 | The same from the allocation |
| `CommandLauncher.Launcher.LinkRun` | apps/runtime/src/commands/launch.ts:316-343 | The ownership link is durable before anything starts; its fault converges the run |
| `CommandLauncher.Launcher.Start` | apps/runtime/src/commands/launch.ts:345-348 | The same from the start of the process |
| `CommandLauncher.Launcher.ReadStarted` | apps/runtime/src/commands/launch.ts:350-365 | Only terminal facts actually read may end the command here |
| `CommandLauncher.Launcher.Install` | apps/runtime/src/commands/launch.ts:367-380 | The launch from the installation, announced when it commits; what is installed is RunCommand's to say |
| `CommandLauncher.Launcher.InterruptionFinalizer` | apps/runtime/src/commands/launch.ts:213-259 | An interruption converges an unlinked launch and keeps owning a linked one unless it has ended |
| `CommandLauncher.Launcher.FailedRun` | apps/runtime/src/commands/launch.ts:385-422 | A refused preparation records a finished failed run, prunes and fails the command |
| `CommandLauncher.LaunchKeepsOwnership` | apps/runtime/src/commands/launch.ts:80-81 | Every durable state the launch method leaves behind satisfies the ownership invariant |
| `StopRun.StopPathKeepsInv` | apps/runtime/src/commands/service.ts:301-419 | The same for every durable state of a stop |
| `StopOutcome.StopIsOnRecord` | apps/runtime/src/commands/service.ts:216-419 | A stop that returns has left what its resolution says: a process it ended leaves the pointer clear, the run stopped and the command suspended exactly for a deactivation; an ended one shows its end; an absent one changes nothing; a process that stays up was ended |
| `StopOutcome.CommittedStopReturns` | apps/runtime/src/commands/service.ts:301-419 | A stop whose every call commits answers |
| `StopOutcome.LiveRunIsStopped` | apps/runtime/src/commands/service.ts:395-419 | The run of a process that was alive is the one stopped |
| `CommandStopper.Stopper.StopResolvedCommand` | apps/runtime/src/commands/service.ts:301-343 | The stop goes through exactly the protocol's states; its resolution is unchanged if and only if the status is, announcements match the stored status, and both rows are on record as StopOutcome says |
| `CommandStopper.Stopper.ClearSuspension` | apps/runtime/src/commands/service.ts:319-328 | A person's stop turns a suspension into stopped |
| `CommandStopper.Stopper.ResolvePointerlessRunningState` | apps/runtime/src/commands/service.ts:216-291 | A running state with no pointer is resolved through its newest run |
| `CommandStopper.Stopper.DecidePointerless` | apps/runtime/src/commands/service.ts:248-276 | No run, link or row fails the command; a terminal row converges it; anything else is re-adopted; only a deactivation keeps a suspension |
| `CommandStopper.Stopper.TerminateProcess` | apps/runtime/src/commands/service.ts:345-393 | A failed termination, an absent process and a terminated one each lead on as the protocol says |
| `CommandStopper.Stopper.RecordProcessControlFailure` | apps/runtime/src/commands/service.ts:185-204 | A failed stop leaves the command running with its pointer, and its newest run open, linked and with the reason |
| `CommandStopper.Stopper.FinalizeStopped` | apps/runtime/src/commands/service.ts:395-419 | The stop from the finalization of a terminated process, announced unless a restart follows; what it leaves is StopResolvedCommand's to say |
| `CommandStopper.Stopper.Restart` | apps/runtime/src/commands/service.ts:620-627 | A user stop, then a launch under the same lock unless the stop failed, with its answer on record |
| `CommandStopper.StopKeepsOwnership` | apps/runtime/src/commands/service.ts:301-419 | Every durable state the stop method leaves behind satisfies the ownership invariant |
| `CommandReconciler.CleanupPathKeepsInv` | apps/runtime/src/commands/convergence.ts:108-219 | Every durable state of a cleanup satisfies the ownership invariant |
| `CommandReconciler.Reconciler.AttemptCleanups` | apps/runtime/src/commands/convergence.ts:126-148 | Each candidate is attempted exactly once, in order, and the failures are exactly the candidates that could not be cleaned |
| `CommandReconciler.Reconciler.CleanupCommandIncarnations` | apps/runtime/src/commands/convergence.ts:108-219 | Re-adoption happens exactly for one unresolved failure; otherwise no row of the command changes |
| `CommandReconciler.Reconciler.ConvergeCommandAtBoot` | apps/runtime/src/commands/convergence.ts:352-376 | A command's boot goes through exactly the protocol's states |
| `CommandReconciler.Reconciler.RepairResolvedRunningCommand` | apps/runtime/src/commands/convergence.ts:378-446 | The repair of a command that still claims to run |
| `CommandReconciler.Reconciler.DecideRepair` | apps/runtime/src/commands/convergence.ts:383-446 | An open run is decided by its process's own terminal facts and only in their absence by the runtime's stop; a finished run repairs the state |
| `BootPass.BuildBootWorkset` | apps/runtime/src/commands/convergence.ts:291-328 | The workset holds exactly the commands that claim to run or name an unfinished process, with each such process once |
| `BootPass.WorksetIsEnabled` | apps/runtime/src/commands/convergence.ts:291-328 | The workset's candidates are ones the protocol lets boot attempt, and a command left out has none |
| `BootPass.ReconcileCommandsAtBoot` | apps/runtime/src/commands/convergence.ts:260-282 | Every command of the workset takes one cleanup path of its own, then exactly the residue is swept; when its cleanups and writes succeed a command is left neither running nor with an open run, suspended if the runtime cut it off, and otherwise as its run or its process's row says |
| `BootPass.SweepLinklessRunningRuns` | apps/runtime/src/commands/convergence.ts:459-492 | Exactly the open linkless runs of commands that are not running are closed |
| `BootPass.ReconcilePtyProcessEvent` | apps/runtime/src/commands/service.ts:474-500 | An event finalizes its process's one owner and is announced only when the status moved |
| `WorktreeLifecycle.BuildActivationPlan` | apps/runtime/src/commands/lifecycle.ts:503-527 | The plan of a snapshot, in declaration order |
| `WorktreeLifecycle.CheckEntry` | apps/runtime/src/commands/lifecycle.ts:331-370 | An entry launches exactly when the command is still configured and state and configuration still allow its reason |
| `WorktreeLifecycle.FreshPlanIsExecuted` | apps/runtime/src/commands/lifecycle.ts:331-370 | When nothing changed since the snapshot the recheck accepts exactly the planned entries |
| `WorktreeLifecycle.ExecutePlan` | apps/runtime/src/commands/lifecycle.ts:286-384 | Whatever plan is in flight, running, exited, stopped and failed commands are left exactly as they were, and every entry the recheck accepts goes through a launch, which succeeds when nothing goes wrong |
| `WorktreeLifecycle.ProtocolActivatesWhenAccepted` | apps/runtime/src/commands/lifecycle.ts:331-384 | The protocol lets an activation launch exactly when some configuration would make the recheck accept it |
| `WorktreeLifecycle.DeactivationCandidates` | apps/runtime/src/commands/lifecycle.ts:486-498 | Configured to stop, or no longer configured; each name once |
| `WorktreeLifecycle.DeactivateWorktreeCommands` | apps/runtime/src/commands/lifecycle.ts:232-279 | Exactly the candidates go through a deactivation stop, with what it resolved on record; suspended holds exactly those whose process it ended and failures those it could not finish; opted-out commands, other worktrees and, with an unreadable configuration, all commands are untouched |
| `WorktreeLifecycle.AuditWorktreeCommandIncarnations` | apps/runtime/src/commands/lifecycle.ts:174-212 | The audit passes only if every linked process was accounted for, and then changed nothing; whatever it could not account for is still linked; a re-adoption that faults ends the pass |
| `Containment.Inspector.Descend` | packages/workflow-verifier/src/structure.ts:376-417 | The depth-first walk computes the specified walk, and terminates on any object graph |
| `Containment.ChildGraphsOf` | packages/workflow-verifier/src/structure.ts:433-471 | The embedded graphs in node-id order, none for an over-limit graph, and exactly the exceeded limits |
| `ContainmentFacts.CollectsExactlyTheReachable` | packages/workflow-verifier/src/structure.ts:367-423 | The walk visits each graph once and, unless truncated, exactly the reachable ones |
| `ContainmentFacts.ReportsExactlyTheCyclic` | packages/workflow-verifier/src/structure.ts:378-386 | A cycle is reported only when the relation has a reachable one, and always unless truncated |
| `ContainmentFacts.TruncatesExactlyTheTooLarge` | packages/workflow-verifier/src/structure.ts:402-409 | Truncation happens exactly when more than 512 graphs are reachable |
| `ContainmentFacts.KeysAreShared` | packages/workflow-verifier/src/structure.ts:388-400 | Unless the walk was truncated, a duplicate key is reported exactly when two reachable graphs share one |
| `ContainmentFacts.SilentExactlyWhenSound` | packages/workflow-verifier/src/structure.ts:367-423 | The walk finds nothing exactly when the composition is acyclic, small enough, uniquely keyed and within every limit |
| `ContainmentDepth.DepthMeter.DepthOf` | packages/workflow-verifier/src/structure.ts:495-505 | The memoized depth is the longest containment chain including the graph itself |
| `ContainmentDepth.DepthMeter.ValidateContainmentDepth` | packages/workflow-verifier/src/structure.ts:488-526 | Rejected exactly when some chain is longer than 64; the chain named has exactly the depth reported |
| `ContainmentDepth.DepthIgnoresChildOrder` | packages/workflow-verifier/src/structure.ts:395-397 | Child order and sharing do not change a depth |
| `GraphRules.ValidateGraph` | packages/workflow-verifier/src/structure.ts:540-596 | No finding exactly when the graph's header and, within the limits, its body are well formed |
| `GraphRules.ValidateState` | packages/workflow-verifier/src/structure.ts:600-632 | No finding exactly for a non-empty object of fields |
| `GraphRules.ValidateNodes` | packages/workflow-verifier/src/structure.ts:634-662 | No finding exactly for a non-empty object of named, well-formed nodes |
| `GraphRules.ValidateNode` | packages/workflow-verifier/src/structure.ts:664-739 | No finding exactly for a recognized node with its callbacks and graph |
| `GraphRules.ValidateOutcomes` | packages/workflow-verifier/src/structure.ts:741-795 | No finding exactly for a non-empty object of named, well-formed outcomes |
| `GraphRules.ValidateNamespace` | packages/workflow-verifier/src/structure.ts:582-590 | The collisions reported are exactly the ids that name both a node and an outcome |
| `GraphRules.ValidateEntry` | packages/workflow-verifier/src/structure.ts:797-820 | Accepted exactly when the entry is a node; an outcome is told apart |
| `GraphRules.ValidateEdges` | packages/workflow-verifier/src/structure.ts:822-899 | No finding exactly for well-formed edges with one router per node; missing and duplicate routers are reported for exactly their nodes |
| `GraphRules.ValidateDestinations` | packages/workflow-verifier/src/structure.ts:901-945 | No finding exactly for a non-empty list of distinct, resolved destinations |
| `GraphRules.EdgesMatchNodes` | packages/workflow-verifier/src/structure.ts:885-898 | In an accepted graph edges and nodes are in bijection |
| `WorkflowDescriptor.DescriptorIgnoresRegistrationOrder` | packages/workflow-verifier/src/structure.ts:947-1012 | The descriptor is the same for any registration order of the same fields, nodes, edges, outcomes and graphs |
| `DescriptorMeaning.GraphIsDescribed` | packages/workflow-verifier/src/structure.ts:947-1004 | A well-formed graph's description has its key, title, description and entry and lists exactly its fields, nodes, edges and outcomes in order, each with what was registered |
| `DescriptorMeaning.ListedNode` | packages/workflow-verifier/src/structure.ts:971-984 | A node descriptor is listed exactly when such an operation, checkpoint or subgraph, by its graph's key, is registered |
| `DescriptorMeaning.ListedEdge` | packages/workflow-verifier/src/structure.ts:986-994 | An edge descriptor is listed exactly when an edge with that source, those destinations and that title is registered |
| `DescriptorMeaning.ListedOutcome` | packages/workflow-verifier/src/structure.ts:996-1003 | An outcome descriptor is listed exactly when an outcome of that kind, reason and title is registered |
| `DescriptorMeaning.DestinationsAsDeclared` | packages/workflow-verifier/src/structure.ts:986-994 | Declared destinations keep the author's order |
| `Sorting.TextOrderIsTotal` | packages/workflow-verifier/src/structure.ts:1009-1012 | Code-unit comparison is a total order |
| `WorkflowInspection.DescribeWorkflowModule` | packages/workflow-verifier/src/structure.ts:181-258 | A module is accepted exactly when it is a workflow with its callbacks and its composition is sound, and its descriptor then says what was registered |
| `WorkflowInspection.ShallowByAdjacency` | packages/workflow-verifier/src/structure.ts:229-234 | The verdict measured on the recorded adjacency is the composition's |
| `WorkflowInspection.DescriptorListsTheReachable` | packages/workflow-verifier/src/structure.ts:240-257 | The descriptor describes every reachable graph and no other, sorted by key |
| `WorkflowInspection.AcceptedIsDescribed` | packages/workflow-verifier/src/structure.ts:240-257 | The descriptor of a sound module names the root's key, lists the keys of the reachable graphs once and in order, and says under each what that graph registered |
| `WorkflowInspection.DescriptorDeterminesStructure` | packages/workflow-verifier/src/structure.ts:240-257 | Two sound modules with one descriptor have the same described structure: their reachable graphs correspond one to one by key, root to root, and are alike |
| `JsonlTail.SplitCompleteJsonlLines` | apps/runtime/src/harnesses/jsonl-tailer.ts:113-126 | The complete lines, without a CR before the LF, and the bytes after the last LF |
| `JsonlTail.SplitAcrossReads` | apps/runtime/src/harnesses/jsonl-tailer.ts:113-126 | Splitting what was left over followed by the next read continues the split of the whole, wherever the cut falls |
| `JsonlTail.OneLinePerLineFeed` | apps/runtime/src/harnesses/jsonl-tailer.ts:113-126 | One line per line feed, and none holds one |
| `JsonlTail.LinesRejoin` | apps/runtime/src/harnesses/jsonl-tailer.ts:113-126 | The lines with their endings, and then the trailing bytes, are the input |
| `JsonlTail.EachLineEndsAs` | apps/runtime/src/harnesses/jsonl-tailer.ts:113-126 | A carriage return is taken off exactly where a line ends in CR LF |
| `LedgerObserver.Observer.AppendLedgerRecord` | apps/runtime/src/harnesses/observer.service.ts:189-204 | Appends this agent's record to its session with the next sequence number |
| `LedgerObserver.Observer.ReadLedgerSource` | apps/runtime/src/harnesses/observer.service.ts:221-247 | Reads a source from its first byte and places the cursor at its end |
| `LedgerObserver.Observer.TailLedgerSource` | apps/runtime/src/harnesses/observer.service.ts:609-635 | Consumes exactly what lies past the cursor |
| `LedgerObserver.Observer.InspectSources` | apps/runtime/src/harnesses/observer.service.ts:903-917 | Looks for a missing or replaced source in cursor order, up to the first unreadable one |
| `LedgerObserver.Observer.RebuildBaseline` | apps/runtime/src/harnesses/observer.service.ts:387-430 | Forgets everything and reads every readable source |
| `LedgerObserver.Observer.RefreshLedger` | apps/runtime/src/harnesses/observer.service.ts:467-565 | A poll, from any state an earlier one left, ends in step with the disk if and only if the inspection found a rebase or every source still holds what was read of it; a cursor fallen behind stays behind until a rebase |
| `LedgerObserver.Observer.FollowLedger` | apps/runtime/src/harnesses/observer.service.ts:387-565 | Over any run of polls whose sources are appended to, replaced, truncated, added or removed and readable, each session written to one file has exactly the records of a fresh complete parse |
| `LedgerObserver.Observer.RecordsAreAFullParse` | apps/runtime/src/harnesses/observer.service.ts:189-247 | In step with the disk, a session written to one file has exactly the records of a fresh complete parse |
| `LedgerObserver.Observer.WellBehavedSourcesAreFollowed` | apps/runtime/src/harnesses/observer.service.ts:467-520 | One poll over such sources is one that ends in step |
| `LedgerObserver.Observer.UnreadableSourceHidesTheRest` | apps/runtime/src/harnesses/observer.service.ts:494-520 | An unreadable source met first hides another's removal or replacement: the condition of a poll in step fails |
| `LedgerObserver.ReplacementIsMissed` | apps/runtime/src/harnesses/observer.service.ts:494-520 | Two polls, the second over an unreadable source and a replaced one no longer than before: every session keeps the records of the old file |
| `LedgerObserver.StaleLineIsReported` | apps/runtime/src/harnesses/observer.service.ts:494-520 | Such a run after which a session's records differ from a full parse of its file |
| `LedgerObserver.InspectionIsComplete` | apps/runtime/src/harnesses/observer.service.ts:903-917 | With no source unreadable the inspection finds exactly what calls for a rebase |
| `LedgerObserver.NumberedFromZero` | apps/runtime/src/harnesses/observer.service.ts:189-204 | Sequence numbers run from 0 |
| `LedgerObserver.SelectsExactly` | apps/runtime/src/harnesses/observer.service.ts:189-204 | The records of a session are the parsed lines that name it and its agent, and no other |
| `Incarnations.CurrentIncarnationRecords` | apps/runtime/src/harnesses/observer-state.ts:319-340 | The records accepted by the scan, in arrival order |
| `Incarnations.DropsExactlyTheSuperseded` | apps/runtime/src/harnesses/observer-state.ts:315-340 | A record is dropped exactly when it is marked and another execution had begun since its own did |
| `Incarnations.PrefixStable` | apps/runtime/src/harnesses/observer-state.ts:319-340 | Later records never change what was accepted before |
| `Incarnations.Idempotent` | apps/runtime/src/harnesses/observer-state.ts:319-340 | A second pass drops nothing |
| `Incarnations.ExecutionsAreContiguous` | apps/runtime/src/harnesses/observer-state.ts:319-340 | Among marked accepted records each execution's are contiguous |
| `Incarnations.InsertExecutionInterval` | apps/runtime/src/harnesses/observer-state.ts:347-355 | The list stays in time order and a tie goes after the intervals already there |
| `TurnEdges.LifecycleTurnEdges` | apps/runtime/src/harnesses/lifecycle.ts:79-115 | The paired edges of the turns in sequence order |
| `TurnEdges.LifecycleIsPaired` | apps/runtime/src/harnesses/lifecycle.ts:79-115 | The edges are exactly the known openings and the reported ends, and a turn's end comes right after its start |
| `TurnEdges.EachTurnEndsOnce` | apps/runtime/src/harnesses/lifecycle.ts:73-115 | Each turn has at most one terminal edge, the one its reducer reported |
| `TurnEdges.TurnsAreInOrder` | apps/runtime/src/harnesses/lifecycle.ts:105 | Turns come in sequence order |
| `TurnEdges.MergeStickyFailures` | apps/runtime/src/harnesses/observer-state.ts:357-377 | Starts keep their order; a turn with a sticky failure has exactly that terminal edge, after its start if it had none; other turns are untouched |
| `AgentEdges.ProjectStream` | apps/runtime/src/harnesses/observer-state.ts:123-163 | A session's projection has every committed failure in place and its starts in order |
| `AgentEdges.ProjectAgent` | apps/runtime/src/harnesses/observer-state.ts:86-202 | The failures afterwards are those before and exactly one for each attributed open turn whose execution is gone; every session is projected with them, and an open turn of the live execution, or an unattributed one, has no terminal edge not committed before |
| `AgentEdges.FailuresAreFinal` | apps/runtime/src/harnesses/observer-state.ts:147-163 | A committed failure stays as it is in every later projection |
| `AgentEdges.JoinedDoesNotRepeat` | apps/runtime/src/harnesses/observer-state.ts:123-163 | No edge appears twice in a projection |
| `AgentEdges.EdgePublisher.RecomputeAndPublish` | apps/runtime/src/harnesses/observer.service.ts:671-715 | Exactly the edges not accounted for are announced, in order, except those of recovered sessions that are not process failures to be published; since the baseline none twice and none both |
| `AgentEdges.EdgePublisher.AbsorbRecovered` | apps/runtime/src/harnesses/observer.service.ts:687-697 | Recovered sessions' edges are absorbed, except process failures not yet published |
| `AgentEdges.EdgePublisher.RebuildBaseline` | apps/runtime/src/harnesses/observer.service.ts:387-465 | Everything projected counts as known; only unpublished process failures are announced; a rebase forgets committed failures |
| `JsonScan.ParseFirstJsonValue` | apps/runtime/src/harnesses/headless-output.ts:152-174 | The slice from the first opening bracket to where the scan's depth returns to zero |
| `JsonScan.FindsExactlyTheValue` | apps/runtime/src/harnesses/headless-output.ts:152-174 | After noise with no opening bracket and before any suffix a printed JSON array or object is found whole and alone |
| `JsonScan.JsonIsCrossed` | apps/runtime/src/harnesses/headless-output.ts:159-171 | Inside the value any JSON text, with any brackets and escapes in its strings, is crossed without stopping |
| `HashInput.HashWorkflowInputs` | packages/workflow-verifier/src/receipt.ts:64-80 | A repeated path is refused; otherwise the path-sorted inputs are streamed with their lengths |
| `HashInput.SameStreamExactlyWhenSameFiles` | packages/workflow-verifier/src/receipt.ts:64-80 | Two lists feed the same bytes exactly when they hold the same path-to-bytes map |
| `HashInput.StreamIsDecodable` | packages/workflow-verifier/src/receipt.ts:70-78 | The length-prefixed stream is uniquely decodable |
| `HashInput.StreamIsLaidOut` | packages/workflow-verifier/src/receipt.ts:70-78 | Each input stands in the stream as its two lengths, its path and its bytes, one after the other |
| `PortResolution.ResolveCommandPorts` | apps/runtime/src/commands/ports.ts:88-121 | Entries in declaration order; remembered ports first; failure only after an error of the system or five offers already taken |
| `PortResolution.ResolveAllocatedPort` | apps/runtime/src/commands/ports.ts:123-158 | The remembered port when free and not excluded, otherwise the first of at most five offers that is not excluded |
| `PortResolution.PortsAreDistinct` | apps/runtime/src/commands/ports.ts:78-86 | No two entries share a port unless both are fixed at it |
| `PortResolution.ResolveTwice` | apps/runtime/src/commands/ports.ts:88-158 | Resolving again from a result with every port free gives that result back |

## Left out

- SQL, the ORM, timestamps, log lines, diagnostic texts and event envelopes; diagnostic reasons are kept.
- Configuration loading, working directories and environment files: a launch's preparation and each read of the catalog are parameters.
- Fibers and scheduling: the command lock serializes one command's operations, so an interleaving is a sequence of steps; two launches of one command in flight at once are excluded by the lock. A deletion audit runs with no launch of its worktree in flight.
- Process rows are never removed from the process layer's view; reclaiming them and their logs is not part of this model.
- Event delivery in `Protocol` is a single step: reading the owning run before taking the lock is folded into it, which the ownership invariant makes equivalent.
- In `CommandReconciler` and `CommandLauncher` the process facts that land between two calls are applied just before the next call.
- Witnesses.BootCanReviveAFailedCommand: stated for one reachable family of commands, because it only has to show that the promise fails; the exact condition is ExactConditions.FinishedCanChangeExactlyWhenPending.
- Every status change being announced: a restart suppresses the announcement of its stop and can then fail; announcements are proved to carry the stored status.
- The activation, deactivation and keep-alive counters that are only logged, the worktree selection of the keep-alive pass, and the post-create and pre-delete passes, which only call the flows modelled here.
- WorktreeLifecycle.ExecutePlan: the plan is an arbitrary list and each entry's fresh configuration a parameter, which covers every stale plan; that accepted entries are launched is stated for plans that name a command once, as built ones do. Which worktree becomes active is left out.
- Messages and graph-key locations of structure diagnostics, saved-position validation, manifests, and JSON printing and hashing of the descriptor.
- An object's own property order: collections are lists in registration order, so integer-like names are not moved to the front.
- WorkflowInspection.DescribeWorkflowModule: what the descriptor says is stated for registries with one value per name, which every object is.
- WorkflowDescriptor.DescriptorIgnoresRegistrationOrder: graphs are the same objects in both modules; renaming their identities is left out.
- Codex rollouts, attribution, identity and metadata, and attention: only the ledger half of the observer's sources is modelled. Directory listing is assumed to succeed, and the disk not to change during one poll.
- LedgerObserver.Observer.RecordsAreAFullParse: for sessions written to one file, as the sources are laid out; records of a session spread over files interleave by arrival.
- Edge keys are the edges themselves; the joined text, in which two different edges could coincide, is left out.
- AgentEdges.ProjectAgent: attention, the change marker and diagnostics are not projected; an agent without a harness, which projects no edge, is left out.
- AgentEdges.FailuresAreFinal: assumes a reducer reports an open turn with the moment it first reported, since the reducers are parameters.
- TurnEdges.EachTurnEndsOnce: assumes a reducer's turns have distinct sequence numbers, for the same reason.
- JSON.parse itself, and the harness-specific extractors around the scanner.
- HashInput.SameStreamExactlyWhenSameFiles: the path order is assumed total; under a locale collation two different paths can tie. Path normalization, UTF-8 encoding and SHA-256 are left out, and lengths are below 2^64 as the encoding requires.
- Port probes and the operating system's offers are parameters; a port's availability does not change during one resolution.
- Access tokens, the desktop shutdown coordinator, command line, HTTP, web and SDK code: easier than what is here.
