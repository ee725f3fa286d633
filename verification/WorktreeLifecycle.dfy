/** The worktree passes over commands: activation, keep-alive resume and deactivation (lifecycle.ts). */
module WorktreeLifecycle {
  import opened Optional
  import opened Outcomes
  import opened CommandStore
  import opened CommandTables
  import opened Protocol
  import opened LaunchRun
  import opened LaunchOutcome
  import opened CommandLauncher
  import opened StopRun
  import opened StopOutcome
  import opened CommandStopper
  import opened CommandReconciler
  import opened BootPass

  datatype CommandConfig = CommandConfig(name: string, activateStart: bool, deactivateStop: bool)

  datatype Catalog = ConfigError | Config(commands: seq<CommandConfig>)

  datatype PlanEntry = PlanEntry(name: string, reason: ActivationReason)

  datatype Verdict = Launches | Discarded

  ghost predicate UniqueNames(commands: seq<CommandConfig>) {
    forall i, j :: 0 <= i < j < |commands| ==> commands[i].name != commands[j].name
  }

  predicate Names(commands: seq<CommandConfig>, name: string) {
    exists i :: 0 <= i < |commands| && commands[i].name == name
  }

  // ----- Activation -----

  function Lookup(states: map<string, CommandStatus>, name: string): Option<CommandStatus> {
    if name in states then Some(states[name]) else None
  }

  predicate Unstarted(status: Option<CommandStatus>) {
    status.None? || status == Some(Idle)
  }

  function PlanFor(command: CommandConfig, status: Option<CommandStatus>): seq<PlanEntry> {
    if status == Some(Suspended) then [PlanEntry(command.name, Resume)]
    else if command.activateStart && Unstarted(status) then [PlanEntry(command.name, Automation)]
    else []
  }

  function Plan(commands: seq<CommandConfig>, states: map<string, CommandStatus>): seq<PlanEntry> {
    if commands == [] then []
    else
      var last := commands[|commands| - 1];
      Plan(commands[..|commands| - 1], states) + PlanFor(last, Lookup(states, last.name))
  }

  method BuildActivationPlan(commands: seq<CommandConfig>, states: map<string, CommandStatus>)
    returns (plan: seq<PlanEntry>)
    ensures plan == Plan(commands, states)
  {
    plan := [];
    for i := 0 to |commands|
      invariant plan == Plan(commands[..i], states)
    {
      var command := commands[i];
      assert commands[..i + 1][..i] == commands[..i];
      if command.name in states && states[command.name] == Suspended {
        plan := plan + [PlanEntry(command.name, Resume)];
      } else if command.activateStart && (command.name !in states || states[command.name] == Idle) {
        plan := plan + [PlanEntry(command.name, Automation)];
      }
    }
    assert commands[..|commands|] == commands;
  }

  // The executor's recheck, under the command's lock, against state and configuration read afresh.
  method CheckEntry(entry: PlanEntry, status: Option<CommandStatus>, catalog: Catalog) returns (verdict: Verdict)
    requires catalog.Config? ==> UniqueNames(catalog.commands)
    ensures verdict == Launches <==> catalog.Config? && Accepted(catalog.commands, entry, status)
  {
    if catalog.ConfigError? {
      return Discarded;
    }
    var i := 0;
    while i < |catalog.commands| && catalog.commands[i].name != entry.name
      invariant 0 <= i <= |catalog.commands|
      invariant forall j :: 0 <= j < i ==> catalog.commands[j].name != entry.name
    {
      i := i + 1;
    }
    if i == |catalog.commands| {
      return Discarded;
    }
    var command := catalog.commands[i];
    if entry.reason == Resume || entry.reason == KeepAlive {
      if status != Some(Suspended) || (entry.reason == KeepAlive && command.deactivateStop) {
        return Discarded;
      }
    } else if (status.Some? && status.value != Idle) || !command.activateStart {
      return Discarded;
    }
    return Launches;
  }

  predicate Accepts(reason: ActivationReason, command: CommandConfig, status: Option<CommandStatus>) {
    match reason
    case Resume => status == Some(Suspended)
    case KeepAlive => status == Some(Suspended) && !command.deactivateStop
    case Automation => Unstarted(status) && command.activateStart
  }

  predicate Accepted(commands: seq<CommandConfig>, entry: PlanEntry, status: Option<CommandStatus>) {
    exists i :: 0 <= i < |commands| && commands[i].name == entry.name && Accepts(entry.reason, commands[i], status)
  }

  /** When nothing changed since the snapshot, the executor accepts exactly the entries of the plan. */
  lemma {:induction false} FreshPlanIsExecuted(commands: seq<CommandConfig>, states: map<string, CommandStatus>,
                                               entry: PlanEntry)
    requires entry.reason != KeepAlive
    ensures entry in Plan(commands, states) <==> Accepted(commands, entry, Lookup(states, entry.name))
  {
    if commands != [] {
      var n := |commands| - 1;
      FreshPlanIsExecuted(commands[..n], states, entry);
      if i :| 0 <= i < |commands| && commands[i].name == entry.name
              && Accepts(entry.reason, commands[i], Lookup(states, entry.name)) {
        assert i < n ==> commands[..n][i] == commands[i];
      }
    }
  }

  // Finished, or already running: nothing automation may touch.
  predicate LeftAlone(status: CommandStatus) {
    status in {Running, Exited, Stopped, Failed}
  }

  function StatusIn(c: Command): Option<CommandStatus> {
    if c.state.Some? then Some(c.state.value.status) else None
  }

  predicate EntryAccepted(before: Command, entry: PlanEntry, catalog: Catalog) {
    catalog.Config? && Accepted(catalog.commands, entry, StatusIn(before))
  }

  /** The protocol lets an activation launch exactly when some configuration would make the recheck accept it. */
  lemma ProtocolActivatesWhenAccepted(r: Rows, why: ActivationReason)
    ensures ActivationStep(r, why, Ok).pc == Launching(LaunchCheck) <==>
              exists command: CommandConfig :: Accepts(why, command, StatusIn(r.command))
  {
    var willing := CommandConfig("", true, false);
    assert ActivationStep(r, why, Ok).pc == Launching(LaunchCheck) ==> Accepts(why, willing, StatusIn(r.command));
  }

  // An accepted entry has put its command through a launch, which succeeds if nothing goes wrong; any other
  // entry has changed nothing.
  ghost predicate EntryDone(before: Command, after: Command, entry: PlanEntry, catalog: Catalog,
                            ptys: map<Pid, Pty>, circ: Circumstances) {
    if EntryAccepted(before, entry, catalog) then
      && (exists next :: LaunchedFrom(Rows(before, ptys, next), after, circ))
      && (Smooth(circ) && circ.pid !in ptys ==>
            after.state == Some(StateRow(Running, Some(circ.pid), Some(circ.preparation.ports))))
    else after == before
  }

  ghost predicate LaunchedFrom(start: Rows, after: Command, circ: Circumstances) {
    var path := Path(Launch(start, LaunchCheck), circ);
    path[|path| - 1].rows.command == after
  }

  ghost predicate UniqueEntries(plan: seq<PlanEntry>) {
    forall i, j :: 0 <= i < j < |plan| ==> plan[i].name != plan[j].name
  }

  /** Whatever plan is in flight, however stale, and however the configuration has changed since: a
      command that is running, exited, stopped or failed when the pass starts is left exactly as it was,
      and so is every command the plan does not name. Every entry the recheck accepts is launched. */
  method ExecutePlan(repository: CommandRepository, worktree: nat, plan: seq<PlanEntry>,
                     catalogs: seq<Catalog>, ptys: seq<map<Pid, Pty>>, circs: seq<Circumstances>)
    returns (executed: nat)
    requires repository.Valid() && |plan| == |catalogs| == |ptys| == |circs|
    requires forall i :: 0 <= i < |catalogs| && catalogs[i].Config? ==> UniqueNames(catalogs[i].commands)
    modifies repository
    ensures repository.Valid()
    ensures forall t :: LeftAlone(old(StatusOf(repository.View(t)))) ==> repository.View(t) == old(repository.View(t))
    ensures forall t :: repository.View(t) != old(repository.View(t)) ==>
              t.worktree == worktree && exists i :: 0 <= i < |plan| && plan[i].name == t.name
    ensures UniqueEntries(plan) ==> forall i :: 0 <= i < |plan| ==>
              EntryDone(old(repository.View(Target(worktree, plan[i].name))),
                        repository.View(Target(worktree, plan[i].name)), plan[i], catalogs[i], ptys[i], circs[i])
  {
    executed := 0;
    for i := 0 to |plan|
      invariant repository.Valid()
      invariant forall t :: LeftAlone(old(StatusOf(repository.View(t)))) ==>
                  repository.View(t) == old(repository.View(t))
      invariant forall t :: repository.View(t) != old(repository.View(t)) ==>
                  t.worktree == worktree && exists k :: 0 <= k < i && plan[k].name == t.name
      invariant UniqueEntries(plan) ==> forall k :: 0 <= k < i ==>
                  EntryDone(old(repository.View(Target(worktree, plan[k].name))),
                            repository.View(Target(worktree, plan[k].name)), plan[k], catalogs[k], ptys[k], circs[k])
    {
      var t := Target(worktree, plan[i].name);
      var launched := ExecuteActivationEntry(repository, t, plan[i], catalogs[i], ptys[i], circs[i]);
      if launched {
        executed := executed + 1;
      }
    }
  }

  method ExecuteActivationEntry(repository: CommandRepository, t: Target, entry: PlanEntry,
                                catalog: Catalog, ptys: map<Pid, Pty>, circ: Circumstances)
    returns (launched: bool)
    requires repository.Valid() && t.name == entry.name && (catalog.Config? ==> UniqueNames(catalog.commands))
    modifies repository
    ensures repository.Valid()
    ensures LeftAlone(old(StatusOf(repository.View(t)))) ==> repository.View(t) == old(repository.View(t))
    ensures EntryDone(old(repository.View(t)), repository.View(t), entry, catalog, ptys, circ)
    ensures forall u :: u != t ==> repository.View(u) == old(repository.View(u))
  {
    var state := repository.FindState(t);
    var status := if state.Some? then Some(state.value.status) else None;
    var verdict := CheckEntry(entry, status, catalog);
    if verdict == Discarded {
      return false;
    }
    var launcher := new Launcher(repository, t, ptys, Launching(LaunchCheck));
    ghost var start := launcher.history[0];
    var answer := launcher.RunCommand(circ);
    assert LaunchedFrom(start.rows, repository.View(t), circ);
    return answer.Answered?;
  }

  // ----- Deactivation -----

  method DeactivationCandidates(commands: seq<CommandConfig>, stateNames: seq<string>) returns (names: seq<string>)
    ensures forall name :: name in names <==>
              || (exists i :: 0 <= i < |commands| && commands[i].name == name && commands[i].deactivateStop)
              || (name in stateNames && !Names(commands, name))
    ensures UniqueNames(commands) && Distinct(stateNames) ==> Distinct(names)
  {
    names := [];
    for i := 0 to |commands|
      invariant forall name :: name in names <==>
                  exists k :: 0 <= k < i && commands[k].name == name && commands[k].deactivateStop
      invariant UniqueNames(commands) ==> Distinct(names)
    {
      assert UniqueNames(commands) ==> commands[i].name !in names;
      if commands[i].deactivateStop {
        names := names + [commands[i].name];
      }
    }
    ghost var configured := names;
    for i := 0 to |stateNames|
      invariant forall name :: name in names <==>
                  name in configured || (name in stateNames[..i] && !Names(commands, name))
      invariant UniqueNames(commands) && Distinct(stateNames) ==> Distinct(names)
    {
      assert stateNames[..i + 1] == stateNames[..i] + [stateNames[i]];
      if !Names(commands, stateNames[i]) {
        assert Distinct(stateNames) ==> stateNames[i] !in stateNames[..i];
        names := names + [stateNames[i]];
      }
    }
    assert stateNames[..|stateNames|] == stateNames;
  }

  predicate OptedOut(commands: seq<CommandConfig>, name: string) {
    Names(commands, name) && forall i :: 0 <= i < |commands| && commands[i].name == name ==> !commands[i].deactivateStop
  }

  // Kept running by configuration, or by a configuration that cannot be read.
  predicate Spared(catalog: Catalog, name: string) {
    catalog.ConfigError? || OptedOut(catalog.commands, name)
  }

  // A command this pass stops: configured to stop, or still on record and no longer configured.
  ghost predicate Leaves(catalog: Catalog, c: Command, name: string) {
    && catalog.Config?
    && ((exists i ::
           0 <= i < |catalog.commands| && catalog.commands[i].name == name && catalog.commands[i].deactivateStop)
        || (c.state.Some? && !Names(catalog.commands, name)))
  }

  // The command has gone through a deactivation stop, and what that resolved is on record.
  ghost predicate StopDone(before: Command, after: Command, ptys: map<Pid, Pty>, circ: StopCircumstances,
                           answer: StopAnswer) {
    && (answer.StopAnswered? ==>
          exists start, r :: ReturnsFor(start, r, before, after, ptys)
                             && ReturnsOnRecord(start, r, Deactivation, answer.resolution, circ))
    && ((forall at :: circ.signal(at) == Commits) ==> answer.StopAnswered?)
    && (StatusOf(before) == Suspended ==> StatusOf(after) == Suspended)
    && (answer.StopAnswered? && answer.resolution == SuspendedNow ==>
          StatusOf(before) != Suspended && StatusOf(after) == Suspended)
  }

  ghost predicate ReturnsFor(start: Rows, r: Rows, before: Command, after: Command, ptys: map<Pid, Pty>) {
    start.command == before && start.ptys == ptys && r.command == after
  }

  /** Leaving a worktree: nothing in another worktree changes, a command configured to keep running is
      untouched, and so is every command when the configuration cannot be read. Every other command goes
      through a deactivation stop: `suspended` holds those whose process it ended, `failures` those it could
      not finish. A suspended command stays suspended. */
  method DeactivateWorktreeCommands(repository: CommandRepository, worktree: nat, catalog: Catalog,
                                    ptys: string -> map<Pid, Pty>, circ: string -> StopCircumstances)
    returns (suspended: set<string>, failures: set<string>, ghost answers: map<string, StopAnswer>)
    requires repository.Valid() && (catalog.Config? ==> UniqueNames(catalog.commands))
    modifies repository
    ensures repository.Valid()
    ensures forall t: Target :: t.worktree != worktree || Spared(catalog, t.name) ==>
              repository.View(t) == old(repository.View(t))
    ensures forall name :: name in answers <==> Leaves(catalog, old(repository.View(Target(worktree, name))), name)
    ensures forall name :: name in answers ==>
              StopDone(old(repository.View(Target(worktree, name))), repository.View(Target(worktree, name)),
                       ptys(name), circ(name), answers[name])
    ensures forall name :: name in suspended <==>
              name in answers && answers[name].StopAnswered? && answers[name].resolution == SuspendedNow
    ensures forall name :: name in failures <==> name in answers && answers[name].StopRaised?
    ensures forall name :: old(StatusOf(repository.View(Target(worktree, name)))) == Suspended ==>
              StatusOf(repository.View(Target(worktree, name))) == Suspended
    ensures forall name :: name in suspended ==>
              && old(StatusOf(repository.View(Target(worktree, name)))) != Suspended
              && StatusOf(repository.View(Target(worktree, name))) == Suspended
  {
    suspended, failures, answers := {}, {}, map[];
    if catalog.ConfigError? {
      return;
    }
    var names := NamesToStop(repository, worktree, catalog);
    var i := 0;
    while i < |names|
      invariant 0 <= i <= |names| && repository.Valid()
      invariant forall t: Target :: t.worktree != worktree || t.name !in names[..i] ==>
                  repository.View(t) == old(repository.View(t))
      invariant forall name :: name in answers <==> name in names[..i]
      invariant forall name :: name in answers ==>
                  StopDone(old(repository.View(Target(worktree, name))), repository.View(Target(worktree, name)),
                           ptys(name), circ(name), answers[name])
      invariant forall name :: name in suspended <==>
                  name in answers && answers[name].StopAnswered? && answers[name].resolution == SuspendedNow
      invariant forall name :: name in failures <==> name in answers && answers[name].StopRaised?
    {
      assert names[..i + 1] == names[..i] + [names[i]];
      assert names[i] !in names[..i];
      var answer := StopForDeactivation(repository, Target(worktree, names[i]), ptys(names[i]), circ(names[i]));
      answers := answers[names[i] := answer];
      if answer.StopRaised? {
        failures := failures + {names[i]};
      } else if answer.resolution == SuspendedNow {
        suspended := suspended + {names[i]};
      }
      i := i + 1;
    }
  }

  method NamesToStop(repository: CommandRepository, worktree: nat, catalog: Catalog) returns (names: seq<string>)
    requires catalog.Config? && UniqueNames(catalog.commands)
    ensures Distinct(names)
    ensures forall name :: name in names <==> Leaves(catalog, repository.View(Target(worktree, name)), name)
  {
    var states := repository.states;
    var named := set t | t in states && t.worktree == worktree :: t.name;
    var stateNames := SequenceOf(named);
    names := DeactivationCandidates(catalog.commands, stateNames);
    forall name
      ensures name in stateNames <==> repository.View(Target(worktree, name)).state.Some?
    {
      if Target(worktree, name) in states {
        assert Target(worktree, name).name in named;
      }
    }
  }

  method StopForDeactivation(repository: CommandRepository, t: Target, ptys: map<Pid, Pty>, circ: StopCircumstances)
    returns (answer: StopAnswer)
    requires repository.Valid()
    modifies repository
    ensures repository.Valid()
    ensures StopDone(old(repository.View(t)), repository.View(t), ptys, circ, answer)
    ensures forall u :: u != t ==> repository.View(u) == old(repository.View(u))
  {
    var request := StopRequest(Deactivation, false);
    var launcher := new Launcher(repository, t, ptys, Stopping(request, StopRead));
    ghost var start := launcher.Durable();
    var stopper := new Stopper(launcher, request);
    answer := stopper.StopResolvedCommand(circ);
    assert ReturnsFor(start, launcher.Durable(), start.command, repository.View(t), ptys);
  }

  // ----- The deletion audit -----

  // Accounted for, or named still by a command of a worktree whose deletion is refused.
  ghost predicate AuditedOrKept(c: Command, pid: Pid, cleans: bool, passed: bool) {
    cleans || (!passed && HasLink(c, pid))
  }

  /** A worktree's deletion starts by attempting every incarnation its commands still name.
      The audit passes only if all of them were accounted for, and then it changed no row; whatever it
      could not account for is still linked, so the retry finds it again. A re-adoption that cannot be
      written ends the pass. */
  method AuditWorktreeCommandIncarnations(repository: CommandRepository, worktree: nat,
                                          ptys: Target -> map<Pid, Pty>, given: Target -> Conditions)
    returns (passed: bool, faulted: Option<Target>)
    requires repository.Valid()
    modifies repository
    ensures repository.Valid()
    ensures forall t: Target :: t.worktree != worktree || faulted == Some(t) ==>
              repository.View(t) == old(repository.View(t))
    ensures forall t: Target, pid: Pid :: t.worktree == worktree && HasLink(old(repository.View(t)), pid) ==>
              AuditedOrKept(repository.View(t), pid, given(t).cleans(pid), passed)
    ensures passed ==> faulted.None? && forall t :: repository.View(t) == old(repository.View(t))
  {
    var entries := AuditEntries(repository, worktree);
    passed, faulted := true, None;
    var todo := entries.Keys;
    while todo != {} && faulted.None?
      invariant repository.Valid() && todo <= entries.Keys && (passed ==> faulted.None?)
      invariant forall t: Target :: t !in entries || t in todo || faulted == Some(t) ==>
                  repository.View(t) == old(repository.View(t))
      invariant forall t: Target, pid: Pid :: t in entries && t !in todo && HasLink(old(repository.View(t)), pid) ==>
                  AuditedOrKept(repository.View(t), pid, given(t).cleans(pid), passed)
      invariant passed ==> forall t :: repository.View(t) == old(repository.View(t))
      decreases todo
    {
      var t :| t in todo;
      var clean, written := AuditOne(repository, t, entries[t].candidates, ptys(t), given(t));
      passed := passed && clean;
      faulted := if written then None else Some(t);
      todo := todo - {t};
    }
  }

  method AuditEntries(repository: CommandRepository, worktree: nat) returns (entries: map<Target, WorksetEntry>)
    ensures forall t :: t in entries ==> t.worktree == worktree
    ensures forall t: Target, pid: Pid :: t.worktree == worktree && HasLink(repository.View(t), pid) ==>
              t in entries && pid in entries[t].candidates
  {
    var links := repository.ListCommandPtyLinks();
    var read := (pid: Pid) => Row(Pending);
    var all := CollectEntries({}, links, read);
    entries := map t | t in all && t.worktree == worktree :: all[t];
    forall t: Target, pid: Pid | t.worktree == worktree && HasLink(repository.View(t), pid)
      ensures t in entries && pid in entries[t].candidates
    {
      assert LinkSeen(links, read, t, pid);
    }
  }

  method AuditOne(repository: CommandRepository, t: Target, candidates: seq<Pid>, ptys: map<Pid, Pty>,
                  given: Conditions)
    returns (clean: bool, written: bool)
    requires repository.Valid() && forall pid: Pid :: HasLink(repository.View(t), pid) ==> pid in candidates
    modifies repository
    ensures repository.Valid()
    ensures forall pid: Pid :: HasLink(old(repository.View(t)), pid) ==>
              AuditedOrKept(repository.View(t), pid, given.cleans(pid), clean)
    ensures clean || !written ==> repository.View(t) == old(repository.View(t))
    ensures clean ==> written
    ensures forall u :: u != t ==> repository.View(u) == old(repository.View(u))
  {
    var state := repository.FindState(t);
    var claims := state.Some? && state.value.status == Running;
    var reconciler := new Reconciler(repository, t, AtAudit, ptys, claims, candidates);
    var failures, readopted := reconciler.CleanupCommandIncarnations(claims, candidates, given);
    clean := failures == [];
    written := readopted.Some? || |failures| != 1 || failures[0].kind != Unresolved;
    forall pid: Pid | HasLink(old(repository.View(t)), pid) && !given.cleans(pid)
      ensures !clean && HasLink(repository.View(t), pid)
    {
      assert FailedPid(failures, pid);
    }
  }
}
