/**
 Boot over the whole command table (apps/runtime/src/commands/convergence.ts), and the reconciler that
 consumes the process layer's events afterwards (apps/runtime/src/commands/service.ts).
 */
module BootPass {
  import opened Optional
  import opened Outcomes
  import opened CommandStore
  import opened CommandTables
  import opened Protocol
  import opened CommandReconciler
  import opened FlowExecutions
  import opened BootOutcome
  import opened RepairOutcome

  datatype WorksetEntry = WorksetEntry(candidates: seq<Pid>, claimsRunning: bool)

  // What reading an incarnation's row yields: a row, no row, or a failed read.
  datatype Reading = Row(row: PtyRow) | Missing | Unreadable

  // Boot must attempt what it cannot tell has ended.
  predicate Nonterminal(reading: Reading) {
    reading == Row(Pending) || reading == Unreadable
  }

  ghost predicate EntryFor(c: Command, read: Pid -> Reading, entry: WorksetEntry) {
    && entry.claimsRunning == IsRunning(c)
    && Distinct(entry.candidates)
    && forall pid: Pid :: pid in entry.candidates <==> HasLink(c, pid) && Nonterminal(read(pid))
  }

  ghost predicate NeedsBoot(c: Command, read: Pid -> Reading) {
    IsRunning(c) || exists pid: Pid :: HasLink(c, pid) && Nonterminal(read(pid))
  }

  ghost predicate LinkSeen(links: seq<PtyLink>, read: Pid -> Reading, t: Target, pid: Pid) {
    PtyLink(t, pid) in links && Nonterminal(read(pid))
  }

  /** The workset holds every command that claims to run or names an unfinished incarnation, and no other,
      and lists each such incarnation exactly once. */
  method BuildBootWorkset(repository: CommandRepository, read: Pid -> Reading)
    returns (entries: map<Target, WorksetEntry>)
    ensures forall t :: t in entries <==> NeedsBoot(repository.View(t), read)
    ensures forall t :: t in entries ==> EntryFor(repository.View(t), read, entries[t])
  {
    var states := repository.states;
    var running := set t | t in states && states[t].status == Running;
    var links := repository.ListCommandPtyLinks();
    entries := CollectEntries(running, links, read);
    forall t
      ensures t in entries <==> NeedsBoot(repository.View(t), read)
      ensures t in entries ==> EntryFor(repository.View(t), read, entries[t])
    {
      assert forall pid: Pid :: LinkSeen(links, read, t, pid) <==>
               HasLink(repository.View(t), pid) && Nonterminal(read(pid));
    }
  }

  method CollectEntries(running: set<Target>, links: seq<PtyLink>, read: Pid -> Reading)
    returns (entries: map<Target, WorksetEntry>)
    requires Distinct(links)
    ensures forall t :: t in entries <==> t in running || exists pid: Pid :: LinkSeen(links, read, t, pid)
    ensures forall t :: t in entries ==>
              && entries[t].claimsRunning == (t in running) && Distinct(entries[t].candidates)
              && forall pid: Pid :: pid in entries[t].candidates <==> LinkSeen(links, read, t, pid)
  {
    entries := map t | t in running :: WorksetEntry([], true);
    for i := 0 to |links|
      invariant forall t :: t in running ==> t in entries
      invariant forall t :: t in entries ==>
                  entries[t].claimsRunning == (t in running) && Distinct(entries[t].candidates)
      invariant forall t, pid: Pid :: LinkSeen(links[..i], read, t, pid) <==>
                  t in entries && pid in entries[t].candidates
      invariant forall t :: t in entries ==> t in running || entries[t].candidates != []
    {
      var link := links[i];
      assert links[..i + 1] == links[..i] + [link];
      assert forall t, pid: Pid :: LinkSeen(links[..i + 1], read, t, pid) <==>
          LinkSeen(links[..i], read, t, pid) || (PtyLink(t, pid) == link && Nonterminal(read(pid)));
      if Nonterminal(read(link.pid)) {
        assert !LinkSeen(links[..i], read, link.target, link.pid);
        var entry := if link.target in entries then entries[link.target] else WorksetEntry([], false);
        entries := entries[link.target := entry.(candidates := entry.candidates + [link.pid])];
      }
    }
    assert links[..|links|] == links;
    forall t | t in entries && entries[t].candidates != [] ensures exists pid: Pid :: LinkSeen(links, read, t, pid) {
      assert LinkSeen(links, read, t, entries[t].candidates[0]);
    }
  }

  /** The workset's candidates are ones the protocol lets boot attempt, and a command left out has none. */
  lemma WorksetIsEnabled(r: Rows, read: Pid -> Reading, entry: WorksetEntry)
    requires RowsOk(r) && EntryFor(r.command, read, entry)
    requires forall pid: Pid :: pid in r.ptys && read(pid) != Unreadable ==> read(pid) == Row(r.ptys[pid].row)
    ensures CleanupEnabled(r, BootScan, Scanned(entry.candidates))
    ensures CleanupStep(r, BootScan, Scanned(entry.candidates)) ==
            Reconcile(r, Cleaning(AtBoot, entry.claimsRunning, entry.candidates, []))
    ensures !NeedsBoot(r.command, read) ==> entry == WorksetEntry([], false)
  {
    if entry.candidates != [] {
      assert HasLink(r.command, entry.candidates[0]) && Nonterminal(read(entry.candidates[0]));
    }
  }

  // The command's part of a boot: its recorded states are one cleanup path, from its rows as boot found
  // them to its rows as boot left them.
  ghost predicate Converged(before: Command, after: Command, entry: WorksetEntry, ptys: map<Pid, Pty>,
                            given: Conditions, history: seq<Local>) {
    && |history| > 0 && history[0].pc == Reconciling(Cleaning(AtBoot, entry.claimsRunning, entry.candidates, []))
    && history[0].rows.command == before && history[0].rows.ptys == ptys && RunIdsFresh(history[0].rows)
    && history == CleanupPath(history[0], given)
    && history[|history| - 1].rows.command == after
    && history[|history| - 1].pc.Reconciling? && history[|history| - 1].pc.cleanup.SweepScan?
  }

  // ----- A boot in which everything succeeds -----

  // What a crash leaves of one command, and nothing alive read as ended or missing.
  ghost predicate LeftByACrash(c: Command, ptys: map<Pid, Pty>, read: Pid -> Reading) {
    && (exists next :: RowsOk(Rows(c, ptys, next)))
    && (forall pid: Pid :: Live(ptys, pid) ==> Nonterminal(read(pid)))
  }

  ghost predicate AtRest(c: Command) {
    !IsRunning(c) && forall id :: id in c.runs ==> c.runs[id].status != Open
  }

  lemma BootStartsOnCourse(entry: WorksetEntry, ptys: map<Pid, Pty>, read: Pid -> Reading, l: Local)
    requires LeftByACrash(l.rows.command, l.rows.ptys, read) && RunIdsFresh(l.rows)
    requires EntryFor(l.rows.command, read, entry)
    requires l.pc == Reconciling(Cleaning(AtBoot, entry.claimsRunning, entry.candidates, []))
    ensures BootOnCourse(l, l.rows.command) && NothingFailed(l.pc)
  {
    var next :| RowsOk(Rows(l.rows.command, l.rows.ptys, next));
    assert forall pid: Pid :: HasLink(l.rows.command, pid) ==>
             HasLink(Rows(l.rows.command, l.rows.ptys, next).command, pid);
  }

  // A command whose cleanups and writes all succeed ends neither running nor with a linked run open.
  lemma ConvergedCommandIsDone(l: Local, given: Conditions)
    requires BootOnCourse(l, l.rows.command) && NothingFailed(l.pc) && l.pc.Reconciling? && Succeeds(given)
    requires var path := CleanupPath(l, given);
             path[|path| - 1].pc.Reconciling? && path[|path| - 1].pc.cleanup.SweepScan?
    ensures var path := CleanupPath(l, given);
            RowsOk(path[|path| - 1].rows) && !IsRunning(path[|path| - 1].rows.command)
  {
    var last := |CleanupPath(l, given)| - 1;
    SuccessAllows(given);
    ConnectedToItself(l, Unhindered);
    CleanupPathConnects(l, l, given, last, Unhindered);
    UnhinderedBootIsDone(l, CleanupPath(l, given)[last]);
  }

  lemma SuccessAllows(given: Conditions)
    requires Succeeds(given)
    ensures Allows(Unhindered, given)
  {
  }

  lemma UnhinderedBootIsDone(l: Local, end: Local)
    requires Connected(l, end, Unhindered) && BootOnCourse(l, l.rows.command) && NothingFailed(l.pc)
    requires l.pc.Reconciling? && end.pc.Reconciling? && end.pc.cleanup.SweepScan?
    ensures RowsOk(end.rows) && !IsRunning(end.rows.command)
  {
    var states, steps :| LeadsBy(states, steps, l, end, Unhindered);
    NothingFails(states, steps, |steps|);
    BootStaysOnCourse(states, steps, |steps|, l.rows.command);
  }

  // What the sweep leaves of a command that is not running.
  lemma SweptCommandIsAtRest(r: Rows, closed: set<RunId>, commits: RunId -> bool)
    requires RowsOk(r) && !IsRunning(r.command)
    requires Swept(r.command, closed, {}, commits) && forall id :: commits(id)
    ensures AtRest(Closing(r.command, closed))
  {
  }

  // A command that did not claim to run keeps its state row, and a run still open is closed as a failed launch.
  ghost predicate OnlySwept(before: Command, after: Command) {
    && after.state == before.state && after.runs.Keys == before.runs.Keys
    && forall id :: id in before.runs ==>
         after.runs[id] == if before.runs[id].status == Open
                           then RunRow(RunFailed, before.runs[id].link, Some(PtyLaunchFailed)) else before.runs[id]
  }

  // What boot found of one command, and what it left of it.
  ghost predicate Booted(before: Command, after: Command, read: Pid -> Reading, ptys: map<Pid, Pty>,
                         given: Conditions, commits: RunId -> bool) {
    LeftByACrash(before, ptys, read) && Succeeds(given) && (forall id :: commits(id)) ==>
      && AtRest(after)
      && if IsRunning(before) then BootOnRecord(before, ptys, given, after) else OnlySwept(before, after)
  }

  lemma SweepKeepsRepair(before: Command, read: map<Pid, Pty>, converged: Command,
                         closed: set<RunId>, commits: RunId -> bool)
    requires RepairOnRecord(before, read, converged) && Swept(converged, closed, {}, commits)
    ensures RepairOnRecord(before, read, Closing(converged, closed))
  {
    var id := Newest(converged.runs);
    var after := Closing(converged, closed);
    assert after.runs.Keys == converged.runs.Keys;
    assert Newest(after.runs) == id;
    if EndedUnrecorded(before, read) {
      RunRecordDeterminesState(read[NewestLink(before).value].row.facts, AtEvent);
    }
    assert id.Some? ==> after.runs[id.value] == converged.runs[id.value];
  }

  lemma SweepKeepsRecord(before: Command, found: map<Pid, Pty>, given: Conditions, converged: Command,
                         closed: set<RunId>, commits: RunId -> bool)
    requires BootOnRecord(before, found, given, converged) && Swept(converged, closed, {}, commits) && IsRunning(before)
    ensures BootOnRecord(before, found, given, Closing(converged, closed))
  {
    var read :| ReadAs(found, read, given) && RepairOnRecord(before, read, converged);
    SweepKeepsRepair(before, read, converged, closed, commits);
  }

  lemma WorksetCommandIsBooted(before: Command, converged: Command, entry: WorksetEntry, read: Pid -> Reading,
                               ptys: map<Pid, Pty>, given: Conditions, history: seq<Local>,
                               closed: set<RunId>, commits: RunId -> bool)
    requires EntryFor(before, read, entry) && Converged(before, converged, entry, ptys, given, history)
    requires Swept(converged, closed, {}, commits)
    ensures Booted(before, Closing(converged, closed), read, ptys, given, commits)
  {
    if LeftByACrash(before, ptys, read) && Succeeds(given) && forall id :: commits(id) {
      BootStartsOnCourse(entry, ptys, read, history[0]);
      ConvergedCommandIsDone(history[0], given);
      SweptCommandIsAtRest(history[|history| - 1].rows, closed, commits);
      BootIsOnRecord(history[0].rows, history[0], given);
      if IsRunning(before) {
        SweepKeepsRecord(before, ptys, given, converged, closed, commits);
      }
    }
  }

  lemma OtherCommandIsBooted(before: Command, read: Pid -> Reading, ptys: map<Pid, Pty>,
                             given: Conditions, closed: set<RunId>, commits: RunId -> bool)
    requires !NeedsBoot(before, read) && Swept(before, closed, {}, commits)
    ensures Booted(before, Closing(before, closed), read, ptys, given, commits)
  {
    if LeftByACrash(before, ptys, read) && forall id :: commits(id) {
      var next :| RowsOk(Rows(before, ptys, next));
      SweptCommandIsAtRest(Rows(before, ptys, next), closed, commits);
    }
  }

  /** A whole boot. Each command of the workset takes one cleanup path of its own, then exactly the residue
      is swept. A command found as a crash can leave it, whose cleanups and writes all succeed, is left
      neither running nor with a run open; one that claimed to run is left as its run and its process's row
      call for, suspended if the runtime cut it off. */
  method ReconcileCommandsAtBoot(repository: CommandRepository, read: Pid -> Reading,
                                 ptys: Target -> map<Pid, Pty>, given: Target -> Conditions, commits: RunId -> bool)
    returns (entries: map<Target, WorksetEntry>, ghost converged: map<Target, Command>,
             ghost histories: map<Target, seq<Local>>, closed: set<RunId>)
    requires repository.Valid()
    modifies repository
    ensures repository.Valid()
    ensures forall t :: t in entries <==> old(NeedsBoot(repository.View(t), read))
    ensures forall t :: t in entries ==> EntryFor(old(repository.View(t)), read, entries[t])
    ensures histories.Keys == entries.Keys == converged.Keys
    ensures forall t :: t in entries ==>
              && Converged(old(repository.View(t)), converged[t], entries[t], ptys(t), given(t), histories[t])
              && repository.View(t) == Closing(converged[t], closed)
    ensures forall t :: t !in entries ==> repository.View(t) == Closing(old(repository.View(t)), closed)
    ensures forall t :: Swept(if t in entries then converged[t] else old(repository.View(t)), closed, {}, commits)
    ensures forall t :: Booted(old(repository.View(t)), repository.View(t), read, ptys(t), given(t), commits)
  {
    entries := BuildBootWorkset(repository, read);
    converged, histories := ConvergeEach(repository, entries, ptys, given);
    closed := SweepLinklessRunningRuns(repository, commits);
    forall t
      ensures Booted(old(repository.View(t)), repository.View(t), read, ptys(t), given(t), commits)
    {
      if t in entries {
        WorksetCommandIsBooted(old(repository.View(t)), converged[t], entries[t], read, ptys(t), given(t),
                               histories[t], closed, commits);
      } else {
        OtherCommandIsBooted(old(repository.View(t)), read, ptys(t), given(t), closed, commits);
      }
    }
  }

  method ConvergeEach(repository: CommandRepository, entries: map<Target, WorksetEntry>,
                      ptys: Target -> map<Pid, Pty>, given: Target -> Conditions)
    returns (ghost converged: map<Target, Command>, ghost histories: map<Target, seq<Local>>)
    requires repository.Valid()
    modifies repository
    ensures repository.Valid() && histories.Keys == entries.Keys == converged.Keys
    ensures forall t :: t in entries ==>
              && Converged(old(repository.View(t)), converged[t], entries[t], ptys(t), given(t), histories[t])
              && repository.View(t) == converged[t]
    ensures forall t :: t !in entries ==> repository.View(t) == old(repository.View(t))
  {
    converged, histories := map[], map[];
    var todo := entries.Keys;
    while todo != {}
      invariant repository.Valid() && todo <= entries.Keys && histories.Keys == converged.Keys == entries.Keys - todo
      invariant forall t :: t !in histories ==> repository.View(t) == old(repository.View(t))
      invariant forall t :: t in histories ==>
                  && Converged(old(repository.View(t)), converged[t], entries[t], ptys(t), given(t), histories[t])
                  && repository.View(t) == converged[t]
      decreases todo
    {
      var t :| t in todo;
      ghost var history := ConvergeOne(repository, t, entries[t], ptys(t), given(t));
      converged, histories := converged[t := repository.View(t)], histories[t := history];
      todo := todo - {t};
    }
  }

  method ConvergeOne(repository: CommandRepository, t: Target, entry: WorksetEntry, ptys: map<Pid, Pty>,
                     given: Conditions)
    returns (ghost history: seq<Local>)
    requires repository.Valid()
    modifies repository
    ensures repository.Valid()
    ensures Converged(old(repository.View(t)), repository.View(t), entry, ptys, given, history)
    ensures forall u :: u != t ==> repository.View(u) == old(repository.View(u))
  {
    var reconciler := new Reconciler(repository, t, AtBoot, ptys, entry.claimsRunning, entry.candidates);
    ghost var start := reconciler.history;
    assert RunIdsFresh(reconciler.Durable());
    reconciler.ConvergeCommandAtBoot(entry.claimsRunning, entry.candidates, given);
    history := reconciler.history;
    assert start[..|start| - 1] == [];
  }

  // ----- The residue sweep -----

  function Closing(c: Command, ids: set<RunId>): Command {
    c.(runs := map id | id in c.runs ::
         if id in ids then RunRow(RunFailed, c.runs[id].link, Some(PtyLaunchFailed)) else c.runs[id])
  }

  lemma ClosingOneMore(c: Command, ids: set<RunId>, id: RunId)
    ensures Closing(c, ids + {id}) ==
            if id in Closing(c, ids).runs then CompleteRun(Closing(c, ids), id, RunFailed, Some(PtyLaunchFailed))
              else Closing(c, ids)
  {
    assert Closing(c, ids + {id}).runs ==
           (if id in Closing(c, ids).runs
            then CompleteRun(Closing(c, ids), id, RunFailed, Some(PtyLaunchFailed)) else Closing(c, ids)).runs;
  }

  ghost predicate Swept(c: Command, closed: set<RunId>, residue: set<RunId>, commits: RunId -> bool) {
    forall id :: id in c.runs ==>
      (id in closed <==> id in LinklessOpenRuns(c) && id !in residue && !IsRunning(c) && commits(id))
  }

  /** Exactly the open, linkless runs of commands that are not running are closed, as far as their
      transactions commit; nothing else changes. */
  method SweepLinklessRunningRuns(repository: CommandRepository, commits: RunId -> bool) returns (closed: set<RunId>)
    requires repository.Valid()
    modifies repository
    ensures repository.Valid()
    ensures forall t :: repository.View(t) == Closing(old(repository.View(t)), closed)
    ensures forall t :: Swept(old(repository.View(t)), closed, {}, commits)
  {
    var runs := repository.runs;
    var residue := set id | id in runs && runs[id].row.status == Open && runs[id].row.link.None?;
    closed := {};
    while residue != {}
      invariant repository.Valid() && repository.states == old(repository.states)
      invariant residue <= runs.Keys && residue !! closed
      invariant forall t :: repository.View(t) == Closing(old(repository.View(t)), closed)
      invariant forall t :: Swept(old(repository.View(t)), closed, residue, commits)
      decreases residue
    {
      var id :| id in residue;
      ghost var before := closed;
      closed := SweepRun(repository, id, runs[id].target, closed, commits);
      forall t
        ensures repository.View(t) == Closing(old(repository.View(t)), closed)
      {
        ClosingOneMore(old(repository.View(t)), before, id);
      }
      residue := residue - {id};
    }
  }

  // One run of the residue, decided by its command's state as it is now.
  method SweepRun(repository: CommandRepository, id: RunId, t: Target, closed: set<RunId>, commits: RunId -> bool)
    returns (more: set<RunId>)
    requires repository.Valid() && id !in closed
    modifies repository`runs
    ensures repository.Valid()
    ensures more == if !IsRunning(old(repository.View(t))) && commits(id) then closed + {id} else closed
    ensures forall u :: repository.View(u) ==
              if more != closed && id in old(repository.View(u)).runs
              then CompleteRun(old(repository.View(u)), id, RunFailed, Some(PtyLaunchFailed))
              else old(repository.View(u))
  {
    more := closed;
    var state := repository.FindState(t);
    if (state.None? || state.value.status != Running) && commits(id) {
      var _ := repository.CompleteRun(id, RunFailed, Some(PtyLaunchFailed));
      more := closed + {id};
    }
  }

  // ----- Events -----

  /** An event finalizes its incarnation's one owner, and is announced only when the status moved. */
  method ReconcilePtyProcessEvent(repository: CommandRepository, pid: Pid, facts: TerminalFacts)
    returns (owner: Option<Target>, announced: bool)
    requires repository.Valid()
    modifies repository
    ensures repository.Valid()
    ensures owner.None? <==> forall t :: NewestLinked(old(repository.View(t)).runs, pid).None?
    ensures owner.Some? ==>
              && repository.View(owner.value) ==
                 FinalizeByPty(old(repository.View(owner.value)), pid, TerminalOutcome(facts, AtEvent))
              && announced == (Pointer(old(repository.View(owner.value))) == Some(pid))
    ensures owner.None? ==> !announced
    ensures forall t :: owner != Some(t) ==> repository.View(t) == old(repository.View(t))
  {
    var outcome := TerminalOutcome(facts, AtEvent);
    var run := repository.FindRunByPtyProcess(pid);
    if run.None? {
      forall t ensures NewestLinked(old(repository.View(t)).runs, pid).None? {
        assert NewestLinked(repository.View(t).runs, pid).None?;
      }
      return None, false;
    }
    var t := repository.runs[run.value].target;
    var result := repository.FinalizeRunAndStateByPty(t, pid, outcome);
    assert NewestLinked(old(repository.View(t)).runs, pid) == run;
    return Some(t), result.stateTransitioned;
  }
}
