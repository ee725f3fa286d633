/**
 What a boot whose calls succeed leaves of one command, said of the command before and after it: along the
 path the flow is proved to take.
 */
module RepairOutcome {
  import opened Outcomes
  import opened CommandStore
  import opened Protocol
  import opened LaunchRun
  import opened CommandReconciler
  import opened BootOutcome

  ghost predicate Succeeds(given: Conditions) {
    (forall pid :: given.cleans(pid)) && (forall at :: given.commits(at))
  }

  // The rows boot reads: those it found, and any end recorded since.
  ghost predicate ReadAs(found: map<Pid, Pty>, read: map<Pid, Pty>, given: Conditions) {
    forall pid: Pid ::
      && (pid in read <==> pid in found)
      && (HasEnded(found, pid) ==> read[pid].row == found[pid].row)
      && (pid in found && (forall at :: NoEndOf(given.moves(at), pid)) ==> read[pid].row == found[pid].row)
  }

  // What a successful boot has left of a command, before the sweep: as it was if it did not claim to run, and
  // otherwise what the rows boot read call for.
  ghost predicate BootOnRecord(before: Command, found: map<Pid, Pty>, given: Conditions, after: Command) {
    if IsRunning(before)
    then exists read :: ReadAs(found, read, given) && RepairOnRecord(before, read, after)
    else after == before
  }

  ghost predicate OnBootPath(start: Rows, l: Local, given: Conditions) {
    var before, r := start.command, l.rows;
    l.pc.Reconciling? &&
    match l.pc.cleanup
    case Cleaning(mode, claims, _, failures) =>
      && r.command == before && mode == AtBoot && claims == IsRunning(before) && failures == []
      && ReadAs(start.ptys, r.ptys, given)
    case RepairRead => r.command == before && IsRunning(before) && ReadAs(start.ptys, r.ptys, given)
    case RepairClose(_, _) => r.command == before && PlannedFor(start, l.pc.cleanup, given)
    case RepairState(_) => r.command == before && PlannedFor(start, l.pc.cleanup, given)
    case SweepScan(failures) => failures == [] && BootOnRecord(before, start.ptys, given, r.command)
    case _ => false
  }

  ghost predicate PlannedFor(start: Rows, at: CleanupPc, given: Conditions) {
    IsRunning(start.command) && exists read :: ReadAs(start.ptys, read, given) && Planned(start.command, read, at)
  }

  lemma ReadSettles(found: map<Pid, Pty>, read: map<Pid, Pty>, at: CleanupPc, given: Conditions)
    requires ReadAs(found, read, given)
    ensures ReadAs(found, Settle(read, Reconciling(at), given.moves(at)), given)
  {
    forall pid: Pid
      ensures var later := Settle(read, Reconciling(at), given.moves(at));
              && (pid in later <==> pid in found)
              && (HasEnded(found, pid) ==> later[pid].row == found[pid].row)
              && (pid in found && (forall pc :: NoEndOf(given.moves(pc), pid)) ==> later[pid].row == found[pid].row)
    {
      SettleKeeps(read, Reconciling(at), given.moves(at), pid);
    }
  }

  lemma CallStaysOnBootPath(start: Rows, l: Local, given: Conditions)
    requires OnBootPath(start, l, given) && InCleanup(l.pc) && Succeeds(given)
    ensures OnBootPath(start, CleanupAfter(l.rows, l.pc.cleanup, given), given)
  {
    var at := l.pc.cleanup;
    var settled := Settled(l, given.moves(at)).rows;
    match at
    case Cleaning(_, _, _, _) => ReadSettles(start.ptys, l.rows.ptys, at, given);
    case RepairRead =>
      ReadSettles(start.ptys, l.rows.ptys, at, given);
      RepairPlans(settled);
    case RepairClose(_, _) => RepairStaysOnBootPath(start, settled, at, given);
    case RepairState(_) => RepairStaysOnBootPath(start, settled, at, given);
    case _ =>
  }

  lemma RepairStaysOnBootPath(start: Rows, r: Rows, at: CleanupPc, given: Conditions)
    requires r.command == start.command && PlannedFor(start, at, given)
    ensures OnBootPath(start, CleanupStep(r, at, Ok), given)
  {
    var read :| ReadAs(start.ptys, read, given) && Planned(start.command, read, at);
    PlanIsCarriedOut(start.command, read, r, at);
  }

  /** A boot of one command in which every cleanup and write succeeds ends on record. */
  lemma {:induction false} BootIsOnRecord(start: Rows, l: Local, given: Conditions)
    requires OnBootPath(start, l, given) && Succeeds(given)
    ensures var path := CleanupPath(l, given);
            BootOnRecord(start.command, start.ptys, given, path[|path| - 1].rows.command)
    decreases CleanupDistance(l.pc)
  {
    if InCleanup(l.pc) {
      EveryCleanupCallIsAStep(l.rows, l.pc.cleanup, given);
      CallStaysOnBootPath(start, l, given);
      BootIsOnRecord(start, CleanupAfter(l.rows, l.pc.cleanup, given), given);
    }
  }
}
