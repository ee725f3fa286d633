/** Reachable states that separate what the protocol promises from what it nearly promises. */
module Witnesses {
  import opened Optional
  import opened Outcomes
  import opened CommandStore
  import opened Protocol
  import opened ProtocolSafety
  import opened LinkConservation

  ghost predicate Reachable(l: Local) {
    exists states, steps :: Execution(states, steps) && states[0] == INITIAL && states[|steps|] == l
  }

  lemma Initially()
    ensures Reachable(INITIAL)
  {
    assert Execution([INITIAL], []);
  }

  lemma Then(l: Local, step: Step, l': Local)
    requires Reachable(l) && Enabled(l, step) && Apply(l, step) == l'
    ensures Reachable(l')
  {
    var states, steps :| Execution(states, steps) && states[0] == INITIAL && states[|steps|] == l;
    assert Execution(states + [l'], steps + [step]);
  }

  // Any command that is not running can get as far as creating its run.
  lemma LaunchCreatesRun(r: Rows)
    requires Reachable(Done(r)) && !IsRunning(r.command)
    ensures Reachable(Launch(Inserted(r, CreateRun(r.command, r.nextRun, Open, None)), Pruning(r.nextRun, [])))
  {
    Then(Done(r), BeginLaunch, Launch(r, LaunchCheck));
    Then(Launch(r, LaunchCheck), Progress(Ok), Launch(r, Preparing));
    Then(Launch(r, Preparing), Progress(Resolved([])), Launch(r, Creating([])));
    Then(Launch(r, Creating([])), Progress(Ok),
         Launch(Inserted(r, CreateRun(r.command, r.nextRun, Open, None)), Pruning(r.nextRun, [])));
  }

  lemma OneRunSurvivesPruning(c: Command, id: RunId)
    requires id in c.runs && forall other :: other in c.runs ==> other <= id
    ensures Prune(c, RUNS_TO_RETAIN) == c.(runs := map[id := c.runs[id]])
  {
    PruneKeepsNewest(c);
  }

  function FirstRun(status: RunStatus, link: Option<Pid>, diagnostic: Option<DiagnosticReason>): map<RunId, RunRow> {
    map[0 := RunRow(status, link, diagnostic)]
  }

  lemma FirstLaunchReachesMarker()
    ensures Reachable(Launch(Rows(Command(None, FirstRun(Open, None, None)), map[], 1), Marking(0, [])))
  {
    Initially();
    LaunchCreatesRun(INITIAL.rows);
    var c := Command(None, FirstRun(Open, None, None));
    OneRunSurvivesPruning(c, 0);
    Then(Launch(Rows(c, map[], 1), Pruning(0, [])), Progress(Ok), Launch(Rows(c, map[], 1), Marking(0, [])));
  }

  lemma FirstLaunchReachesLink(pid: Pid)
    ensures Reachable(Launch(Rows(Command(Some(StateRow(Running, None, Some([]))), FirstRun(Open, None, None)),
                                  map[pid := Pty(Pending, NotStarted)], 1), Linking(0, pid)))
  {
    FirstLaunchReachesMarker();
    var marked := Rows(Command(Some(StateRow(Running, None, Some([]))), FirstRun(Open, None, None)), map[], 1);
    Then(Launch(Rows(Command(None, FirstRun(Open, None, None)), map[], 1), Marking(0, [])), Progress(Ok),
         Launch(marked, Allocating(0)));
    Then(Launch(marked, Allocating(0)), Progress(Fresh(pid)), Launch(Allocate(marked, pid), Linking(0, pid)));
  }

  function AbandonedRows(pid: Pid): Rows {
    Rows(Command(Some(StateRow(Failed, None, Some([]))), FirstRun(RunFailed, Some(pid), Some(PtyLaunchFailed))),
         map[pid := Pty(Pending, NotStarted)], 1)
  }

  // The launch is interrupted after its link is durable and before it knows so: the abandoned
  // allocation stays linked, and the write that would end its row has not landed.
  lemma AbandonedAfterLink(pid: Pid)
    ensures Reachable(Done(AbandonedRows(pid)))
  {
    FirstLaunchReachesLink(pid);
    var ptys := map[pid := Pty(Pending, NotStarted)];
    var state := Some(StateRow(Running, None, Some([])));
    var linked := Launch(Rows(Command(state, FirstRun(Open, Some(pid), None)), ptys, 1),
                         Converging(0, LAUNCH_FAILURE, None, true));
    Then(Launch(Rows(Command(state, FirstRun(Open, None, None)), ptys, 1), Linking(0, pid)),
         Progress(DoneThenInterrupt), linked);
    Then(linked, Progress(Ok), Done(AbandonedRows(pid)));
  }

  // One execution leads to the other with no launch asked for on the way.
  ghost predicate QuietlyReaches(l: Local, l': Local) {
    exists states, steps ::
      && Execution(states, steps) && states[0] == l && states[|steps|] == l'
      && forall i :: 0 <= i < |steps| ==> !AsksForLaunch(steps[i])
  }

  lemma QuietlyStays(l: Local)
    ensures QuietlyReaches(l, l)
  {
    assert Execution([l], []);
  }

  lemma QuietlyThen(l: Local, m: Local, step: Step, l': Local)
    requires QuietlyReaches(l, m) && Enabled(m, step) && !AsksForLaunch(step) && Apply(m, step) == l'
    ensures QuietlyReaches(l, l')
  {
    var states, steps :| && Execution(states, steps) && states[0] == l && states[|steps|] == m
                         && forall i :: 0 <= i < |steps| ==> !AsksForLaunch(steps[i]);
    assert Execution(states + [l'], steps + [step]);
  }

  // A boot whose one candidate could not be cleaned up decides to re-adopt it.
  lemma FailedCleanupLeadsToReadoption(r: Rows, pid: Pid)
    requires pid in r.ptys && r.ptys[pid].row == Pending && !IsRunning(r.command)
    requires forall other: Pid :: HasLink(r.command, other) <==> other == pid
    ensures QuietlyReaches(Done(r), Reconcile(r, Readopting(AtBoot, pid, [CleanupFailure(pid, Unresolved)])))
  {
    var scanned := Reconcile(r, Cleaning(AtBoot, false, [pid], []));
    var failed := Reconcile(r, Cleaning(AtBoot, false, [], [CleanupFailure(pid, Unresolved)]));
    QuietlyStays(Done(r));
    QuietlyThen(Done(r), Done(r), Crash, Local(r, Down));
    QuietlyThen(Done(r), Local(r, Down), Boot, Reconcile(r, BootScan));
    QuietlyThen(Done(r), Reconcile(r, BootScan), Progress(Scanned([pid])), scanned);
    assert [pid][1..] == [] && [] + [CleanupFailure(pid, Unresolved)] == [CleanupFailure(pid, Unresolved)];
    QuietlyThen(Done(r), scanned, Progress(CleanupFails(true)), failed);
    QuietlyThen(Done(r), failed, Progress(Ok),
                Reconcile(r, Readopting(AtBoot, pid, [CleanupFailure(pid, Unresolved)])));
  }

  lemma PendingFinishedCommandCanBeRevived(r: Rows, pid: Pid) returns (revived: Local)
    requires NamesOne(r.command) && HasLink(r.command, pid) && pid in r.ptys && r.ptys[pid].row == Pending
    requires !IsRunning(r.command)
    ensures QuietlyReaches(Done(r), revived) && StatusOf(revived.rows.command) == Running
  {
    FailedCleanupLeadsToReadoption(r, pid);
    var readopting := Reconcile(r, Readopting(AtBoot, pid, [CleanupFailure(pid, Unresolved)]));
    revived := Apply(readopting, Progress(Ok));
    QuietlyThen(Done(r), readopting, Progress(Ok), revived);
  }

  /** `failed` is not absorbing over boots: a reachable failed command is `running` again after a boot
      whose one cleanup attempt failed, with no launch in between. */
  lemma BootCanReviveAFailedCommand(pid: Pid) returns (failed: Local, revived: Local)
    ensures Reachable(failed) && StatusOf(failed.rows.command) == Failed && NotLaunching(failed.pc)
    ensures QuietlyReaches(failed, revived) && StatusOf(revived.rows.command) == Running
  {
    AbandonedAfterLink(pid);
    var r := AbandonedRows(pid);
    failed := Done(r);
    assert forall other: Pid :: HasLink(r.command, other) <==> other == pid by {
      assert r.command.runs[0].link == Some(pid);
    }
    revived := PendingFinishedCommandCanBeRevived(r, pid);
  }

  /** A prune can drop the last link to an incarnation whose row has not ended: the next launch after
      the abandoned one does. */
  lemma PruneCanDropAPendingLink(pid: Pid) returns (r: Rows)
    ensures Reachable(Launch(r, Pruning(1, [])))
    ensures HasLink(r.command, pid) && pid in r.ptys && r.ptys[pid].row == Pending
    ensures !HasLink(Prune(r.command, RUNS_TO_RETAIN), pid)
  {
    AbandonedAfterLink(pid);
    var before := AbandonedRows(pid);
    LaunchCreatesRun(before);
    r := Inserted(before, CreateRun(before.command, 1, Open, None));
    assert r.command.runs[0].link == Some(pid);
    OneRunSurvivesPruning(r.command, 1);
  }
}
