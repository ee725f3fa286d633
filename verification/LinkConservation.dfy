/**
 Which incarnations a command's durable rows name: never two of them, and none is ever forgotten except
 by the prune a launch makes.
 */
module LinkConservation {
  import opened Optional
  import opened Outcomes
  import opened CommandStore
  import opened Protocol
  import opened ProtocolInvariant
  import opened ProtocolSafety

  // ----- A command never names two incarnations -----

  ghost predicate NamesOne(c: Command) {
    forall p, q: Pid :: HasLink(c, p) && HasLink(c, q) ==> p == q
  }

  ghost predicate SoleRun(c: Command, run: RunId) {
    forall id :: id in c.runs ==> id == run
  }

  // Between the prune and the link there is one run only, so the link is the command's first.
  ghost predicate SingleLaunch(c: Command, at: LaunchPc) {
    match at
    case Marking(run, _) => SoleRun(c, run)
    case Allocating(run) => SoleRun(c, run)
    case Linking(run, _) => SoleRun(c, run)
    case _ => true
  }

  // A pass over a command has at most one candidate, and so at most one failure.
  predicate SingleCleanup(at: CleanupPc) {
    match at
    case Cleaning(_, _, todo, failures) => |todo| + |failures| <= 1
    case SweepScan(failures) => |failures| <= 1
    case Sweeping(failures, _) => |failures| <= 1
    case _ => true
  }

  ghost predicate Single(l: Local) {
    && NamesOne(l.rows.command)
    && (l.pc.Launching? ==> SingleLaunch(l.rows.command, l.pc.launch))
    && (l.pc.Reconciling? ==> SingleCleanup(l.pc.cleanup))
  }

  // ----- The transactions that add and drop links -----

  predicate Commits(step: Step) {
    step.Progress? && step.choice in {Ok, DoneThenInterrupt}
  }

  predicate CommitsPrune(l: Local, step: Step) {
    Commits(step) && l.pc.Launching? && (l.pc.launch.Pruning? || l.pc.launch.PruningFailure?)
  }

  predicate CommitsLink(l: Local, step: Step, pid: Pid) {
    Commits(step) && l.pc.Launching? && l.pc.launch.Linking? && l.pc.launch.pid == pid
  }

  ghost predicate RunLinked(runs: map<RunId, RunRow>, pid: Pid) {
    exists id :: id in runs && runs[id].link == Some(pid)
  }

  ghost predicate SameRunLinks(c: Command, c': Command) {
    forall pid: Pid :: RunLinked(c'.runs, pid) <==> RunLinked(c.runs, pid)
  }

  // Each run keeps its link, and a run that appears has none.
  ghost predicate RunLinksKept(c: Command, c': Command) {
    && (forall id :: id in c.runs ==> id in c'.runs && c'.runs[id].link == c.runs[id].link)
    && (forall id :: id in c'.runs ==> id in c.runs || c'.runs[id].link.None?)
  }

  lemma KeptLinksAreTheSame(c: Command, c': Command)
    requires RunLinksKept(c, c')
    ensures SameRunLinks(c, c')
  {
    forall pid: Pid
      ensures RunLinked(c'.runs, pid) <==> RunLinked(c.runs, pid)
    {
      if id :| id in c.runs && c.runs[id].link == Some(pid) {
        assert c'.runs[id].link == Some(pid);
      }
      if id :| id in c'.runs && c'.runs[id].link == Some(pid) {
        assert c.runs[id].link == Some(pid);
      }
    }
  }

  // A state row refers to no process its newest run does not name, so the runs' links are all the links.
  lemma RunsNameEverything(r: Rows, pid: Pid)
    requires RowsOk(r)
    ensures HasLink(r.command, pid) <==> RunLinked(r.command.runs, pid)
  {
    if Pointer(r.command) == Some(pid) {
      assert r.command.runs[Newest(r.command.runs).value].link == Some(pid);
    }
  }

  lemma PrepareKeepsLinks(r: Rows, at: LaunchPc, choice: Choice)
    requires RowsOk(r) && !AroundMarker(at) && !AfterAllocation(at)
    requires !CommitsPrune(Launch(r, at), Progress(choice))
    ensures RunLinksKept(r.command, PrepareStep(r, at, choice).rows.command)
  {
  }

  lemma MarkKeepsLinks(r: Rows, at: LaunchPc, choice: Choice)
    requires AroundMarker(at) && !CommitsPrune(Launch(r, at), Progress(choice))
    ensures RunLinksKept(r.command, MarkStep(r, at, choice).rows.command)
  {
  }

  lemma HandoffKeepsLinks(r: Rows, at: LaunchPc, choice: Choice)
    requires AfterAllocation(at) && !(at.Linking? && choice in {Ok, DoneThenInterrupt})
    ensures RunLinksKept(r.command, HandoffStep(r, at, choice).rows.command)
  {
  }

  lemma LaunchKeepsLinks(r: Rows, at: LaunchPc, choice: Choice)
    requires RowsOk(r) && !CommitsPrune(Launch(r, at), Progress(choice))
    requires !(at.Linking? && choice in {Ok, DoneThenInterrupt})
    ensures RunLinksKept(r.command, LaunchStep(r, at, choice).rows.command)
  {
    if AroundMarker(at) {
      MarkKeepsLinks(r, at, choice);
    } else if AfterAllocation(at) {
      HandoffKeepsLinks(r, at, choice);
    } else {
      PrepareKeepsLinks(r, at, choice);
    }
  }

  // A stop re-adopts only what the newest run names already.
  lemma StopKeepsLinks(r: Rows, stop: StopRequest, at: StopPc, choice: Choice)
    requires RowsOk(r) && StopOk(r, stop.cause, at) && !StopReads(at)
    ensures RunLinksKept(r.command, StopWriteStep(r, stop, at, choice).rows.command)
  {
  }

  lemma ReadoptionKeepsTheLink(r: Rows, pid: Pid, diagnostic: Option<DiagnosticReason>)
    requires RowsOk(r) && NamesOne(r.command) && HasLink(r.command, pid)
    ensures SameRunLinks(r.command, Readopted(r, pid, diagnostic).command)
  {
    var c, c' := r.command, Readopted(r, pid, diagnostic).command;
    RunsNameEverything(r, pid);
    var newest := Newest(c.runs).value;
    assert c'.runs[newest].link == Some(pid);
    forall other: Pid
      ensures RunLinked(c'.runs, other) <==> RunLinked(c.runs, other)
    {
      if RunLinked(c.runs, other) {
        assert HasLink(c, other);
      }
      if id :| id in c'.runs && c'.runs[id].link == Some(other) {
        assert id == newest || c.runs[id].link == Some(other);
      }
    }
  }

  lemma RepairKeepsLinks(r: Rows, at: CleanupPc, choice: Choice)
    requires !at.Readopting?
    ensures RunLinksKept(r.command, CleanupStep(r, at, choice).rows.command)
  {
  }

  lemma CleanupKeepsLinks(r: Rows, at: CleanupPc, choice: Choice)
    requires RowsOk(r) && CleanupOk(r, at) && NamesOne(r.command)
    ensures SameRunLinks(r.command, CleanupStep(r, at, choice).rows.command)
  {
    if at.Readopting? {
      ReadoptionKeepsTheLink(r, at.pid, Some(ProcessControlFailed));
    } else {
      RepairKeepsLinks(r, at, choice);
      KeptLinksAreTheSame(r.command, CleanupStep(r, at, choice).rows.command);
    }
  }

  lemma ProgressKeepsLinks(l: Local, choice: Choice)
    requires Inv(l) && Single(l) && !CommitsPrune(l, Progress(choice))
    requires l.pc.Launching? && l.pc.launch.Linking? ==> choice !in {Ok, DoneThenInterrupt}
    ensures SameRunLinks(l.rows.command, ProgressStep(l, choice).rows.command)
  {
    var c, c' := l.rows.command, ProgressStep(l, choice).rows.command;
    match l.pc
    case Launching(at) =>
      LaunchKeepsLinks(l.rows, at, choice);
      KeptLinksAreTheSame(c, c');
    case Stopping(stop, at) =>
      if !StopReads(at) {
        StopKeepsLinks(l.rows, stop, at, choice);
        KeptLinksAreTheSame(c, c');
      }
    case Reconciling(at) => CleanupKeepsLinks(l.rows, at, choice);
    case _ =>
  }

  lemma EventKeepsLinks(c: Command, pid: Pid, outcome: Outcome)
    ensures SameRunLinks(c, FinalizeByPty(c, pid, outcome))
  {
    KeptLinksAreTheSame(c, FinalizeByPty(c, pid, outcome));
  }

  // When a prune commits, the newest run is the launch's own, which has no link, and the pointer is null.
  lemma PruneDropsEveryLink(l: Local, step: Step, pid: Pid)
    requires Inv(l) && Enabled(l, step) && CommitsPrune(l, step)
    ensures !HasLink(Apply(l, step).rows.command, pid)
  {
    var c := l.rows.command;
    PruneKeepsNewest(c);
    assert Pointer(c).None? && NewestLink(c).None?;
    assert Apply(l, step).rows.command == Prune(c, RUNS_TO_RETAIN);
  }

  lemma LinkingNamesIt(l: Local, step: Step, own: Pid, pid: Pid)
    requires Inv(l) && Single(l) && Enabled(l, step) && CommitsLink(l, step, own)
    ensures HasLink(Apply(l, step).rows.command, pid) <==> pid == own
    ensures !HasLink(l.rows.command, pid)
  {
    var c' := Apply(l, step).rows.command;
    assert c'.runs[l.pc.launch.run].link == Some(own);
  }

  /** The links of a command, exactly: a prune drops all of them, the launch's link transaction adds its
      own, and no other step of any flow, re-adoption included, adds or drops one. */
  lemma LinksChangeExactly(l: Local, step: Step, pid: Pid)
    requires Inv(l) && Single(l) && Enabled(l, step)
    ensures HasLink(Apply(l, step).rows.command, pid) <==>
              (HasLink(l.rows.command, pid) && !CommitsPrune(l, step)) || CommitsLink(l, step, pid)
  {
    if CommitsPrune(l, step) {
      PruneDropsEveryLink(l, step, pid);
    } else if step.Progress? && l.pc.Launching? && l.pc.launch.Linking? && Commits(step) {
      LinkingNamesIt(l, step, l.pc.launch.pid, pid);
    } else {
      OtherStepsKeepLinks(l, step, pid);
    }
  }

  lemma OtherStepsKeepLinks(l: Local, step: Step, pid: Pid)
    requires Inv(l) && Single(l) && Enabled(l, step) && !CommitsPrune(l, step)
    requires l.pc.Launching? && l.pc.launch.Linking? ==> !Commits(step)
    ensures HasLink(Apply(l, step).rows.command, pid) <==> HasLink(l.rows.command, pid)
  {
    StepKeepsInv(l, step);
    RunsNameEverything(l.rows, pid);
    RunsNameEverything(Apply(l, step).rows, pid);
    match step
    case Progress(choice) => ProgressKeepsLinks(l, choice);
    case DeliverEvent(ended) =>
      EventKeepsLinks(l.rows.command, ended, TerminalOutcome(l.rows.ptys[ended].row.facts, AtEvent));
    case _ =>
  }

  // ----- The invariant -----

  lemma AtMostOneCandidate(c: Command, candidates: seq<Pid>)
    requires NamesOne(c) && Distinct(candidates)
    requires forall i :: 0 <= i < |candidates| ==> HasLink(c, candidates[i])
    ensures |candidates| <= 1
  {
    if |candidates| > 1 {
      SameCandidate(c, candidates, 0, 1);
    }
  }

  lemma SameCandidate(c: Command, candidates: seq<Pid>, i: nat, j: nat)
    requires NamesOne(c) && Distinct(candidates)
    requires forall k :: 0 <= k < |candidates| ==> HasLink(c, candidates[k])
    requires i < |candidates| && j < |candidates|
    ensures i == j
  {
    assert HasLink(c, candidates[i]) && HasLink(c, candidates[j]);
  }

  lemma LaunchKeepsSingle(r: Rows, at: LaunchPc, choice: Choice)
    requires Inv(Launch(r, at)) && LaunchEnabled(r, at, choice) && SingleLaunch(r.command, at)
    ensures var l' := LaunchStep(r, at, choice); l'.pc.Launching? ==> SingleLaunch(l'.rows.command, l'.pc.launch)
  {
    if at.Pruning? {
      PruneKeepsNewest(r.command);
    }
  }

  lemma CleanupKeepsSingle(r: Rows, at: CleanupPc, choice: Choice)
    requires Inv(Reconcile(r, at)) && NamesOne(r.command) && SingleCleanup(at) && CleanupEnabled(r, at, choice)
    ensures var l' := CleanupStep(r, at, choice); l'.pc.Reconciling? ==> SingleCleanup(l'.pc.cleanup)
  {
    if choice.Scanned? && at.BootScan? {
      AtMostOneCandidate(r.command, choice.candidates);
    }
  }

  lemma PcStaysSingle(l: Local, step: Step)
    requires Inv(l) && Single(l) && Enabled(l, step)
    ensures var l' := Apply(l, step);
            && (l'.pc.Launching? ==> SingleLaunch(l'.rows.command, l'.pc.launch))
            && (l'.pc.Reconciling? ==> SingleCleanup(l'.pc.cleanup))
  {
    match step
    case Progress(choice) =>
      match l.pc {
        case Launching(at) => LaunchKeepsSingle(l.rows, at, choice);
        case Reconciling(at) => CleanupKeepsSingle(l.rows, at, choice);
        case _ =>
      }
    case BeginAudit(candidates) => AtMostOneCandidate(l.rows.command, candidates);
    case _ =>
  }

  /** Every step of every flow keeps a command from naming two incarnations. */
  lemma StepKeepsSingle(l: Local, step: Step)
    requires Inv(l) && Single(l) && Enabled(l, step)
    ensures Single(Apply(l, step))
  {
    PcStaysSingle(l, step);
    var c, c' := l.rows.command, Apply(l, step).rows.command;
    forall p, q: Pid | HasLink(c', p) && HasLink(c', q)
      ensures p == q
    {
      LinksChangeExactly(l, step, p);
      LinksChangeExactly(l, step, q);
      if CommitsLink(l, step, p) {
        LinkingNamesIt(l, step, p, q);
      } else if CommitsLink(l, step, q) {
        LinkingNamesIt(l, step, q, p);
      }
    }
  }

  lemma {:induction false} ExecutionKeepsSingle(states: seq<Local>, steps: seq<Step>, i: nat)
    requires Execution(states, steps) && Inv(states[0]) && Single(states[0]) && i < |states|
    ensures Inv(states[i]) && Single(states[i])
  {
    if i > 0 {
      ExecutionKeepsSingle(states, steps, i - 1);
      StepKeepsInv(states[i - 1], steps[i - 1]);
      StepKeepsSingle(states[i - 1], steps[i - 1]);
    }
  }

  lemma InitiallySingle()
    ensures Inv(INITIAL) && Single(INITIAL)
  {
  }

  /** A committed re-adoption, in particular, forgets nothing: what the command named before it, live,
      open or unverified, it names afterwards. */
  lemma ReadoptionForgetsNothing(l: Local, step: Step, pid: Pid)
    requires Inv(l) && Single(l) && Enabled(l, step) && Readopts(l, step)
    ensures HasLink(Apply(l, step).rows.command, pid) <==> HasLink(l.rows.command, pid)
  {
    LinksChangeExactly(l, step, pid);
  }
}
