/**
 Exactly when the two promises that can fail do fail: a finished command left alone until it is launched
 again, and a link to an unfinished incarnation kept. Both conditions are on the rows beforehand.
 */
module ExactConditions {
  import opened Optional
  import opened Outcomes
  import opened CommandStore
  import opened Protocol
  import opened ProtocolInvariant
  import opened ProtocolSafety
  import opened LinkConservation
  import opened Witnesses

  // ----- Exactly when a finished command can change -----

  ghost predicate LinksEnded(r: Rows) {
    forall pid: Pid :: HasLink(r.command, pid) ==> HasEnded(r.ptys, pid)
  }

  // No cleanup in flight has found, or will find, a process to re-adopt.
  predicate NothingUnresolved(pc: Pc) {
    pc.Reconciling? ==>
      match pc.cleanup
      case Cleaning(_, _, _, failures) => forall i :: 0 <= i < |failures| ==> failures[i].kind != Unresolved
      case Readopting(_, _, _) => false
      case _ => true
  }

  ghost predicate AtRest(l: Local) {
    && Inv(l) && Single(l) && NotLaunching(l.pc) && LinksEnded(l.rows) && NothingUnresolved(l.pc)
  }

  lemma LinksStayEnded(l: Local, step: Step)
    requires Inv(l) && Single(l) && Enabled(l, step) && NotLaunching(l.pc) && LinksEnded(l.rows)
    ensures LinksEnded(Apply(l, step).rows)
  {
    EndedStaysEnded(l, step);
    forall pid: Pid | HasLink(Apply(l, step).rows.command, pid)
      ensures HasEnded(Apply(l, step).rows.ptys, pid)
    {
      LinksChangeExactly(l, step, pid);
    }
  }

  lemma CleanupFindsNothing(r: Rows, at: CleanupPc, choice: Choice)
    requires CleanupOk(r, at) && CleanupEnabled(r, at, choice) && LinksEnded(r) && NothingUnresolved(Reconciling(at))
    ensures NothingUnresolved(CleanupStep(r, at, choice).pc)
  {
    if at.Cleaning? && at.todo != [] {
      assert HasEnded(r.ptys, at.todo[0]);
    }
  }

  lemma RestIsKept(l: Local, step: Step)
    requires AtRest(l) && Finished(StatusOf(l.rows.command)) && Enabled(l, step) && !AsksForLaunch(step)
    ensures AtRest(Apply(l, step)) && StatusOf(Apply(l, step).rows.command) == StatusOf(l.rows.command)
  {
    StepKeepsInv(l, step);
    StepKeepsSingle(l, step);
    LinksStayEnded(l, step);
    FinishedChangesOnlyByReadoption(l, step);
    NothingTurnsUp(l, step);
  }

  lemma NothingTurnsUp(l: Local, step: Step)
    requires AtRest(l) && Enabled(l, step)
    ensures NothingUnresolved(Apply(l, step).pc)
  {
    if step.Progress? && l.pc.Reconciling? {
      CleanupFindsNothing(l.rows, l.pc.cleanup, step.choice);
    }
  }

  /** A finished command whose every linked row has ended is left alone by any events, activations, passes,
      stops, boots, audits, crashes and faults: only a launch that is asked for changes it. */
  lemma {:induction false} FinishedStaysOnceLinksEnded(states: seq<Local>, steps: seq<Step>)
    requires Execution(states, steps) && AtRest(states[0]) && Finished(StatusOf(states[0].rows.command))
    requires forall i :: 0 <= i < |steps| ==> !AsksForLaunch(steps[i])
    ensures AtRest(states[|steps|])
    ensures StatusOf(states[|steps|].rows.command) == StatusOf(states[0].rows.command)
  {
    if |steps| > 0 {
      var n := |steps| - 1;
      assert Execution(states[..n + 1], steps[..n]);
      FinishedStaysOnceLinksEnded(states[..n + 1], steps[..n]);
      RestIsKept(states[n], steps[n]);
    }
  }

  // A row the command names whose end is not recorded.
  ghost predicate NamesPending(r: Rows) {
    exists pid: Pid :: HasLink(r.command, pid) && pid in r.ptys && r.ptys[pid].row == Pending
  }

  /** `stopped`, `exited` and `failed` can be left without a launch exactly when the command still names a
      process whose row has not ended: a condition on the rows before anything starts. */
  lemma FinishedCanChangeExactlyWhenPending(l: Local)
    requires Inv(l) && Single(l) && l.pc == Unlocked && Finished(StatusOf(l.rows.command))
    ensures (exists l' :: QuietlyReaches(l, l') && StatusOf(l'.rows.command) != StatusOf(l.rows.command))
            <==> NamesPending(l.rows)
  {
    if NamesPending(l.rows) {
      var pid: Pid :| HasLink(l.rows.command, pid) && pid in l.rows.ptys && l.rows.ptys[pid].row == Pending;
      var revived := PendingFinishedCommandCanBeRevived(l.rows, pid);
    } else {
      forall l' | QuietlyReaches(l, l')
        ensures StatusOf(l'.rows.command) == StatusOf(l.rows.command)
      {
        var states, steps :| && Execution(states, steps) && states[0] == l && states[|steps|] == l'
                             && forall i :: 0 <= i < |steps| ==> !AsksForLaunch(steps[i]);
        FinishedStaysOnceLinksEnded(states, steps);
      }
    }
  }

  // ----- Exactly when a launch forgets an unfinished incarnation -----

  // One launch, from its first check to the call after which the last state is reached.
  ghost predicate OneLaunch(states: seq<Local>, steps: seq<Step>) {
    && Execution(states, steps) && |steps| > 0 && states[0].pc == Launching(LaunchCheck)
    && forall i :: 0 <= i < |steps| ==> states[i].pc.Launching?
  }

  predicate BeforePrune(at: LaunchPc) {
    at.LaunchCheck? || at.Preparing? || at.RecordingFailure? || at.PruningFailure? || at.Creating? || at.Pruning?
  }

  lemma CameFromBeforePrune(l: Local, step: Step)
    requires Enabled(l, step) && l.pc.Launching?
    requires Apply(l, step).pc.Launching? && BeforePrune(Apply(l, step).pc.launch)
    ensures BeforePrune(l.pc.launch) && !CommitsPrune(l, step)
  {
  }

  // Up to its prune a launch neither adds nor drops a link.
  lemma {:induction false} LinksAsTheLaunchBegan(states: seq<Local>, steps: seq<Step>, i: nat, pid: Pid)
    requires OneLaunch(states, steps) && Inv(states[0]) && Single(states[0])
    requires i < |states| && states[i].pc.Launching? && BeforePrune(states[i].pc.launch)
    ensures HasLink(states[i].rows.command, pid) <==> HasLink(states[0].rows.command, pid)
  {
    if i > 0 {
      CameFromBeforePrune(states[i - 1], steps[i - 1]);
      LinksAsTheLaunchBegan(states, steps, i - 1, pid);
      ExecutionKeepsSingle(states, steps, i - 1);
      LinksChangeExactly(states[i - 1], steps[i - 1], pid);
    }
  }

  /** What a launch's prune forgets is everything the command named when the launch began. */
  lemma PruneForgetsWhatWasLinked(states: seq<Local>, steps: seq<Step>, pid: Pid)
    requires OneLaunch(states, steps) && Inv(states[0]) && Single(states[0])
    requires CommitsPrune(states[|steps| - 1], steps[|steps| - 1])
    ensures HasLink(states[|steps| - 1].rows.command, pid) <==> HasLink(states[0].rows.command, pid)
    ensures !HasLink(states[|steps|].rows.command, pid)
  {
    var last := |steps| - 1;
    LinksAsTheLaunchBegan(states, steps, last, pid);
    ExecutionKeepsSingle(states, steps, last);
    LinksChangeExactly(states[last], steps[last], pid);
    PruneDropsEveryLink(states[last], steps[last], pid);
  }

  // This launch's prune drops the link to a row that has not ended.
  ghost predicate ForgetsPending(l: Local, states: seq<Local>, steps: seq<Step>, pid: Pid) {
    && OneLaunch(states, steps) && states[0] == l
    && CommitsPrune(states[|steps| - 1], steps[|steps| - 1])
    && var r := states[|steps| - 1].rows;
       && HasLink(r.command, pid) && pid in r.ptys && r.ptys[pid].row == Pending
       && !HasLink(states[|steps|].rows.command, pid)
  }

  ghost predicate CanForgetPending(l: Local) {
    exists states, steps, pid :: ForgetsPending(l, states, steps, pid)
  }

  ghost predicate Leads(l: Local, step: Step, l': Local) {
    Enabled(l, step) && Apply(l, step) == l'
  }

  lemma LaunchLeadsToPrune(r: Rows, created: Rows)
    requires !IsRunning(r.command) && created == Inserted(r, CreateRun(r.command, r.nextRun, Open, None))
    ensures Leads(Launch(r, LaunchCheck), Progress(Ok), Launch(r, Preparing))
    ensures Leads(Launch(r, Preparing), Progress(Resolved([])), Launch(r, Creating([])))
    ensures Leads(Launch(r, Creating([])), Progress(Ok), Launch(created, Pruning(r.nextRun, [])))
  {
  }

  lemma PendingLinkCanBeForgotten(r: Rows, pid: Pid)
    requires RowsOk(r) && !IsRunning(r.command)
    requires HasLink(r.command, pid) && pid in r.ptys && r.ptys[pid].row == Pending
    ensures CanForgetPending(Launch(r, LaunchCheck))
  {
    var created := Inserted(r, CreateRun(r.command, r.nextRun, Open, None));
    var pruning := Launch(created, Pruning(r.nextRun, []));
    LaunchLeadsToPrune(r, created);
    CreatedRunAddsNoLink(r, pid);
    var pruned := PruneForgetsHere(pruning, pid) by {
      CreateRunKeepsRows(r, Open, None);
    }
    var states := [Launch(r, LaunchCheck), Launch(r, Preparing), Launch(r, Creating([])), pruning, pruned];
    var steps := [Progress(Ok), Progress(Resolved([])), Progress(Ok), Progress(Ok)];
    FourSteps(states, steps);
    assert ForgetsPending(Launch(r, LaunchCheck), states, steps, pid);
  }

  lemma PruneForgetsHere(l: Local, pid: Pid) returns (pruned: Local)
    requires Inv(l) && l.pc.Launching? && l.pc.launch.Pruning?
    ensures Leads(l, Progress(Ok), pruned) && !HasLink(pruned.rows.command, pid)
  {
    pruned := Apply(l, Progress(Ok));
    PruneDropsEveryLink(l, Progress(Ok), pid);
  }

  lemma FourSteps(states: seq<Local>, steps: seq<Step>)
    requires |states| == 5 && |steps| == 4
    requires Leads(states[0], steps[0], states[1]) && Leads(states[1], steps[1], states[2])
    requires Leads(states[2], steps[2], states[3]) && Leads(states[3], steps[3], states[4])
    requires states[0].pc == Launching(LaunchCheck) && forall i :: 0 <= i < 4 ==> states[i].pc.Launching?
    ensures OneLaunch(states, steps)
  {
    forall i | 0 <= i < 4
      ensures Leads(states[i], steps[i], states[i + 1])
    {
      assert i == 0 || i == 1 || i == 2 || i == 3;
    }
  }

  lemma CreatedRunAddsNoLink(r: Rows, pid: Pid)
    requires RowsOk(r) && HasLink(r.command, pid)
    ensures HasLink(CreateRun(r.command, r.nextRun, Open, None), pid)
  {
    var c' := CreateRun(r.command, r.nextRun, Open, None);
    if Pointer(r.command) != Some(pid) {
      var id :| id in r.command.runs && r.command.runs[id].link == Some(pid);
      assert c'.runs[id].link == Some(pid);
    }
  }

  lemma WhatIsForgottenWasNamed(l: Local, states: seq<Local>, steps: seq<Step>, pid: Pid)
    requires Inv(l) && Single(l) && ForgetsPending(l, states, steps, pid)
    ensures !IsRunning(l.rows.command)
    ensures HasLink(l.rows.command, pid) && pid in l.rows.ptys && l.rows.ptys[pid].row == Pending
  {
    PruneForgetsWhatWasLinked(states, steps, pid);
    if HasEnded(l.rows.ptys, pid) {
      EndedForGood(states, steps, |steps| - 1, pid);
    }
    NotRunningFrom(states, steps, |steps| - 1);
  }

  /** A launch can forget an incarnation whose row has not ended exactly when, as the launch begins, the
      command is not running and names one. */
  lemma PruneForgetsPendingExactlyWhenNamed(l: Local)
    requires Inv(l) && Single(l) && l.pc == Launching(LaunchCheck)
    ensures CanForgetPending(l) <==> !IsRunning(l.rows.command) && NamesPending(l.rows)
  {
    if !IsRunning(l.rows.command) && NamesPending(l.rows) {
      var pid: Pid :| HasLink(l.rows.command, pid) && pid in l.rows.ptys && l.rows.ptys[pid].row == Pending;
      PendingLinkCanBeForgotten(l.rows, pid);
    }
    if CanForgetPending(l) {
      var states, steps, pid :| ForgetsPending(l, states, steps, pid);
      WhatIsForgottenWasNamed(l, states, steps, pid);
    }
  }

  // A running command's launch ends at its first check.
  lemma {:induction false} NotRunningFrom(states: seq<Local>, steps: seq<Step>, i: nat)
    requires OneLaunch(states, steps) && Inv(states[0]) && i < |states|
    requires states[i].pc.Launching? && BeforePrune(states[i].pc.launch)
    ensures IsRunning(states[0].rows.command) ==>
              states[i].pc == Launching(LaunchCheck) && IsRunning(states[i].rows.command)
  {
    if i > 0 {
      CameFromBeforePrune(states[i - 1], steps[i - 1]);
      NotRunningFrom(states, steps, i - 1);
    }
  }
}
