/**
 The paths the flows are proved to take are executions of the protocol, so everything proved of executions
 holds of the flows.
 */
module FlowExecutions {
  import opened Protocol
  import opened ProtocolSafety
  import opened LinkConservation
  import opened LaunchRun
  import opened StopRun
  import opened CommandReconciler

  ghost predicate LeadsBy(states: seq<Local>, steps: seq<Step>, l: Local, l': Local, may: Step -> bool) {
    && Execution(states, steps) && states[0] == l && states[|steps|] == l'
    && forall i :: 0 <= i < |steps| ==> may(steps[i])
  }

  // An execution leads from one state to the other, by steps of one kind.
  ghost predicate Connected(l: Local, l': Local, may: Step -> bool) {
    exists states, steps :: LeadsBy(states, steps, l, l', may)
  }

  lemma ConnectedToItself(l: Local, may: Step -> bool)
    ensures Connected(l, l, may)
  {
    assert LeadsBy([l], [], l, l, may);
  }

  lemma OneStepFurther(l: Local, m: Local, step: Step, may: Step -> bool)
    requires Connected(l, m, may) && Enabled(m, step) && may(step)
    ensures Connected(l, Apply(m, step), may)
  {
    var states, steps :| LeadsBy(states, steps, l, m, may);
    assert LeadsBy(states + [Apply(m, step)], steps + [step], l, Apply(m, step), may);
  }

  lemma {:induction false} SettlingConnects(start: Local, l: Local, moves: seq<Step>, may: Step -> bool)
    requires Connected(start, l, may) && forall step :: IsEnvironment(step) ==> may(step)
    ensures Connected(start, Settled(l, moves), may)
    decreases |moves|
  {
    if moves == [] {
      assert Settled(l, moves) == l;
    } else {
      var step := moves[0];
      var l' := l.(rows := l.rows.(ptys := Move(l.rows.ptys, l.pc, step)));
      if (step.ProcessExits? || step.RowEnds?) && Enabled(l, step) {
        OneStepFurther(start, l, step, may);
        assert Apply(l, step) == l';
      } else {
        assert l' == l;
      }
      SettlingConnects(start, l', moves[1..], may);
    }
  }

  // The operation's own calls, and what happens around it.
  predicate OwnStep(step: Step) {
    IsEnvironment(step) || step.Progress?
  }

  lemma LaunchCallConnects(start: Local, l: Local, circ: Circumstances)
    requires Connected(start, l, OwnStep) && l.pc.Launching?
    ensures Connected(start, After(l.rows, l.pc.launch, circ), OwnStep)
  {
    var at := l.pc.launch;
    var settled := Settled(l, circ.moves(at));
    var choice := ChoiceAt(settled.rows.ptys, at, circ);
    SettlingConnects(start, l, circ.moves(at), OwnStep);
    EveryCallIsAStep(settled.rows, at, circ);
    OneStepFurther(start, settled, Progress(choice), OwnStep);
  }

  lemma LaunchPathGoesOn(l: Local, circ: Circumstances, i: nat)
    requires 0 < i < |Path(l, circ)|
    ensures l.pc.Launching?
    ensures var rest := Path(After(l.rows, l.pc.launch, circ), circ); i - 1 < |rest| && Path(l, circ)[i] == rest[i - 1]
  {
  }

  /** Each durable state of a launch is reached from its first by an execution of the protocol. */
  lemma {:induction false} LaunchPathConnects(start: Local, l: Local, circ: Circumstances, i: nat)
    requires Connected(start, l, OwnStep) && i < |Path(l, circ)|
    ensures Connected(start, Path(l, circ)[i], OwnStep)
    decreases i
  {
    if i > 0 {
      LaunchCallConnects(start, l, circ);
      LaunchPathGoesOn(l, circ, i);
      LaunchPathConnects(start, After(l.rows, l.pc.launch, circ), circ, i - 1);
    }
  }

  lemma StopCallConnects(start: Local, l: Local, circ: StopCircumstances)
    requires Connected(start, l, OwnStep) && l.pc.Stopping?
    ensures Connected(start, StopAfter(l.rows, l.pc.stop, l.pc.at, circ), OwnStep)
  {
    var stop, at := l.pc.stop, l.pc.at;
    var settled := Settled(l, circ.moves(at));
    var choice := StopChoiceAt(settled.rows.ptys, at, circ);
    SettlingConnects(start, l, circ.moves(at), OwnStep);
    EveryStopCallIsAStep(settled.rows, stop, at, circ);
    OneStepFurther(start, settled, Progress(choice), OwnStep);
  }

  lemma StopPathGoesOn(l: Local, circ: StopCircumstances, i: nat)
    requires 0 < i < |StopPath(l, circ)|
    ensures l.pc.Stopping?
    ensures var rest := StopPath(StopAfter(l.rows, l.pc.stop, l.pc.at, circ), circ);
            i - 1 < |rest| && StopPath(l, circ)[i] == rest[i - 1]
  {
  }

  /** The same for a stop. */
  lemma {:induction false} StopPathConnects(start: Local, l: Local, circ: StopCircumstances, i: nat)
    requires Connected(start, l, OwnStep) && i < |StopPath(l, circ)|
    ensures Connected(start, StopPath(l, circ)[i], OwnStep)
    decreases i
  {
    if i > 0 {
      StopCallConnects(start, l, circ);
      StopPathGoesOn(l, circ, i);
      StopPathConnects(start, StopAfter(l.rows, l.pc.stop, l.pc.at, circ), circ, i - 1);
    }
  }

  // The steps these conditions let a cleanup take.
  ghost predicate Allows(may: Step -> bool, given: Conditions) {
    && (forall step :: IsEnvironment(step) ==> may(step))
    && forall at :: may(Progress(CleanupChoice(at, given)))
  }

  lemma CleanupCallConnects(start: Local, l: Local, given: Conditions, may: Step -> bool)
    requires Connected(start, l, may) && InCleanup(l.pc) && Allows(may, given)
    ensures Connected(start, CleanupAfter(l.rows, l.pc.cleanup, given), may)
  {
    var at := l.pc.cleanup;
    var settled := Settled(l, given.moves(at));
    SettlingConnects(start, l, given.moves(at), may);
    EveryCleanupCallIsAStep(settled.rows, at, given);
    OneStepFurther(start, settled, Progress(CleanupChoice(at, given)), may);
  }

  lemma CleanupPathGoesOn(l: Local, given: Conditions, i: nat)
    requires 0 < i < |CleanupPath(l, given)|
    ensures InCleanup(l.pc)
    ensures var rest := CleanupPath(CleanupAfter(l.rows, l.pc.cleanup, given), given);
            i - 1 < |rest| && CleanupPath(l, given)[i] == rest[i - 1]
  {
  }

  /** The same for a cleanup, by steps of whatever kind its conditions allow. */
  lemma {:induction false} CleanupPathConnects(start: Local, l: Local, given: Conditions, i: nat, may: Step -> bool)
    requires Connected(start, l, may) && i < |CleanupPath(l, given)| && Allows(may, given)
    ensures Connected(start, CleanupPath(l, given)[i], may)
    decreases i
  {
    if i > 0 {
      CleanupCallConnects(start, l, given, may);
      CleanupPathGoesOn(l, given, i);
      CleanupPathConnects(start, CleanupAfter(l.rows, l.pc.cleanup, given), given, i - 1, may);
    }
  }

  /** So a flow, whatever happens to it, leaves a command that names one incarnation at most. */
  lemma ConnectedStaysSingle(l: Local, l': Local, may: Step -> bool)
    requires Connected(l, l', may) && Inv(l) && Single(l)
    ensures Inv(l') && Single(l')
  {
    var states, steps :| LeadsBy(states, steps, l, l', may);
    ExecutionKeepsSingle(states, steps, |steps|);
  }
}
