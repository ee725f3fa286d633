/**
 Safety over whole runs: every live process is owned, by exactly one command, between any
 two transactions and under crashes, faults and interruptions.
 */
module Ownership {
  import opened Optional
  import opened Outcomes
  import opened CommandStore
  import opened Protocol
  import opened ProtocolInvariant
  import opened LinkConservation

  type World = map<Target, Local>

  // Process rows are numbered globally, so an allocation is new to every command.
  ghost predicate NewEverywhere(w: World, step: Step) {
    step.Progress? && (step.choice.Fresh? || step.choice.FreshThenInterrupt?) ==>
      forall t :: t in w ==> step.choice.pid !in w[t].rows.ptys
  }

  ghost predicate CommandSteps(w: World, t: Target, step: Step, w': World) {
    && t in w && Enabled(w[t], step) && NewEverywhere(w, step)
    && w' == w[t := Apply(w[t], step)]
  }

  // The runtime process itself dies: every operation in flight is cut off at once.
  function CrashAll(w: World): World {
    map t | t in w :: Local(w[t].rows, Down)
  }

  ghost predicate WorldNext(w: World, w': World) {
    w' == CrashAll(w) || exists t, step :: CommandSteps(w, t, step, w')
  }

  ghost predicate WorldRun(run: seq<World>) {
    && |run| > 0
    && (forall t :: t in run[0] ==> run[0][t] == INITIAL)
    && (forall i :: 0 <= i < |run| - 1 ==> WorldNext(run[i], run[i + 1]))
  }

  ghost predicate Disjoint(w: World) {
    forall t, u, pid: Pid :: t in w && u in w && pid in w[t].rows.ptys && pid in w[u].rows.ptys ==> t == u
  }

  ghost predicate WorldInv(w: World) {
    Disjoint(w) && forall t :: t in w ==> Inv(w[t]) && Single(w[t])
  }

  // A step only ever adds the incarnation it allocates.
  lemma StepAllocates(l: Local, step: Step, pid: Pid)
    requires Enabled(l, step) && pid in Apply(l, step).rows.ptys
    ensures pid in l.rows.ptys
            || (step.Progress? && (step.choice.Fresh? || step.choice.FreshThenInterrupt?) && step.choice.pid == pid)
  {
    match step
    case Progress(choice) =>
      match l.pc {
        case Launching(at) => LaunchAllocates(l.rows, at, choice, pid);
        case Stopping(stop, at) => StopAllocatesNothing(l.rows, stop, at, choice);
        case Reconciling(at) => CleanupAllocatesNothing(l.rows, at, choice);
        case _ =>
      }
    case _ =>
  }

  lemma LaunchAllocates(r: Rows, at: LaunchPc, choice: Choice, pid: Pid)
    ensures pid in LaunchStep(r, at, choice).rows.ptys ==>
              pid in r.ptys || ((choice.Fresh? || choice.FreshThenInterrupt?) && choice.pid == pid)
  {
    if AroundMarker(at) {
      assert MarkStep(r, at, choice).rows.ptys == r.ptys || at.Allocating?;
    } else if AfterAllocation(at) {
      assert HandoffStep(r, at, choice).rows.ptys == r.ptys || at.Starting?;
    } else {
      assert PrepareStep(r, at, choice).rows.ptys == r.ptys;
    }
  }

  lemma StopAllocatesNothing(r: Rows, stop: StopRequest, at: StopPc, choice: Choice)
    ensures StopStep(r, stop, at, choice).rows.ptys.Keys == r.ptys.Keys
  {
    if StopReads(at) {
      assert StopReadStep(r, stop, at, choice).rows.ptys == r.ptys || at.StopTerminate?;
    } else {
      assert StopWriteStep(r, stop, at, choice).rows.ptys == r.ptys;
    }
  }

  lemma CleanupAllocatesNothing(r: Rows, at: CleanupPc, choice: Choice)
    ensures CleanupStep(r, at, choice).rows.ptys.Keys == r.ptys.Keys
  {
    assert CleanupStep(r, at, choice).rows.ptys == r.ptys || at.Cleaning?;
  }

  // To one command, a step of the whole system is a step of its own, or none.
  lemma EachCommandMoves(w: World, w': World, t: Target)
    requires WorldNext(w, w') && t in w
    ensures t in w' && (w'[t] == w[t] || Next(w[t], w'[t]))
  {
    if w' == CrashAll(w) {
      if w[t].pc != Down {
        assert Enabled(w[t], Crash) && Apply(w[t], Crash) == w'[t];
      }
    } else {
      var u, step :| CommandSteps(w, u, step, w');
      assert u == t ==> Enabled(w[t], step) && Apply(w[t], step) == w'[t];
    }
  }

  lemma NextKeepsInv(l: Local, l': Local)
    requires Inv(l) && Single(l) && Next(l, l')
    ensures Inv(l') && Single(l')
  {
    var step :| Enabled(l, step) && Apply(l, step) == l';
    StepKeepsInv(l, step);
    StepKeepsSingle(l, step);
  }

  lemma StaysDisjoint(w: World, w': World)
    requires Disjoint(w) && WorldNext(w, w')
    ensures Disjoint(w')
  {
    if w' != CrashAll(w) {
      var t, step :| CommandSteps(w, t, step, w');
      forall u, v, pid: Pid | u in w' && v in w' && pid in w'[u].rows.ptys && pid in w'[v].rows.ptys
        ensures u == v
      {
        if pid in w'[t].rows.ptys {
          StepAllocates(w[t], step, pid);
        }
      }
    }
  }

  lemma WorldStepKeepsInv(w: World, w': World)
    requires WorldInv(w) && WorldNext(w, w')
    ensures WorldInv(w')
  {
    StaysDisjoint(w, w');
    forall t | t in w'
      ensures Inv(w'[t]) && Single(w'[t])
    {
      EachCommandMoves(w, w', t);
      if w'[t] != w[t] {
        NextKeepsInv(w[t], w'[t]);
      }
    }
  }

  lemma {:induction false} RunKeepsInv(run: seq<World>, i: nat)
    requires WorldRun(run) && i < |run|
    ensures WorldInv(run[i])
  {
    if i == 0 {
      InitialWorldInv(run[0]);
    } else {
      RunKeepsInv(run, i - 1);
      assert WorldNext(run[i - 1], run[i - 1 + 1]);
      WorldStepKeepsInv(run[i - 1], run[i]);
    }
  }

  lemma InitialWorldInv(w: World)
    requires forall t :: t in w ==> w[t] == INITIAL
    ensures WorldInv(w)
  {
    InitiallySingle();
  }

  /** In every reachable state a live process is named by the newest run of a command that
      is `Running`, and that run is still open. */
  lemma LiveProcessIsOwned(run: seq<World>, i: nat, t: Target, pid: Pid)
    requires WorldRun(run) && i < |run| && t in run[i] && Live(run[i][t].rows.ptys, pid)
    ensures var c := run[i][t].rows.command;
            IsRunning(c) && Newest(c.runs).Some? && NewestIs(c, Newest(c.runs).value, Open, Some(pid))
  {
    RunKeepsInv(run, i);
  }

  /** A command never has two live processes, and no other command refers to a live one. */
  lemma LiveProcessIsExclusive(run: seq<World>, i: nat, t: Target, pid: Pid)
    requires WorldRun(run) && i < |run| && t in run[i] && Live(run[i][t].rows.ptys, pid)
    ensures forall other: Pid :: Live(run[i][t].rows.ptys, other) ==> other == pid
    ensures forall u :: u in run[i] && u != t ==> !HasLink(run[i][u].rows.command, pid)
  {
    RunKeepsInv(run, i);
  }

  /** In every reachable state a command names at most one incarnation, finished ones included. */
  lemma CommandNamesOneIncarnation(run: seq<World>, i: nat, t: Target, p: Pid, q: Pid)
    requires WorldRun(run) && i < |run| && t in run[i]
    requires HasLink(run[i][t].rows.command, p) && HasLink(run[i][t].rows.command, q)
    ensures p == q
  {
    RunKeepsInv(run, i);
  }

  /** Link conservation, for any incarnation, whether it lives, ended or cannot be read: no transaction of
      any flow (cleanup, re-adoption, failed launch, stop, event) removes the durable link to it, except a
      launch's prune, and that one only when no process lives behind it. */
  lemma LinkSurvives(run: seq<World>, i: nat, t: Target, pid: Pid)
    requires WorldRun(run) && i + 1 < |run| && t in run[i] && HasLink(run[i][t].rows.command, pid)
    ensures t in run[i + 1]
    ensures HasLink(run[i + 1][t].rows.command, pid)
            || (!Live(run[i][t].rows.ptys, pid)
                && exists step :: CommandSteps(run[i], t, step, run[i + 1]) && CommitsPrune(run[i][t], step))
  {
    RunKeepsInv(run, i);
    var w, w' := run[i], run[i + 1];
    if w' != CrashAll(w) {
      var u, step :| CommandSteps(w, u, step, w');
      if u == t {
        LinksChangeExactly(w[t], step, pid);
      }
    }
  }

  /** While a process lives, then, the link to it is there. */
  lemma LiveLinkSurvives(run: seq<World>, i: nat, t: Target, pid: Pid)
    requires WorldRun(run) && i + 1 < |run| && t in run[i] && t in run[i + 1]
    requires Live(run[i + 1][t].rows.ptys, pid)
    ensures HasLink(run[i + 1][t].rows.command, pid)
    ensures pid in run[i][t].rows.ptys && HasLink(run[i][t].rows.command, pid)
  {
    RunKeepsInv(run, i);
    EachCommandMoves(run[i], run[i + 1], t);
    if run[i + 1][t] != run[i][t] {
      LiveWasLinked(run[i][t], run[i + 1][t], pid);
    }
  }

  // A process can only come to life from an incarnation that was linked beforehand.
  lemma LiveWasLinked(l: Local, l': Local, pid: Pid)
    requires Inv(l) && Single(l) && Next(l, l') && Live(l'.rows.ptys, pid)
    ensures pid in l.rows.ptys && HasLink(l.rows.command, pid) && HasLink(l'.rows.command, pid)
  {
    var step :| Enabled(l, step) && Apply(l, step) == l';
    StepKeepsInv(l, step);
    LinksChangeExactly(l, step, pid);
  }
}
