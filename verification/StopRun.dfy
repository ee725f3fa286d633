/** One stop under given circumstances, as the path it takes through the protocol. */
module StopRun {
  import opened Outcomes
  import opened Protocol
  import opened ProtocolInvariant
  import opened LaunchRun

  // How each call of the stop turns out, and the process facts that land just before it.
  datatype StopCircumstances = StopCircumstances(signal: StopPc -> Signal, moves: StopPc -> seq<Step>)

  // Terminating a process reports what it found; failing to is the one fault a stop survives.
  function StopChoiceAt(ptys: map<Pid, Pty>, at: StopPc, circ: StopCircumstances): Choice {
    match at
    case StopTerminate(pid) =>
      (match circ.signal(at)
       case Commits => if Live(ptys, pid) then TerminatedLive else AlreadyAbsent
       case Faults => ControlFails
       case _ => Interrupt)
    case _ => SignalChoice(circ.signal(at))
  }

  ghost function StopAfter(r: Rows, stop: StopRequest, at: StopPc, circ: StopCircumstances): Local {
    var l := Settled(Stop(r, stop, at), circ.moves(at));
    StopStep(l.rows, stop, at, StopChoiceAt(l.rows.ptys, at, circ))
  }

  function StopDistance(pc: Pc): nat {
    if !pc.Stopping? then 0 else
    match pc.at
    case StopRead => 7
    case StopResolve => 6
    case StopReadopt(_) => 5
    case StopTerminate(_) => 4
    case StopReturned => 1
    case _ => 2
  }

  lemma EveryStopCallIsAStep(r: Rows, stop: StopRequest, at: StopPc, circ: StopCircumstances)
    ensures StopEnabled(r, at, StopChoiceAt(r.ptys, at, circ))
    ensures StopDistance(StopAfter(r, stop, at, circ).pc) < StopDistance(Stopping(stop, at))
  {
  }

  // The durable states a stop goes through, until its lock is released or a restart launches.
  ghost function StopPath(l: Local, circ: StopCircumstances): seq<Local>
    decreases StopDistance(l.pc)
  {
    if !l.pc.Stopping? then [l]
    else
      EveryStopCallIsAStep(l.rows, l.pc.stop, l.pc.at, circ);
      [l] + StopPath(StopAfter(l.rows, l.pc.stop, l.pc.at, circ), circ)
  }

  lemma StopAfterKeepsInv(r: Rows, stop: StopRequest, at: StopPc, circ: StopCircumstances)
    requires Inv(Stop(r, stop, at))
    ensures Inv(StopAfter(r, stop, at, circ))
  {
    var settled := Settled(Stop(r, stop, at), circ.moves(at));
    SettleOnlyEnds(Stop(r, stop, at), circ.moves(at));
    EveryStopCallIsAStep(settled.rows, stop, at, circ);
    ProgressKeepsInv(settled, StopChoiceAt(settled.rows.ptys, at, circ));
  }

  /** Every durable state of a stop satisfies the ownership invariant, under any circumstances. */
  lemma {:induction false} StopPathKeepsInv(l: Local, circ: StopCircumstances)
    requires Inv(l)
    ensures forall i :: 0 <= i < |StopPath(l, circ)| ==> Inv(StopPath(l, circ)[i])
    decreases StopDistance(l.pc)
  {
    if l.pc.Stopping? {
      StopAfterKeepsInv(l.rows, l.pc.stop, l.pc.at, circ);
      EveryStopCallIsAStep(l.rows, l.pc.stop, l.pc.at, circ);
      StopPathKeepsInv(StopAfter(l.rows, l.pc.stop, l.pc.at, circ), circ);
    }
  }
}
