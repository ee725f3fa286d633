/** One launch under given circumstances, as the path it takes through the protocol. */
module LaunchRun {
  import opened Outcomes
  import opened CommandStore
  import opened Protocol
  import opened ProtocolInvariant

  // How the call at one point of the launch turns out.
  datatype Signal = Commits | Faults | Interrupts | CommitsThenInterrupts

  // What configuration, working directory, ports and environment files make of the launch.
  datatype Preparation = Refused(reason: DiagnosticReason) | Ready(ports: Ports)

  // Everything outside the launch flow that decides which path one launch takes. `moves` are the
  // process facts that land just before the call at each point.
  datatype Circumstances = Circumstances(
    signal: LaunchPc -> Signal,
    moves: LaunchPc -> seq<Step>,
    preparation: Preparation,
    pid: Pid,
    alive: bool)

  function SignalChoice(signal: Signal): Choice {
    match signal
    case Commits => Ok
    case Faults => Fault
    case Interrupts => Interrupt
    case CommitsThenInterrupts => DoneThenInterrupt
  }

  function ChoiceAt(ptys: map<Pid, Pty>, at: LaunchPc, circ: Circumstances): Choice {
    var signal := circ.signal(at);
    match at
    case Preparing =>
      (match signal
       case Commits => if circ.preparation.Refused? then PrepareFails(circ.preparation.reason)
                       else Resolved(circ.preparation.ports)
       case Faults => Fault
       case _ => Interrupt)
    case Allocating(_) =>
      if signal == Interrupts then Interrupt
      else if signal == Faults || circ.pid in ptys then Fault
      else if signal == Commits then Fresh(circ.pid) else FreshThenInterrupt(circ.pid)
    case Starting(_, _) =>
      // A start that fails is no fault of the call: the process row says so.
      if signal == Interrupts then Interrupt
      else if signal == CommitsThenInterrupts then StartedThenInterrupt(circ.alive) else Started(circ.alive)
    case Recovering(_, _) => if signal == Faults then Fault else Ok
    case Installing(_, _, true) => if signal == Faults then Fault else Ok
    case Converging(_, _, _, true) => if signal == Faults then Fault else Ok
    case _ => SignalChoice(signal)
  }

  // The process facts among `moves` that can happen, in order.
  function Settle(ptys: map<Pid, Pty>, pc: Pc, moves: seq<Step>): map<Pid, Pty>
    decreases |moves|
  {
    if moves == [] then ptys else Settle(Move(ptys, pc, moves[0]), pc, moves[1..])
  }

  function Move(ptys: map<Pid, Pty>, pc: Pc, move: Step): map<Pid, Pty> {
    match move
    case ProcessExits(pid) => if Live(ptys, pid) then ptys[pid := ptys[pid].(process := Dead)] else ptys
    case RowEnds(pid, facts) =>
      if pid in ptys && ptys[pid].row == Pending && !Live(ptys, pid) && !Reserved(pc, pid)
      then ptys[pid := ptys[pid].(row := Ended(facts))] else ptys
    case _ => ptys
  }

  ghost function Settled(l: Local, moves: seq<Step>): Local {
    l.(rows := l.rows.(ptys := Settle(l.rows.ptys, l.pc, moves)))
  }

  predicate NoExitOf(moves: seq<Step>, pid: Pid) {
    forall i :: 0 <= i < |moves| ==> moves[i] != ProcessExits(pid)
  }

  predicate NoEndOf(moves: seq<Step>, pid: Pid) {
    forall i :: 0 <= i < |moves| ==> !(moves[i].RowEnds? && moves[i].pid == pid)
  }

  // What process facts can and cannot do to one incarnation.
  lemma {:induction false} SettleKeeps(ptys: map<Pid, Pty>, pc: Pc, moves: seq<Step>, pid: Pid)
    ensures pid in Settle(ptys, pc, moves) <==> pid in ptys
    ensures HasEnded(ptys, pid) ==> Settle(ptys, pc, moves)[pid].row == ptys[pid].row
    ensures pid in ptys && NoEndOf(moves, pid) ==> Settle(ptys, pc, moves)[pid].row == ptys[pid].row
    ensures pid in ptys && NoExitOf(moves, pid) ==> Settle(ptys, pc, moves)[pid].process == ptys[pid].process
    ensures !Live(ptys, pid) ==> !Live(Settle(ptys, pc, moves), pid)
    ensures Live(ptys, pid) && NoExitOf(moves, pid) ==> Settle(ptys, pc, moves)[pid] == ptys[pid]
    decreases |moves|
  {
    if moves != [] {
      assert NoExitOf(moves, pid) ==> moves[0] != ProcessExits(pid) && NoExitOf(moves[1..], pid);
      assert NoEndOf(moves, pid) ==> !(moves[0].RowEnds? && moves[0].pid == pid) && NoEndOf(moves[1..], pid);
      SettleKeeps(Move(ptys, pc, moves[0]), pc, moves[1..], pid);
    }
  }

  ghost function After(r: Rows, at: LaunchPc, circ: Circumstances): Local {
    var l := Settled(Launch(r, at), circ.moves(at));
    LaunchStep(l.rows, at, ChoiceAt(l.rows.ptys, at, circ))
  }

  // How many calls a launch can still make from here.
  function Distance(pc: Pc): nat {
    if !pc.Launching? then 0 else
    match pc.launch
    case LaunchCheck => 18
    case Preparing => 17
    case RecordingFailure(_) => 16
    case PruningFailure => 15
    case WritingFailure => 14
    case Creating(_) => 13
    case Pruning(_, _) => 12
    case Marking(_, _) => 11
    case Aborting(_) => 10
    case Allocating(_) => 9
    case Linking(_, _) => 8
    case Starting(_, _) => 7
    case Handoff(_, _) => 6
    case Installing(_, _, masked) => if masked then 2 else 5
    case Converging(_, _, _, masked) => if masked then 1 else 4
    case Recovering(_, _) => 3
  }

  lemma EveryCallIsAStep(r: Rows, at: LaunchPc, circ: Circumstances)
    ensures LaunchEnabled(r, at, ChoiceAt(r.ptys, at, circ))
    ensures Distance(After(r, at, circ).pc) < Distance(Launching(at))
  {
  }

  // The durable states a launch goes through, from this one to the release of its lock.
  ghost function Path(l: Local, circ: Circumstances): seq<Local>
    decreases Distance(l.pc)
  {
    if !l.pc.Launching? then [l]
    else
      EveryCallIsAStep(l.rows, l.pc.launch, circ);
      [l] + Path(After(l.rows, l.pc.launch, circ), circ)
  }

  lemma {:induction false} SettleOnlyEnds(l: Local, moves: seq<Step>)
    requires Inv(l)
    ensures Inv(Settled(l, moves))
    decreases |moves|
  {
    if moves == [] {
      assert Settled(l, moves) == l;
    } else {
      var step := moves[0];
      var l' := l.(rows := l.rows.(ptys := Move(l.rows.ptys, l.pc, step)));
      if (step.ProcessExits? || step.RowEnds?) && Enabled(l, step) {
        EnvironmentKeepsInv(l, step);
        assert Apply(l, step) == l';
      } else {
        assert l' == l;
      }
      SettleOnlyEnds(l', moves[1..]);
    }
  }

  lemma AfterKeepsInv(r: Rows, at: LaunchPc, circ: Circumstances)
    requires Inv(Launch(r, at))
    ensures Inv(After(r, at, circ))
    ensures After(r, at, circ).pc.Launching? || After(r, at, circ).pc == Unlocked
  {
    var settled := Settled(Launch(r, at), circ.moves(at));
    SettleOnlyEnds(Launch(r, at), circ.moves(at));
    EveryCallIsAStep(settled.rows, at, circ);
    ProgressKeepsInv(settled, ChoiceAt(settled.rows.ptys, at, circ));
  }

  /** Every durable state of a launch satisfies the ownership invariant, under any circumstances, and
      the launch ends with its lock released. */
  lemma {:induction false} PathKeepsInv(l: Local, circ: Circumstances)
    requires Inv(l) && (l.pc.Launching? || l.pc == Unlocked)
    ensures forall i :: 0 <= i < |Path(l, circ)| ==> Inv(Path(l, circ)[i])
    ensures |Path(l, circ)| > 0 && Path(l, circ)[|Path(l, circ)| - 1].pc == Unlocked
    decreases Distance(l.pc)
  {
    if l.pc.Launching? {
      AfterKeepsInv(l.rows, l.pc.launch, circ);
      EveryCallIsAStep(l.rows, l.pc.launch, circ);
      PathKeepsInv(After(l.rows, l.pc.launch, circ), circ);
    }
  }
}
