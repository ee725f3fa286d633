/**
 One command's durable rows, and the transactions that change them
 (apps/runtime/src/commands/repository.ts). Each function is one atomic transaction.
 */
module CommandStore {
  import opened Optional
  import opened Outcomes

  type Ports = seq<nat>

  // One command, named the way its lock and its rows are keyed.
  datatype Target = Target(worktree: nat, name: string)

  datatype StateRow = StateRow(status: CommandStatus, pointer: Option<Pid>, ports: Option<Ports>)

  datatype RunRow = RunRow(status: RunStatus, link: Option<Pid>, diagnostic: Option<DiagnosticReason>)

  // Runs are keyed by their auto-incremented id, so the newest run is the largest key.
  datatype Command = Command(state: Option<StateRow>, runs: map<RunId, RunRow>)

  const EMPTY_COMMAND := Command(None, map[])

  // ----- Reads -----

  ghost predicate IsNewest(runs: map<RunId, RunRow>, id: RunId) {
    id in runs && forall other :: other in runs ==> other <= id
  }

  lemma NewestExists(ids: set<RunId>)
    requires ids != {}
    ensures exists id :: id in ids && forall other :: other in ids ==> other <= id
  {
    var some :| some in ids;
    var rest := ids - {some};
    if rest == {} {
      assert forall other :: other in ids ==> other in rest || other == some;
    } else {
      NewestExists(rest);
      var top :| top in rest && forall other :: other in rest ==> other <= top;
      var id := if top < some then some else top;
      forall other | other in ids ensures other <= id {
        assert other == some || other in rest;
      }
    }
  }

  ghost function Newest(runs: map<RunId, RunRow>): (id: Option<RunId>)
    ensures id.None? <==> runs == map[]
    ensures id.Some? ==> IsNewest(runs, id.value)
  {
    if runs == map[] then None
    else
      assert runs.Keys != {} by { var k :| k in runs; assert k in runs.Keys; }
      NewestExists(runs.Keys);
      var id :| id in runs.Keys && forall other :: other in runs.Keys ==> other <= id;
      Some(id)
  }

  ghost function Linked(runs: map<RunId, RunRow>, pid: Pid): map<RunId, RunRow> {
    map id | id in runs && runs[id].link == Some(pid) :: runs[id]
  }

  // The newest run linked to one incarnation.
  ghost function NewestLinked(runs: map<RunId, RunRow>, pid: Pid): (id: Option<RunId>)
    ensures id.None? <==> forall other :: other in runs ==> runs[other].link != Some(pid)
    ensures id.Some? ==>
              && id.value in runs && runs[id.value].link == Some(pid)
              && forall other :: other in runs && runs[other].link == Some(pid) ==> other <= id.value
  {
    var matching := Linked(runs, pid);
    var id := Newest(matching);
    assert id.None? ==> forall other :: other in runs && runs[other].link == Some(pid) ==> other in matching;
    assert id.Some? ==> forall other :: other in runs && runs[other].link == Some(pid) ==> other in matching;
    id
  }

  ghost predicate Distinct<T>(s: seq<T>) {
    forall i, j :: 0 <= i < j < |s| ==> s[i] != s[j]
  }

  predicate IsRunning(c: Command) {
    c.state.Some? && c.state.value.status == Running
  }

  function Pointer(c: Command): Option<Pid> {
    if c.state.Some? then c.state.value.pointer else None
  }

  function StatusOf(c: Command): CommandStatus {
    if c.state.Some? then c.state.value.status else Idle
  }

  function PortsOf(c: Command): Option<Ports> {
    if c.state.Some? then c.state.value.ports else None
  }

  ghost predicate HasLink(c: Command, pid: Pid) {
    Pointer(c) == Some(pid) || exists id :: id in c.runs && c.runs[id].link == Some(pid)
  }

  ghost function NewestLink(c: Command): Option<Pid> {
    var id := Newest(c.runs);
    if id.Some? then c.runs[id.value].link else None
  }

  ghost predicate NewestRunIs(c: Command, row: RunRow) {
    Newest(c.runs).Some? && c.runs[Newest(c.runs).value] == row
  }

  ghost predicate LinksOf(c: Command, s: seq<Pid>) {
    && Distinct(s)
    && forall pid: Pid :: pid in s <==> HasLink(c, pid)
  }

  // ----- Transactions -----

  function WriteState(c: Command, status: CommandStatus, pointer: Option<Pid>): Command {
    c.(state := Some(StateRow(status, pointer, PortsOf(c))))
  }

  // Says that a launch is under way, and with which ports.
  function MarkLaunch(c: Command, ports: Ports): Command {
    c.(state := Some(StateRow(Running, None, Some(ports))))
  }

  function CreateRun(c: Command, id: RunId, status: RunStatus, diagnostic: Option<DiagnosticReason>): Command {
    c.(runs := c.runs[id := RunRow(status, None, diagnostic)])
  }

  function LinkRun(c: Command, id: RunId, pid: Pid): Command {
    if id in c.runs then c.(runs := c.runs[id := c.runs[id].(link := Some(pid))]) else c
  }

  // Unconditional: the caller is responsible for naming a run that is still open.
  function CompleteRun(c: Command, id: RunId, status: RunStatus, diagnostic: Option<DiagnosticReason>): Command {
    if id in c.runs
    then c.(runs := c.runs[id := c.runs[id].(status := status, diagnostic := diagnostic)])
    else c
  }

  // The run half of both finalizers: only an open run is completed.
  function CloseRun(c: Command, id: RunId, outcome: Outcome): Command {
    if id in c.runs && c.runs[id].status == Open
    then CompleteRun(c, id, outcome.runStatus, outcome.diagnostic)
    else c
  }

  ghost function FinalizeByPty(c: Command, pid: Pid, outcome: Outcome): Command {
    var id := NewestLinked(c.runs, pid);
    var closed := if id.Some? then CloseRun(c, id.value, outcome) else c;
    if Pointer(c) == Some(pid) then WriteState(closed, outcome.stateStatus, None) else closed
  }

  function FinalizeByRun(c: Command, id: RunId, outcome: Outcome): Command {
    var closed := CloseRun(c, id, outcome);
    if IsRunning(c) then WriteState(closed, outcome.stateStatus, None) else closed
  }

  // Bind the command to one incarnation: repoint the state, reopen and relink the newest run.
  ghost function Readopt(c: Command, pid: Pid, diagnostic: Option<DiagnosticReason>, nextId: RunId): Command {
    var owned := WriteState(c, Running, Some(pid));
    var id := Newest(c.runs);
    if id.Some? then
      var row := c.runs[id.value];
      owned.(runs := c.runs[id.value :=
                            RunRow(Open, Some(pid), if diagnostic.Some? then diagnostic else row.diagnostic)])
    else
      owned.(runs := c.runs[nextId := RunRow(Open, Some(pid), diagnostic)])
  }

  function Newer(ids: set<RunId>, id: RunId): set<RunId> {
    set other | other in ids && id < other
  }

  // Keep the newest runs: those with fewer than `keep` newer ones.
  function Prune(c: Command, keep: nat): Command {
    c.(runs := map id | id in c.runs && |Newer(c.runs.Keys, id)| < keep :: c.runs[id])
  }

  const RUNS_TO_RETAIN: nat := 1

  /** Keeping one run keeps exactly the newest, so pruning drops the links of superseded runs only. */
  lemma PruneKeepsNewest(c: Command)
    ensures forall id :: id in Prune(c, RUNS_TO_RETAIN).runs <==> Newest(c.runs) == Some(id)
    ensures Newest(Prune(c, RUNS_TO_RETAIN).runs) == Newest(c.runs)
    ensures NewestLink(Prune(c, RUNS_TO_RETAIN)) == NewestLink(c)
  {
    forall id | id in c.runs
      ensures |Newer(c.runs.Keys, id)| < RUNS_TO_RETAIN <==> Newest(c.runs) == Some(id)
    {
      var newer := Newer(c.runs.Keys, id);
      if Newest(c.runs) == Some(id) {
        assert newer == {};
      } else {
        assert Newest(c.runs).value in newer;
      }
    }
  }
}
