/** What a POSIX shell would do with a pipeline, and when `run` does the same. A command sequence is
    read as in sections 2.9.2 and 2.9.3 of the POSIX Shell Command Language: pipelines are joined
    into a list by `&&` and `||`, which have equal precedence and associate to the left. A directory
    change succeeds; it lasts if it is a whole pipeline by itself and is reached. */
module ShellPosix {
  import opened Options
  import opened Sequences
  import opened ShellRun
  import opened ShellSyntax

  // ----- Lists of pipelines -----

  /** A command or a directory change with its position. */
  datatype Part = Part(pos: nat, node: Node)

  datatype AndOrList =
    | One(pipeline: seq<Part>)
    | Join(left: AndOrList, op: Connective, pipeline: seq<Part>)

  function WithPipeline(left: Option<(AndOrList, Connective)>, pipeline: seq<Part>): AndOrList {
    if left.None? then One(pipeline) else Join(left.value.0, left.value.1, pipeline)
  }

  /** The list whose first pipelines and operator are `left`, and whose next pipeline continues `parts`. */
  function Read(left: Option<(AndOrList, Connective)>, parts: seq<Part>, nodes: seq<Node>, pos: nat): AndOrList
    requires WellFormed(nodes)
    decreases |nodes|
  {
    var more := parts + [Part(pos, nodes[0])];
    if |nodes| > 1 && nodes[1].Pipe? then Read(left, more, nodes[2..], pos + 2)
    else
      var list := WithPipeline(left, more);
      if |nodes| == 1 then list
      else Read(Some((list, ConnectiveOf(nodes[1]))), [], nodes[2..], pos + 2)
  }

  function ListOf(nodes: seq<Node>): AndOrList
    requires WellFormed(nodes)
  {
    Read(None, [], nodes, 0)
  }

  // ----- Meaning -----

  function PosixTarget(r: Redirect, cwd: string): Target {
    match r
    case Inherit => ToParent
    case ToFile(name) => IntoFile(JoinDir(cwd, name))
    case ToPipe => IntoPipe
    case ToStdout => WithStdout
  }

  /** The command's own redirections come after the pipe, and files are opened where it runs. */
  function PosixProcess(cmd: Node, pos: nat, cwd: string, piped: bool): Process
    requires cmd.Command?
  {
    Process(pos, cmd.argv,
      if cmd.stdin.Some? then FromFile(JoinDir(cwd, cmd.stdin.value)) else if piped then FromPrevious else Inherited,
      PosixTarget(cmd.stdout, cwd), PosixTarget(cmd.stderr, cwd), cmd.envVars, cwd)
  }

  /** A directory change is no process. */
  function PartProcesses(part: Part, cwd: string, piped: bool): seq<Process> {
    if part.node.Command? then [PosixProcess(part.node, part.pos, cwd, piped)] else []
  }

  function PipelineProcesses(parts: seq<Part>, cwd: string): seq<Process> {
    if parts == [] then []
    else
      var n := |parts| - 1;
      PipelineProcesses(parts[..n], cwd) + PartProcesses(parts[n], cwd, n > 0)
  }

  /** The shell after a list: its status, its directory, and the processes started. */
  datatype Shell = Shell(status: int, cwd: string, processes: seq<Process>)

  function PartStatus(part: Part, code: Code): int {
    if part.node.Chdir? then 0 else code(part.pos)
  }

  /** A directory change without an operand goes to the home directory. */
  function Change(node: Node, cwd: string, home: string): string {
    if !node.Chdir? then cwd else JoinDir(cwd, if node.dir.Some? then node.dir.value else home)
  }

  /** The status of a pipeline is that of its last part. In a pipeline of several parts each has a
      shell of its own, so that a directory change there is lost. */
  function EvalPipeline(parts: seq<Part>, cwd: string, home: string, code: Code): Shell
    requires parts != []
  {
    Shell(PartStatus(parts[|parts| - 1], code),
      if |parts| == 1 then Change(parts[0].node, cwd, home) else cwd,
      PipelineProcesses(parts, cwd))
  }

  ghost predicate ValidList(list: AndOrList) {
    list.pipeline != [] && (list.Join? ==> ValidList(list.left))
  }

  /** The pipeline after an operator runs if the status before it says so. */
  ghost function Eval(list: AndOrList, home: string, code: Code): Shell
    requires ValidList(list)
  {
    match list
    case One(pipeline) => EvalPipeline(pipeline, ".", home, code)
    case Join(left, op, pipeline) =>
      var before := Eval(left, home, code);
      if Proceeds(op, before.status) then
        var r := EvalPipeline(pipeline, before.cwd, home, code);
        r.(processes := before.processes + r.processes)
      else before
  }

  lemma {:induction false} ReadIsValid(left: Option<(AndOrList, Connective)>, parts: seq<Part>, nodes: seq<Node>,
        pos: nat)
    requires WellFormed(nodes) && (left.Some? ==> ValidList(left.value.0))
    ensures ValidList(Read(left, parts, nodes, pos))
    decreases |nodes|
  {
    var more := parts + [Part(pos, nodes[0])];
    if |nodes| > 1 && nodes[1].Pipe? {
      ReadIsValid(left, more, nodes[2..], pos + 2);
    } else if |nodes| > 1 {
      ReadIsValid(Some((WithPipeline(left, more), ConnectiveOf(nodes[1]))), [], nodes[2..], pos + 2);
    }
  }

  /** What a POSIX shell makes of the nodes. */
  ghost function Posix(nodes: seq<Node>, home: string, code: Code): Outcome
    requires WellFormed(nodes)
  {
    ReadIsValid(None, [], nodes, 0);
    var shell := Eval(ListOf(nodes), home, code);
    Outcome(Some(shell.status), shell.processes, 0)
  }

  // ----- The same from left to right -----

  /** The node scanned, and the status and the directory after it. */
  ghost function ScanOne(nodes: seq<Node>, pos: nat, cwd: string, piped: bool, go: bool, status: int,
        home: string, code: Code): Shell
    requires nodes != []
  {
    var part := Part(pos, nodes[0]);
    Shell(if go then PartStatus(part, code) else status,
      if go && !piped then Change(nodes[0], cwd, home) else cwd,
      if go then PartProcesses(part, cwd, piped) else [])
  }

  /** From the node at position `pos` on, in a pipeline that is run if `go`, with other parts before
      the node if `piped`; `status` is that of the list before this pipeline. */
  ghost function PosixFrom(nodes: seq<Node>, pos: nat, cwd: string, piped: bool, go: bool, status: int,
        home: string, code: Code): (r: Outcome)
    requires WellFormed(nodes)
    ensures r.status.Some? && r.left == 0
    decreases |nodes|
  {
    var one := ScanOne(nodes, pos, cwd, piped, go, status, home, code);
    if |nodes| == 1 then Outcome(Some(one.status), one.processes, 0)
    else if nodes[1].Pipe? then
      After(one.processes, PosixFrom(nodes[2..], pos + 2, cwd, true, go, status, home, code))
    else
      var goes := Proceeds(ConnectiveOf(nodes[1]), one.status);
      After(one.processes, PosixFrom(nodes[2..], pos + 2, one.cwd, false, goes, one.status, home, code))
  }

  lemma PipelineAppend(parts: seq<Part>, part: Part, cwd: string)
    ensures PipelineProcesses(parts + [part], cwd)
         == PipelineProcesses(parts, cwd) + PartProcesses(part, cwd, parts != [])
  {
    assert (parts + [part])[..|parts|] == parts;
  }

  /** The list evaluated so far: in a pipeline of its own before the first. */
  ghost function Before(left: Option<(AndOrList, Connective)>, home: string, code: Code): Shell
    requires left.Some? ==> ValidList(left.value.0)
  {
    if left.None? then Shell(0, ".", []) else Eval(left.value.0, home, code)
  }

  ghost predicate Runs(left: Option<(AndOrList, Connective)>, home: string, code: Code)
    requires left.Some? ==> ValidList(left.value.0)
  {
    left.None? || Proceeds(left.value.1, Before(left, home, code).status)
  }

  ghost function OutcomeOf(shell: Shell): Outcome {
    Outcome(Some(shell.status), shell.processes, 0)
  }

  ghost function StartedBy(left: Option<(AndOrList, Connective)>, parts: seq<Part>, home: string,
        code: Code): seq<Process>
    requires left.Some? ==> ValidList(left.value.0)
  {
    var before := Before(left, home, code);
    before.processes + (if Runs(left, home, code) then PipelineProcesses(parts, before.cwd) else [])
  }

  lemma StartedByMore(left: Option<(AndOrList, Connective)>, parts: seq<Part>, part: Part, home: string, code: Code)
    requires left.Some? ==> ValidList(left.value.0)
    ensures StartedBy(left, parts + [part], home, code)
         == StartedBy(left, parts, home, code)
          + (if Runs(left, home, code) then PartProcesses(part, Before(left, home, code).cwd, parts != []) else [])
  {
    var before := Before(left, home, code);
    PipelineAppend(parts, part, before.cwd);
    if Runs(left, home, code) {
      Regroup(before.processes, PipelineProcesses(parts, before.cwd), PartProcesses(part, before.cwd, parts != []));
    } else {
      assert before.processes + [] + [] == before.processes + [];
    }
    hide PipelineProcesses, PartProcesses, Before, Runs;
  }

  /** Evaluating a list with one more pipeline, whose last part is `part`. */
  lemma EvalExtended(left: Option<(AndOrList, Connective)>, parts: seq<Part>, part: Part, home: string, code: Code)
    requires left.Some? ==> ValidList(left.value.0)
    ensures ValidList(WithPipeline(left, parts + [part]))
    ensures var before, go := Before(left, home, code), Runs(left, home, code);
      Eval(WithPipeline(left, parts + [part]), home, code)
      == Shell(if go then PartStatus(part, code) else before.status,
           if go && parts == [] then Change(part.node, before.cwd, home) else before.cwd,
           StartedBy(left, parts + [part], home, code))
  {
    var before := Before(left, home, code);
    var ps := PipelineProcesses(parts + [part], ".");
    assert left.None? ==> before.processes + ps == ps;
    assert before.processes + [] == before.processes;
    hide PipelineProcesses, PartStatus, Change;
  }

  lemma NothingMore(left: Option<(AndOrList, Connective)>, home: string, code: Code)
    requires left.Some? ==> ValidList(left.value.0)
    ensures StartedBy(left, [], home, code) == Before(left, home, code).processes
  {
    var before := Before(left, home, code);
    assert before.processes + [] == before.processes;
  }

  /** The list evaluated so far, with the node scanned at its end. */
  lemma ScanExtends(left: Option<(AndOrList, Connective)>, parts: seq<Part>, nodes: seq<Node>, pos: nat, home: string,
        code: Code)
    requires nodes != [] && (left.Some? ==> ValidList(left.value.0))
    ensures var more := parts + [Part(pos, nodes[0])];
      var before, go := Before(left, home, code), Runs(left, home, code);
      var one := ScanOne(nodes, pos, before.cwd, parts != [], go, before.status, home, code);
      && ValidList(WithPipeline(left, more))
      && StartedBy(left, more, home, code) == StartedBy(left, parts, home, code) + one.processes
      && Eval(WithPipeline(left, more), home, code) == Shell(one.status, one.cwd, StartedBy(left, more, home, code))
  {
    var part := Part(pos, nodes[0]);
    StartedByMore(left, parts, part, home, code);
    EvalExtended(left, parts, part, home, code);
    hide Eval, StartedBy, Before, Runs, ValidList, PartProcesses, PartStatus, Change;
  }

  lemma BeforeNext(list: AndOrList, op: Connective, home: string, code: Code)
    requires ValidList(list)
    ensures var next, shell := Some((list, op)), Eval(list, home, code);
      && Before(next, home, code) == shell && (Runs(next, home, code) <==> Proceeds(op, shell.status))
      && StartedBy(next, [], home, code) == shell.processes
  {
    NothingMore(Some((list, op)), home, code);
  }

  /** Evaluating the list that is read comes to going through the nodes from left to right. */
  lemma {:induction false} ReadIsScanned(left: Option<(AndOrList, Connective)>, parts: seq<Part>, nodes: seq<Node>,
        pos: nat, home: string, code: Code)
    requires WellFormed(nodes) && (left.Some? ==> ValidList(left.value.0))
    ensures ValidList(Read(left, parts, nodes, pos))
    ensures var before := Before(left, home, code);
      OutcomeOf(Eval(Read(left, parts, nodes, pos), home, code))
      == After(StartedBy(left, parts, home, code),
           PosixFrom(nodes, pos, before.cwd, parts != [], Runs(left, home, code), before.status, home, code))
    decreases |nodes|
  {
    var before, go := Before(left, home, code), Runs(left, home, code);
    var more := parts + [Part(pos, nodes[0])];
    hide Before, Runs, StartedBy, Eval, ValidList, ScanOne, WithPipeline, ConnectiveOf, Proceeds;
    var one := ScanOne(nodes, pos, before.cwd, parts != [], go, before.status, home, code);
    var started := StartedBy(left, parts, home, code);
    ScanExtends(left, parts, nodes, pos, home, code);
    if |nodes| > 1 && nodes[1].Pipe? {
      ReadIsScanned(left, more, nodes[2..], pos + 2, home, code);
      AfterTwice(started, one.processes,
        PosixFrom(nodes[2..], pos + 2, before.cwd, true, go, before.status, home, code));
    } else if |nodes| > 1 {
      var list, op := WithPipeline(left, more), ConnectiveOf(nodes[1]);
      BeforeNext(list, op, home, code);
      ReadIsScanned(Some((list, op)), [], nodes[2..], pos + 2, home, code);
      AfterTwice(started, one.processes,
        PosixFrom(nodes[2..], pos + 2, one.cwd, false, Proceeds(op, one.status), one.status, home, code));
    }
  }

  lemma PosixIsScanned(nodes: seq<Node>, home: string, code: Code)
    requires WellFormed(nodes)
    ensures Posix(nodes, home, code) == PosixFrom(nodes, 0, ".", false, true, 0, home, code)
  {
    ReadIsScanned(None, [], nodes, 0, home, code);
    assert StartedBy(None, [], home, code) == [];
    var r := PosixFrom(nodes, 0, ".", false, true, 0, home, code);
    assert [] + r.processes == r.processes;
    hide PosixFrom, Eval, Read, StartedBy, ValidList, WellFormed;
  }
}
