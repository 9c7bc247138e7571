/** Running a parsed pipeline. Exit statuses come from an oracle: `code(p)` is the status of the
    command at position `p` of the pipeline, should it be started. */
module ShellRun {
  import opened Options
  import opened Sequences
  import opened ShellSyntax

  type Code = nat -> int

  // ----- Processes -----

  /** A path looked up from a directory. */
  function JoinDir(cwd: string, dir: string): string {
    if dir != "" && dir[0] == '/' then dir
    else if cwd == "" || cwd[|cwd| - 1] == '/' then cwd + dir
    else cwd + "/" + dir
  }

  const NULL_DEVICE := "/dev/null"

  predicate IsDevNull(name: string) {
    name == "NUL:" || name == NULL_DEVICE
  }

  datatype Source = Inherited | FromFile(path: string) | FromPrevious

  datatype Target = ToParent | IntoFile(path: string) | IntoPipe | WithStdout

  /** What a started process was given. */
  datatype Process = Process(pos: nat, argv: seq<string>, stdin: Source, stdout: Target, stderr: Target,
    envVars: map<string, string>, cwd: string)

  /** Output files are opened from the directory that `run` itself was started in, wherever the
      command runs, and two names stand for the null device. */
  function OutPath(name: string): string {
    if IsDevNull(name) then NULL_DEVICE else JoinDir(".", name)
  }

  function TargetOf(r: Redirect): Target {
    match r
    case Inherit => ToParent
    case ToFile(name) => IntoFile(OutPath(name))
    case ToPipe => IntoPipe
    case ToStdout => WithStdout
  }

  /** The process that `run` starts for a command when `left` others of its pipe group are running:
      it reads from the last of these, whatever it redirects. */
  function Started(cmd: Node, pos: nat, cwd: string, left: nat): Process
    requires cmd.Command?
  {
    Process(pos, cmd.argv,
      if left > 0 then FromPrevious
      else if cmd.stdin.Some? then FromFile(JoinDir(".", cmd.stdin.value)) else Inherited,
      TargetOf(cmd.stdout), TargetOf(cmd.stderr), cmd.envVars, cwd)
  }

  // ----- Chains of pipe groups -----

  /** A command with its position in the pipeline and the directory it runs in. */
  datatype Stage = Stage(pos: nat, cmd: Node, cwd: string)

  type Group = seq<Stage>

  datatype Connective = ANDALSO | ORELSE

  /** Pipe groups joined by `&&` and `||`, in the order written. A directory change that comes last
      or names no directory breaks the chain, after the stages of its group before it. */
  datatype Chain = Only(group: Group) | Link(group: Group, op: Connective, rest: Chain) | Broken(group: Group)

  function ConnectiveOf(op: Node): Connective {
    if op.And? then ANDALSO else ORELSE
  }

  /** The chain of the nodes from position `pos` on, whose first group continues `group`. */
  function ChainOf(nodes: seq<Node>, pos: nat, cwd: string, group: Group): Chain
    requires WellFormed(nodes)
    decreases |nodes|
  {
    if nodes[0].Chdir? then
      if |nodes| == 1 || nodes[0].dir.None? then Broken(group)
      else ChainOf(nodes[2..], pos + 2, JoinDir(cwd, nodes[0].dir.value), group)
    else
      var longer := group + [Stage(pos, nodes[0], cwd)];
      if |nodes| == 1 then Only(longer)
      else if nodes[1].Pipe? then ChainOf(nodes[2..], pos + 2, cwd, longer)
      else Link(longer, ConnectiveOf(nodes[1]), ChainOf(nodes[2..], pos + 2, cwd, []))
  }

  // ----- Meaning of a chain -----

  predicate AllCommands(group: Group) {
    forall k :: 0 <= k < |group| ==> group[k].cmd.Command?
  }

  function StartedAll(group: Group): (ps: seq<Process>)
    requires AllCommands(group)
    ensures |ps| == |group|
  {
    seq(|group|, k requires 0 <= k < |group| => Started(group[k].cmd, group[k].pos, group[k].cwd, k))
  }

  ghost predicate CommandChain(c: Chain) {
    match c
    case Only(group) => group != [] && AllCommands(group)
    case Link(group, _, rest) => group != [] && AllCommands(group) && CommandChain(rest)
    case Broken(group) => AllCommands(group)
  }

  /** The status of a group is that of its last command. */
  function GroupStatus(group: Group, code: Code): int
    requires group != []
  {
    code(group[|group| - 1].pos)
  }

  predicate Proceeds(op: Connective, status: int) {
    match op
    case ANDALSO => status == 0
    case ORELSE => status != 0
  }

  /** No status after an error. Then the last `left` processes have not been waited for. */
  datatype Outcome = Outcome(status: Option<int>, processes: seq<Process>, left: nat)

  function After(ps: seq<Process>, r: Outcome): Outcome {
    r.(processes := ps + r.processes)
  }

  /** Right-nested: a group that stops the chain at its operator stops all that follows. */
  ghost function RightNested(c: Chain, code: Code): Outcome
    requires CommandChain(c)
  {
    match c
    case Only(group) => Outcome(Some(GroupStatus(group, code)), StartedAll(group), 0)
    case Broken(group) => Outcome(None, StartedAll(group), |group|)
    case Link(group, op, rest) =>
      var status := GroupStatus(group, code);
      if Proceeds(op, status) then After(StartedAll(group), RightNested(rest, code))
      else Outcome(Some(status), StartedAll(group), 0)
  }

  /** The meaning of the nodes from position `pos` on, node by node, with `left` stages of the
      current group already started. */
  ghost function RunFrom(nodes: seq<Node>, pos: nat, cwd: string, left: nat, code: Code): (r: Outcome)
    requires WellFormed(nodes)
    ensures r.status.Some? ==> r.left == 0
    decreases |nodes|
  {
    if nodes[0].Chdir? then
      if |nodes| == 1 || nodes[0].dir.None? then Outcome(None, [], left)
      else RunFrom(nodes[2..], pos + 2, JoinDir(cwd, nodes[0].dir.value), left, code)
    else
      var p := Started(nodes[0], pos, cwd, left);
      if |nodes| > 1 && nodes[1].Pipe? then After([p], RunFrom(nodes[2..], pos + 2, cwd, left + 1, code))
      else if |nodes| > 1 && Proceeds(ConnectiveOf(nodes[1]), code(pos)) then
        After([p], RunFrom(nodes[2..], pos + 2, cwd, 0, code))
      else Outcome(Some(code(pos)), [p], 0)
  }

  lemma StartedAllAppend(group: Group, st: Stage)
    requires AllCommands(group) && st.cmd.Command?
    ensures AllCommands(group + [st])
    ensures StartedAll(group + [st]) == StartedAll(group) + [Started(st.cmd, st.pos, st.cwd, |group|)]
  {
  }

  lemma AfterTwice(a: seq<Process>, b: seq<Process>, r: Outcome)
    ensures After(a, After(b, r)) == After(a + b, r)
  {
    Regroup(a, b, r.processes);
  }

  /** Node by node the run means the chain, right-nested. */
  lemma {:induction false} RunIsRightNested(nodes: seq<Node>, pos: nat, cwd: string, group: Group, code: Code)
    requires WellFormed(nodes) && AllCommands(group)
    ensures CommandChain(ChainOf(nodes, pos, cwd, group))
    ensures RightNested(ChainOf(nodes, pos, cwd, group), code)
         == After(StartedAll(group), RunFrom(nodes, pos, cwd, |group|, code))
    decreases |nodes|
  {
    if nodes[0].Chdir? {
      if |nodes| > 1 && nodes[0].dir.Some? {
        RunIsRightNested(nodes[2..], pos + 2, JoinDir(cwd, nodes[0].dir.value), group, code);
      }
    } else {
      var st := Stage(pos, nodes[0], cwd);
      var p := Started(nodes[0], pos, cwd, |group|);
      StartedAllAppend(group, st);
      if |nodes| > 1 && nodes[1].Pipe? {
        RunIsRightNested(nodes[2..], pos + 2, cwd, group + [st], code);
        AfterTwice(StartedAll(group), [p], RunFrom(nodes[2..], pos + 2, cwd, |group| + 1, code));
      } else if |nodes| > 1 {
        RunIsRightNested(nodes[2..], pos + 2, cwd, [], code);
        AfterTwice(StartedAll(group), [p], RunFrom(nodes[2..], pos + 2, cwd, 0, code));
        assert After([], RunFrom(nodes[2..], pos + 2, cwd, 0, code)) == RunFrom(nodes[2..], pos + 2, cwd, 0, code);
      }
    }
  }

  /** The whole run means the chain of all the nodes, right-nested. */
  lemma RunMeansChain(nodes: seq<Node>, code: Code)
    requires WellFormed(nodes)
    ensures CommandChain(ChainOf(nodes, 0, ".", []))
    ensures RunFrom(nodes, 0, ".", 0, code) == RightNested(ChainOf(nodes, 0, ".", []), code)
  {
    RunIsRightNested(nodes, 0, ".", [], code);
    var r := RunFrom(nodes, 0, ".", 0, code);
    assert [] + r.processes == r.processes;
  }

  // ----- When the run fails -----

  /** `run` cannot make this directory change: nothing follows it, or it names no directory. */
  predicate BadChdir(nodes: seq<Node>, i: nat) {
    i < |nodes| && nodes[i].Chdir? && (i == |nodes| - 1 || nodes[i].dir.None?)
  }

  /** What a parsed pipeline may still lack: it ends in a command, and every directory change names
      a directory. */
  predicate EndsInCommand(nodes: seq<Node>) {
    && nodes != [] && nodes[|nodes| - 1].Command?
    && forall i :: 0 <= i < |nodes| && nodes[i].Chdir? ==> nodes[i].dir.Some?
  }

  /** If a group ends at node `j`, its status lets what follows proceed; node 0 has position `pos`. */
  predicate LetsPast(nodes: seq<Node>, pos: nat, code: Code, j: nat) {
    j + 1 < |nodes| && nodes[j].Command? && !nodes[j + 1].Pipe? ==>
      Proceeds(ConnectiveOf(nodes[j + 1]), code(pos + j))
  }

  /** The statuses let every group before node `i` proceed. */
  ghost predicate Reached(nodes: seq<Node>, pos: nat, code: Code, i: nat) {
    forall j: nat :: j < i ==> LetsPast(nodes, pos, code, j)
  }

  ghost predicate ReachesBadChdir(nodes: seq<Node>, pos: nat, code: Code) {
    exists i: nat :: BadChdir(nodes, i) && Reached(nodes, pos, code, i)
  }

  lemma LetsPastShift(nodes: seq<Node>, pos: nat, code: Code, j: nat)
    requires |nodes| > 1
    ensures LetsPast(nodes, pos, code, j + 2) <==> LetsPast(nodes[2..], pos + 2, code, j)
  {
  }

  lemma ReachedShift(nodes: seq<Node>, pos: nat, code: Code, i: nat)
    requires WellFormed(nodes) && |nodes| > 1 && i >= 2
    ensures BadChdir(nodes, i) <==> BadChdir(nodes[2..], i - 2)
    ensures Reached(nodes, pos, code, i) <==>
      LetsPast(nodes, pos, code, 0) && Reached(nodes[2..], pos + 2, code, i - 2)
  {
    assert IsOp(nodes[1]) && LetsPast(nodes, pos, code, 1);
    hide LetsPast, WellFormed;
    var rest, next := nodes[2..], pos + 2;
    if Reached(nodes, pos, code, i) {
      forall j: nat | j < i - 2 ensures LetsPast(rest, next, code, j) {
        LetsPastShift(nodes, pos, code, j);
      }
    }
    if Reached(nodes[2..], pos + 2, code, i - 2) && LetsPast(nodes, pos, code, 0) {
      forall j: nat | j < i ensures LetsPast(nodes, pos, code, j) {
        if j >= 2 {
          LetsPastShift(nodes, pos, code, j - 2);
        }
      }
    }
  }

  lemma ReachesBadShift(nodes: seq<Node>, pos: nat, code: Code)
    requires WellFormed(nodes) && |nodes| > 1 && !BadChdir(nodes, 0)
    ensures ReachesBadChdir(nodes, pos, code) <==>
      LetsPast(nodes, pos, code, 0) && ReachesBadChdir(nodes[2..], pos + 2, code)
  {
    assert IsOp(nodes[1]);
    if ReachesBadChdir(nodes, pos, code) {
      var i: nat :| BadChdir(nodes, i) && Reached(nodes, pos, code, i);
      ReachedShift(nodes, pos, code, i);
    }
    if ReachesBadChdir(nodes[2..], pos + 2, code) {
      var i: nat :| BadChdir(nodes[2..], i) && Reached(nodes[2..], pos + 2, code, i);
      ReachedShift(nodes, pos, code, i + 2);
    }
  }

  /** For given statuses the run fails exactly when it gets to a directory change it cannot make. */
  lemma {:induction false} FailsIff(nodes: seq<Node>, pos: nat, cwd: string, left: nat, code: Code)
    requires WellFormed(nodes)
    ensures RunFrom(nodes, pos, cwd, left, code).status.None? <==> ReachesBadChdir(nodes, pos, code)
    decreases |nodes|
  {
    if BadChdir(nodes, 0) {
      assert Reached(nodes, pos, code, 0);
    } else if |nodes| > 1 {
      ReachesBadShift(nodes, pos, code);
      if nodes[0].Chdir? {
        FailsIff(nodes[2..], pos + 2, JoinDir(cwd, nodes[0].dir.value), left, code);
      } else {
        FailsIff(nodes[2..], pos + 2, cwd, if nodes[1].Pipe? then left + 1 else 0, code);
      }
    }
  }

  lemma {:induction false} NoBadChdirIff(nodes: seq<Node>)
    requires WellFormed(nodes)
    ensures EndsInCommand(nodes) <==> forall i: nat :: !BadChdir(nodes, i)
    decreases |nodes|
  {
    LastIsNoOp(nodes);
    if !EndsInCommand(nodes) {
      if !nodes[|nodes| - 1].Command? {
        assert BadChdir(nodes, |nodes| - 1);
      } else {
        var i :| 0 <= i < |nodes| && nodes[i].Chdir? && nodes[i].dir.None?;
        assert BadChdir(nodes, i);
      }
    }
  }

  lemma {:induction false} LastIsNoOp(nodes: seq<Node>)
    requires WellFormed(nodes)
    ensures nodes[|nodes| - 1].Command? || nodes[|nodes| - 1].Chdir?
    decreases |nodes|
  {
    if |nodes| > 1 {
      LastIsNoOp(nodes[2..]);
    }
  }

  /** The status that lets `op` proceed, and the one that does not. */
  function GoOn(op: Connective): int { match op case ANDALSO => 0 case ORELSE => 1 }
  function Halt(op: Connective): int { match op case ANDALSO => 1 case ORELSE => 0 }

  /** Statuses that let every group proceed. */
  function AllGoOn(nodes: seq<Node>): Code {
    (p: nat) => if p + 1 < |nodes| then GoOn(ConnectiveOf(nodes[p + 1])) else 0
  }

  /** The run succeeds for all exit statuses exactly when the pipeline ends in a command and every
      directory change names a directory. */
  lemma SucceedsIff(nodes: seq<Node>)
    requires WellFormed(nodes)
    ensures EndsInCommand(nodes) <==> forall code: Code :: RunFrom(nodes, 0, ".", 0, code).status.Some?
  {
    NoBadChdirIff(nodes);
    if EndsInCommand(nodes) {
      forall code: Code ensures RunFrom(nodes, 0, ".", 0, code).status.Some? {
        FailsIff(nodes, 0, ".", 0, code);
      }
    } else {
      var i: nat :| BadChdir(nodes, i);
      var code := AllGoOn(nodes);
      assert Reached(nodes, 0, code, i);
      FailsIff(nodes, 0, ".", 0, code);
    }
  }

  // ----- Files -----

  /** An open file; the null device is shared and never closed. */
  datatype Handle = DevNull | File(path: string)

  function OpenOutFile(name: string): Handle {
    if IsDevNull(name) then DevNull else File(JoinDir(".", name))
  }

  function OutFiles(t: Target): seq<string> {
    if t.IntoFile? && t.path != NULL_DEVICE then [t.path] else []
  }

  /** The files opened for a process. */
  function FilesOf(p: Process): seq<string> {
    (if p.stdin.FromFile? then [p.stdin.path] else []) + OutFiles(p.stdout) + OutFiles(p.stderr)
  }

  function FilesOfAll(ps: seq<Process>): seq<string> {
    if ps == [] then [] else FilesOfAll(ps[..|ps| - 1]) + FilesOf(ps[|ps| - 1])
  }

  function Owned(handles: seq<Handle>): seq<string> {
    if handles == [] then []
    else
      var h := handles[|handles| - 1];
      Owned(handles[..|handles| - 1]) + (if h.File? then [h.path] else [])
  }

  lemma OwnedAppend(handles: seq<Handle>, h: Handle)
    ensures Owned(handles + [h]) == Owned(handles) + (if h.File? then [h.path] else [])
  {
  }

  lemma FilesOfAllAppend(ps: seq<Process>, p: Process)
    ensures FilesOfAll(ps + [p]) == FilesOfAll(ps) + FilesOf(p)
  {
  }

  lemma {:induction false} FilesOfAllConcat(a: seq<Process>, b: seq<Process>)
    ensures FilesOfAll(a + b) == FilesOfAll(a) + FilesOfAll(b)
  {
    if b == [] {
      assert a + b == a;
    } else {
      var init, p := b[..|b| - 1], b[|b| - 1];
      FilesOfAllConcat(a, init);
      LastApart(a, b);
      FilesOfAllAppend(a + init, p);
      FilesOfAllAppend(init, p);
      Regroup(FilesOfAll(a), FilesOfAll(init), FilesOf(p));
      hide *;
    }
  }

  // ----- run -----

  /** What a run has done so far. */
  datatype Log = Log(processes: seq<Process>, waitedFor: seq<Process>,
    openedFiles: seq<string>, closedFiles: seq<string>)

  /** Waits for every process; the status is the last one's as soon as any is not zero. */
  method ExecPipedCommands(commands: seq<Process>, code: Code) returns (retval: int)
    requires commands != []
    ensures retval == code(commands[|commands| - 1].pos)
  {
    var retvals := [];
    for i := 0 to |commands|
      invariant |retvals| == i && forall k :: 0 <= k < i ==> retvals[k] == code(commands[k].pos)
    {
      retvals := retvals + [code(commands[i].pos)];
    }
    retval := 0;
    for i := 0 to |retvals|
      invariant retval == 0 && forall k :: 0 <= k < i ==> retvals[k] == 0
    {
      if retvals[i] != 0 {
        retval := retvals[|retvals| - 1];
        break;
      }
    }
  }

  method CloseAll(filesToClose: seq<Handle>) returns (closed: seq<string>)
    ensures closed == Owned(filesToClose)
  {
    closed := [];
    for i := 0 to |filesToClose|
      invariant closed == Owned(filesToClose[..i])
    {
      OwnedAppend(filesToClose[..i], filesToClose[i]);
      assert filesToClose[..i + 1] == filesToClose[..i] + [filesToClose[i]];
      if filesToClose[i].File? {
        closed := closed + [filesToClose[i].path];
      }
    }
    assert filesToClose[..|filesToClose|] == filesToClose;
  }

  datatype RunState = BEGIN_GROUP | IN_PIPE

  /** Only the names of the null device lead to it. */
  lemma NullDevice(name: string)
    ensures IsDevNull(name) <==> OutPath(name) == NULL_DEVICE
    ensures OutPath(name) == "/dev/null" <==> name == "NUL:" || name == "/dev/null"
  {
  }

  /** Opens the file of an output redirection, if there is one. */
  method OpenFor(r: Redirect, filesToClose0: seq<Handle>) returns (target: Target, filesToClose: seq<Handle>)
    ensures target == TargetOf(r)
    ensures Owned(filesToClose) == Owned(filesToClose0) + OutFiles(target)
  {
    filesToClose := filesToClose0;
    assert Owned(filesToClose0) + [] == Owned(filesToClose0);
    match r {
      case Inherit => target := ToParent;
      case ToPipe => target := IntoPipe;
      case ToStdout => target := WithStdout;
      case ToFile(name) =>
        var file := OpenOutFile(name);
        OwnedAppend(filesToClose, file);
        NullDevice(name);
        filesToClose := filesToClose + [file];
        target := IntoFile(if file.DevNull? then NULL_DEVICE else file.path);
        hide Owned, JoinDir;
    }
  }

  /** Opens what the command redirects and starts it. */
  method StartCommand(cmd: Node, pos: nat, state: RunState, cwd: string, filesToClose0: seq<Handle>, ghost left: nat)
    returns (p: Process, filesToClose: seq<Handle>)
    requires cmd.Command? && (state == IN_PIPE <==> left > 0)
    ensures p == Started(cmd, pos, cwd, left)
    ensures Owned(filesToClose) == Owned(filesToClose0) + FilesOf(p)
  {
    filesToClose := filesToClose0;
    var stdin := Inherited;
    if state == IN_PIPE {
      stdin := FromPrevious;
    } else if cmd.stdin.Some? {
      stdin := FromFile(JoinDir(".", cmd.stdin.value));
      OwnedAppend(filesToClose, File(stdin.path));
      filesToClose := filesToClose + [File(stdin.path)];
    }
    ghost var inFiles := if stdin.FromFile? then [stdin.path] else [];
    assert Owned(filesToClose) == Owned(filesToClose0) + inFiles;
    hide Owned, OutFiles, TargetOf, JoinDir;
    var stdout, stderr;
    stdout, filesToClose := OpenFor(cmd.stdout, filesToClose);
    stderr, filesToClose := OpenFor(cmd.stderr, filesToClose);
    p := Process(pos, cmd.argv, stdin, stdout, stderr, cmd.envVars, cwd);
    Regroup(Owned(filesToClose0), inFiles, OutFiles(stdout));
    Regroup(Owned(filesToClose0), inFiles + OutFiles(stdout), OutFiles(stderr));
  }

  /** Every started process has been waited for or is in the current group, and the files opened for
      it have been closed or wait to be. */
  ghost predicate Accounted(log: Log, pipedCommands: seq<Process>, filesToClose: seq<Handle>) {
    && log.processes == log.waitedFor + pipedCommands
    && log.openedFiles == FilesOfAll(log.processes) && log.closedFiles == FilesOfAll(log.waitedFor)
    && Owned(filesToClose) == FilesOfAll(pipedCommands)
  }

  function LogStart(log: Log, p: Process): Log {
    log.(processes := log.processes + [p], openedFiles := log.openedFiles + FilesOf(p))
  }

  lemma AccountStart(log: Log, pipedCommands: seq<Process>, filesToClose: seq<Handle>, p: Process, more: seq<Handle>)
    requires Accounted(log, pipedCommands, filesToClose)
    requires Owned(more) == Owned(filesToClose) + FilesOf(p)
    ensures Accounted(LogStart(log, p), pipedCommands + [p], more)
  {
    FilesOfAllAppend(log.processes, p);
    FilesOfAllAppend(pipedCommands, p);
    Regroup(log.waitedFor, pipedCommands, [p]);
    hide FilesOfAll, FilesOf, Owned;
  }

  function LogEnd(log: Log, pipedCommands: seq<Process>, closed: seq<string>): Log {
    log.(waitedFor := log.waitedFor + pipedCommands, closedFiles := log.closedFiles + closed)
  }

  lemma AccountEnd(log: Log, pipedCommands: seq<Process>, filesToClose: seq<Handle>)
    requires Accounted(log, pipedCommands, filesToClose)
    ensures var log' := LogEnd(log, pipedCommands, Owned(filesToClose));
      Accounted(log', [], []) && log'.processes == log.processes == log'.waitedFor
  {
    FilesOfAllConcat(log.waitedFor, pipedCommands);
    assert log.processes + [] == log.processes;
  }

  /** Waits for the commands of the group and closes the files opened for them. */
  method EndGroup(log0: Log, pipedCommands: seq<Process>, filesToClose: seq<Handle>, code: Code)
    returns (retval: int, log: Log)
    requires pipedCommands != [] && Accounted(log0, pipedCommands, filesToClose)
    ensures retval == code(pipedCommands[|pipedCommands| - 1].pos)
    ensures log.processes == log0.processes == log.waitedFor && Accounted(log, [], [])
  {
    AccountEnd(log0, pipedCommands, filesToClose);
    retval := ExecPipedCommands(pipedCommands, code);
    var closed := CloseAll(filesToClose);
    log := LogEnd(log0, pipedCommands, closed);
    hide *;
  }

  /** After `processes` the outcome of the whole run is what is still to come. */
  ghost predicate ComesDownTo(whole: Outcome, processes: seq<Process>, r: Outcome) {
    whole == After(processes, r)
  }

  lemma OneMore(whole: Outcome, processes: seq<Process>, p: Process, r: Outcome)
    requires ComesDownTo(whole, processes, After([p], r))
    ensures ComesDownTo(whole, processes + [p], r)
  {
    AfterTwice(processes, [p], r);
  }

  /** What comes after the command at the front of `nodes` has been started. */
  ghost function AfterCommand(nodes: seq<Node>, pos: nat, cwd: string, left: nat, code: Code): Outcome
    requires WellFormed(nodes) && nodes[0].Command?
  {
    if |nodes| > 1 && nodes[1].Pipe? then RunFrom(nodes[2..], pos + 2, cwd, left + 1, code)
    else if |nodes| > 1 && Proceeds(ConnectiveOf(nodes[1]), code(pos)) then
      RunFrom(nodes[2..], pos + 2, cwd, 0, code)
    else Outcome(Some(code(pos)), [], 0)
  }

  lemma RunCommand(nodes: seq<Node>, pos: nat, cwd: string, left: nat, code: Code)
    requires WellFormed(nodes) && nodes[0].Command?
    ensures RunFrom(nodes, pos, cwd, left, code)
         == After([Started(nodes[0], pos, cwd, left)], AfterCommand(nodes, pos, cwd, left, code))
  {
  }

  /** Starts the command at the front of `nodes` and keeps account of it. */
  method StartNext(nodes: seq<Node>, pos: nat, state: RunState, cwd: string, log0: Log, pipedCommands0: seq<Process>,
        filesToClose0: seq<Handle>, ghost whole: Outcome, ghost code: Code)
    returns (log: Log, pipedCommands: seq<Process>, filesToClose: seq<Handle>)
    requires WellFormed(nodes) && nodes[0].Command? && (state == IN_PIPE <==> pipedCommands0 != [])
    requires ComesDownTo(whole, log0.processes, RunFrom(nodes, pos, cwd, |pipedCommands0|, code))
    requires Accounted(log0, pipedCommands0, filesToClose0)
    ensures |pipedCommands| == |pipedCommands0| + 1 && pipedCommands[|pipedCommands| - 1].pos == pos
    ensures Accounted(log, pipedCommands, filesToClose)
    ensures ComesDownTo(whole, log.processes, AfterCommand(nodes, pos, cwd, |pipedCommands0|, code))
  {
    ghost var left := |pipedCommands0|;
    RunCommand(nodes, pos, cwd, left, code);
    var p;
    p, filesToClose := StartCommand(nodes[0], pos, state, cwd, filesToClose0, left);
    assert p.pos == pos && LogStart(log0, p).processes == log0.processes + [p];
    hide *;
    AccountStart(log0, pipedCommands0, filesToClose0, p, filesToClose);
    OneMore(whole, log0.processes, p, AfterCommand(nodes, pos, cwd, left, code));
    log, pipedCommands := LogStart(log0, p), pipedCommands0 + [p];
  }

  /** Whether the interpreter stops at the operator after the group, or at the end. */
  predicate Stops(nodes: seq<Node>, retval: int)
    requires nodes != []
  {
    |nodes| == 1 || (nodes[1].Or? && retval == 0) || (nodes[1].And? && retval != 0)
  }

  lemma PastChdir(nodes: seq<Node>, pos: nat, cwd: string, left: nat, code: Code)
    requires WellFormed(nodes) && nodes[0].Chdir?
    ensures |nodes| > 1 ==> WellFormed(nodes[2..])
    ensures RunFrom(nodes, pos, cwd, left, code)
         == if |nodes| == 1 || nodes[0].dir.None? then Outcome(None, [], left)
            else RunFrom(nodes[2..], pos + 2, JoinDir(cwd, nodes[0].dir.value), left, code)
  {
  }

  lemma PastCommand(nodes: seq<Node>, pos: nat, cwd: string, left: nat, code: Code)
    requires WellFormed(nodes) && nodes[0].Command?
    ensures |nodes| > 1 ==> WellFormed(nodes[2..])
    ensures AfterCommand(nodes, pos, cwd, left, code)
         == if |nodes| > 1 && nodes[1].Pipe? then RunFrom(nodes[2..], pos + 2, cwd, left + 1, code)
            else if Stops(nodes, code(pos)) then Outcome(Some(code(pos)), [], 0)
            else RunFrom(nodes[2..], pos + 2, cwd, 0, code)
  {
    assert |nodes| > 1 ==> IsOp(nodes[1]);
  }

  /** The log of a run that ends here. */
  ghost predicate Ends(whole: Outcome, status: Option<int>, log: Log) {
    && log.waitedFor <= log.processes && whole == Outcome(status, log.processes, |log.processes| - |log.waitedFor|)
    && log.openedFiles == FilesOfAll(log.processes) && log.closedFiles == FilesOfAll(log.waitedFor)
    && (status.Some? ==> log.waitedFor == log.processes)
  }

  lemma AtEnd(whole: Outcome, status: Option<int>, log: Log, pipedCommands: seq<Process>, filesToClose: seq<Handle>)
    requires ComesDownTo(whole, log.processes, Outcome(status, [], |pipedCommands|))
    requires Accounted(log, pipedCommands, filesToClose) && (status.Some? ==> pipedCommands == [])
    ensures Ends(whole, status, log)
  {
  }

  lemma AtStart(whole: Outcome)
    ensures ComesDownTo(whole, [], whole) && Accounted(Log([], [], [], []), [], [])
  {
  }

  lemma Head(nodes: seq<Node>)
    requires WellFormed(nodes)
    ensures (nodes[0].Command? || nodes[0].Chdir?) && |nodes| != 2
    ensures |nodes| > 1 || forall retval: int :: Stops(nodes, retval)
  {
  }

  /** Starts the processes of the meaning and returns its status, or fails where that does. When it
      fails, the processes of the group it was in are left running and their files open; otherwise
      every process has been waited for and every file closed. */
  method Run(nodes: seq<Node>, code: Code) returns (retval: Option<int>, log: Log)
    requires WellFormed(nodes)
    ensures Ends(RunFrom(nodes, 0, ".", 0, code), retval, log)
  {
    ghost var whole := RunFrom(nodes, 0, ".", 0, code);
    var pipeline, pos := nodes, 0;
    var filesToClose: seq<Handle> := [];
    var pipedCommands: seq<Process> := [];
    var state, cwd := BEGIN_GROUP, ".";
    log := Log([], [], [], []);
    AtStart(whole);
    hide *;
    while true
      invariant WellFormed(pipeline)
      invariant ComesDownTo(whole, log.processes, RunFrom(pipeline, pos, cwd, |pipedCommands|, code))
      invariant state == IN_PIPE <==> pipedCommands != []
      invariant Accounted(log, pipedCommands, filesToClose)
      decreases |pipeline|
    {
      Head(pipeline);
      if pipeline[0].Chdir? {
        PastChdir(pipeline, pos, cwd, |pipedCommands|, code);
        if |pipeline| == 1 || pipeline[0].dir.None? {
          AtEnd(whole, None, log, pipedCommands, filesToClose);
          return None, log;
        }
        cwd := JoinDir(cwd, pipeline[0].dir.value);
      } else {
        PastCommand(pipeline, pos, cwd, |pipedCommands|, code);
        log, pipedCommands, filesToClose :=
          StartNext(pipeline, pos, state, cwd, log, pipedCommands, filesToClose, whole, code);
        if |pipeline| > 1 && pipeline[1].Pipe? {
          state := IN_PIPE;
        } else {
          var thisRetval;
          thisRetval, log := EndGroup(log, pipedCommands, filesToClose, code);
          pipedCommands, filesToClose := [], [];
          if Stops(pipeline, thisRetval) {
            AtEnd(whole, Some(thisRetval), log, pipedCommands, filesToClose);
            return Some(thisRetval), log;
          }
          state := BEGIN_GROUP;
        }
      }
      pipeline, pos := pipeline[2..], pos + 2;
    }
  }
}
