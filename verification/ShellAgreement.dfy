/** When `run` does what a POSIX shell would do with the same nodes. */
module ShellAgreement {
  import opened Options
  import opened Sequences
  import opened ShellPosix
  import opened ShellProcesses
  import opened ShellRun
  import opened ShellSyntax

  // ----- The condition -----

  /** Every `&&` and `||` that comes after a command is `op`. */
  predicate AllJoins(nodes: seq<Node>, op: Connective) {
    forall i, k :: 0 <= i < |nodes| && k == i + 1 < |nodes| && nodes[i].Command? && !nodes[k].Pipe? ==>
      ConnectiveOf(nodes[k]) == op
  }

  /** `&&` and `||` are not mixed; an `&&` after a directory change does not count. */
  predicate NotMixed(nodes: seq<Node>) {
    AllJoins(nodes, ANDALSO) || AllJoins(nodes, ORELSE)
  }

  /** No directory change comes directly after `|` or `||`. */
  predicate ChangesAfterAnd(nodes: seq<Node>) {
    forall i, k :: 0 <= i < |nodes| && k == i + 1 < |nodes| && nodes[k].Chdir? ==> nodes[i].And?
  }

  /** No command after `|` redirects its input. */
  predicate PipesAreRead(nodes: seq<Node>) {
    forall i, k :: 0 <= i < |nodes| && k == i + 1 < |nodes| && nodes[k].Command? && nodes[i].Pipe? ==>
      nodes[k].stdin.None?
  }

  predicate SameTarget(r: Redirect, cwd: string) {
    r.ToFile? ==> OutPath(r.name) == JoinDir(cwd, r.name)
  }

  /** The files that the command redirects to or from are the same for `run`, which opens them from
      the directory it was started in, as from the command's own directory. */
  predicate SameFiles(cmd: Node, cwd: string)
    requires cmd.Command?
  {
    && (cmd.stdin.Some? ==> JoinDir(".", cmd.stdin.value) == JoinDir(cwd, cmd.stdin.value))
    && SameTarget(cmd.stdout, cwd) && SameTarget(cmd.stderr, cwd)
  }

  predicate FilesStayAt(nodes: seq<Node>, cwd: string, i: nat)
    requires i < |nodes|
  {
    nodes[i].Command? ==> SameFiles(nodes[i], DirAt(nodes, cwd, i))
  }

  predicate FilesStay(nodes: seq<Node>, cwd: string) {
    forall i: nat :: i < |nodes| ==> FilesStayAt(nodes, cwd, i)
  }

  /** What a pipeline needs for `run` to be faithful to the shell. */
  predicate PosixSafe(nodes: seq<Node>) {
    EndsInCommand(nodes) && NotMixed(nodes) && ChangesAfterAnd(nodes) && PipesAreRead(nodes) && FilesStay(nodes, ".")
  }

  // ----- The condition, node by node -----

  /** The same for the nodes that follow `|` if `piped`, and otherwise follow groups joined by `op`. */
  predicate SafeFrom(nodes: seq<Node>, cwd: string, piped: bool, op: Option<Connective>)
    requires WellFormed(nodes)
    decreases |nodes|
  {
    if nodes[0].Chdir? then
      && |nodes| > 1 && nodes[0].dir.Some? && !piped && (op.Some? ==> op.value.ANDALSO?)
      && SafeFrom(nodes[2..], JoinDir(cwd, nodes[0].dir.value), false, op)
    else
      && (piped ==> nodes[0].stdin.None?) && SameFiles(nodes[0], cwd)
      && (|nodes| > 1 ==>
            if nodes[1].Pipe? then SafeFrom(nodes[2..], cwd, true, op)
            else
              var next := ConnectiveOf(nodes[1]);
              (op.None? || op.value == next) && SafeFrom(nodes[2..], cwd, false, Some(next)))
  }

  lemma AllJoinsRest(nodes: seq<Node>, op: Connective)
    requires WellFormed(nodes) && |nodes| > 1
    ensures AllJoins(nodes, op) <==>
      (nodes[0].Command? && !nodes[1].Pipe? ==> ConnectiveOf(nodes[1]) == op) && AllJoins(nodes[2..], op)
  {
    var rest := nodes[2..];
    assert IsOp(nodes[1]);
    if AllJoins(nodes, op) {
      forall i, k | 0 <= i < |rest| && k == i + 1 < |rest| && rest[i].Command? && !rest[k].Pipe?
        ensures ConnectiveOf(rest[k]) == op
      {
        assert rest[i] == nodes[i + 2] && rest[k] == nodes[k + 2];
      }
    }
    if AllJoins(rest, op) {
      forall i, k | 2 <= i < |nodes| && k == i + 1 < |nodes| && nodes[i].Command? && !nodes[k].Pipe?
        ensures ConnectiveOf(nodes[k]) == op
      {
        assert nodes[i] == rest[i - 2] && nodes[k] == rest[k - 2];
      }
    }
  }

  lemma ChangesRest(nodes: seq<Node>)
    requires WellFormed(nodes) && |nodes| > 2
    ensures ChangesAfterAnd(nodes) <==> (nodes[2].Chdir? ==> nodes[1].And?) && ChangesAfterAnd(nodes[2..])
  {
    var rest := nodes[2..];
    assert IsOp(nodes[1]);
    if ChangesAfterAnd(nodes) {
      forall i, k | 0 <= i < |rest| && k == i + 1 < |rest| && rest[k].Chdir? ensures rest[i].And? {
        assert rest[i] == nodes[i + 2] && rest[k] == nodes[k + 2];
      }
    }
    if ChangesAfterAnd(rest) {
      forall i, k | 2 <= i < |nodes| && k == i + 1 < |nodes| && nodes[k].Chdir? ensures nodes[i].And? {
        assert nodes[i] == rest[i - 2] && nodes[k] == rest[k - 2];
      }
    }
  }

  lemma PipesRest(nodes: seq<Node>)
    requires WellFormed(nodes) && |nodes| > 2
    ensures PipesAreRead(nodes) <==>
      (nodes[2].Command? && nodes[1].Pipe? ==> nodes[2].stdin.None?) && PipesAreRead(nodes[2..])
  {
    var rest := nodes[2..];
    assert IsOp(nodes[1]);
    if PipesAreRead(nodes) {
      forall i, k | 0 <= i < |rest| && k == i + 1 < |rest| && rest[k].Command? && rest[i].Pipe?
        ensures rest[k].stdin.None?
      {
        assert rest[i] == nodes[i + 2] && rest[k] == nodes[k + 2];
      }
    }
    if PipesAreRead(rest) {
      forall i, k | 2 <= i < |nodes| && k == i + 1 < |nodes| && nodes[k].Command? && nodes[i].Pipe?
        ensures nodes[k].stdin.None?
      {
        assert nodes[i] == rest[i - 2] && nodes[k] == rest[k - 2];
      }
    }
  }

  lemma {:induction false} DirAtRest(nodes: seq<Node>, cwd: string, i: nat)
    requires WellFormed(nodes) && 2 <= i <= |nodes|
    ensures DirAt(nodes, cwd, i) == DirAt(nodes[2..], DirAt(nodes, cwd, 2), i - 2)
  {
    if i > 2 {
      DirAtRest(nodes, cwd, i - 1);
      assert nodes[i - 1] == nodes[2..][i - 3];
    }
  }

  lemma FilesStayAtRest(nodes: seq<Node>, cwd: string, i: nat)
    requires WellFormed(nodes) && 2 <= i < |nodes|
    ensures FilesStayAt(nodes, cwd, i) <==> FilesStayAt(nodes[2..], DirAt(nodes, cwd, 2), i - 2)
  {
    DirAtRest(nodes, cwd, i);
    hide SameFiles, DirAt;
  }

  lemma DirAtTwo(nodes: seq<Node>, cwd: string)
    requires WellFormed(nodes) && |nodes| > 1
    ensures DirAt(nodes, cwd, 0) == cwd && DirAt(nodes, cwd, 2)
      == if nodes[0].Chdir? && nodes[0].dir.Some? then JoinDir(cwd, nodes[0].dir.value) else cwd
  {
    assert IsOp(nodes[1]) && DirAt(nodes, cwd, 2) == DirAt(nodes, cwd, 1);
  }

  lemma FilesRest(nodes: seq<Node>, cwd: string)
    requires WellFormed(nodes) && |nodes| > 1
    ensures FilesStay(nodes, cwd) <==>
      (nodes[0].Command? ==> SameFiles(nodes[0], cwd)) && FilesStay(nodes[2..], DirAt(nodes, cwd, 2))
  {
    var rest, dir := nodes[2..], DirAt(nodes, cwd, 2);
    DirAtTwo(nodes, cwd);
    assert IsOp(nodes[1]) && FilesStayAt(nodes, cwd, 1);
    assert FilesStayAt(nodes, cwd, 0) <==> (nodes[0].Command? ==> SameFiles(nodes[0], cwd));
    hide SameFiles, DirAt, FilesStayAt, WellFormed;
    if FilesStay(nodes, cwd) {
      forall i: nat | i < |rest| ensures FilesStayAt(rest, dir, i) {
        FilesStayAtRest(nodes, cwd, i + 2);
      }
    }
    if FilesStay(rest, dir) && FilesStayAt(nodes, cwd, 0) {
      forall i: nat | i < |nodes| ensures FilesStayAt(nodes, cwd, i) {
        if i >= 2 {
          FilesStayAtRest(nodes, cwd, i);
        }
      }
    }
  }

  lemma EndsRest(nodes: seq<Node>)
    requires WellFormed(nodes) && |nodes| > 1
    ensures EndsInCommand(nodes) <==> (nodes[0].Chdir? ==> nodes[0].dir.Some?) && EndsInCommand(nodes[2..])
  {
    var rest := nodes[2..];
    assert IsOp(nodes[1]) && rest != [] && rest[|rest| - 1] == nodes[|nodes| - 1];
    assert forall i :: 0 <= i < |rest| ==> rest[i] == nodes[i + 2];
    assert forall i :: 2 <= i < |nodes| ==> nodes[i] == rest[i - 2];
  }

  /** The condition with what comes before the nodes. */
  predicate SafeIn(nodes: seq<Node>, cwd: string, piped: bool, op: Option<Connective>)
    requires nodes != []
  {
    && EndsInCommand(nodes) && ChangesAfterAnd(nodes) && PipesAreRead(nodes) && FilesStay(nodes, cwd)
    && (if op.Some? then AllJoins(nodes, op.value) else NotMixed(nodes))
    && (nodes[0].Chdir? ==> !piped && (op.Some? ==> op.value.ANDALSO?))
    && (piped && nodes[0].Command? ==> nodes[0].stdin.None?)
  }

  lemma {:induction false} SafeFromIff(nodes: seq<Node>, cwd: string, piped: bool, op: Option<Connective>)
    requires WellFormed(nodes)
    ensures SafeFrom(nodes, cwd, piped, op) <==> SafeIn(nodes, cwd, piped, op)
    decreases |nodes|
  {
    if |nodes| > 1 {
      var rest, dir := nodes[2..], DirAt(nodes, cwd, 2);
      EndsRest(nodes);
      assert rest != [];
      ChangesRest(nodes);
      PipesRest(nodes);
      FilesRest(nodes, cwd);
      DirAtTwo(nodes, cwd);
      AllJoinsRest(nodes, ANDALSO);
      AllJoinsRest(nodes, ORELSE);
      assert rest[0] == nodes[2] && IsOp(nodes[1]) && (nodes[0].Command? || nodes[0].Chdir?);
      assert nodes[0].Chdir? ==> nodes[1].And?;
      if nodes[0].Chdir? {
        SafeFromIff(rest, dir, false, op);
      } else if nodes[1].Pipe? {
        SafeFromIff(rest, cwd, true, op);
      } else {
        SafeFromIff(rest, cwd, false, Some(ConnectiveOf(nodes[1])));
      }
      hide EndsInCommand, ChangesAfterAnd, PipesAreRead, FilesStay, AllJoins, DirAt, SameFiles;
    } else {
      assert DirAt(nodes, cwd, 0) == cwd;
      assert nodes[0].Command? ==> FilesStayAt(nodes, cwd, 0) == SameFiles(nodes[0], cwd);
    }
  }

  // ----- Safe pipelines agree -----

  lemma SameProcess(cmd: Node, pos: nat, cwd: string, left: nat)
    requires cmd.Command?
    ensures Started(cmd, pos, cwd, left) == PosixProcess(cmd, pos, cwd, left > 0) <==>
      (left > 0 ==> cmd.stdin.None?) && SameFiles(cmd, cwd)
  {
  }

  /** A list of one operator that has been stopped stays stopped. */
  lemma {:induction false} Skipped(nodes: seq<Node>, pos: nat, cwd: string, dir: string, piped: bool, op: Connective,
        status: int, home: string, code: Code)
    requires WellFormed(nodes) && SafeFrom(nodes, cwd, piped, Some(op)) && !Proceeds(op, status)
    ensures PosixFrom(nodes, pos, dir, piped, false, status, home, code) == Outcome(Some(status), [], 0)
    decreases |nodes|
  {
    if |nodes| > 1 {
      var next := if nodes[0].Chdir? then JoinDir(cwd, nodes[0].dir.value) else cwd;
      Skipped(nodes[2..], pos + 2, next, dir, nodes[1].Pipe?, op, status, home, code);
    }
  }

  /** A directory change that is made: for the shell it lasts only outside a pipe. */
  lemma ChangeStep(nodes: seq<Node>, pos: nat, cwd: string, left: nat, status: int, home: string, code: Code)
    requires WellFormed(nodes) && |nodes| > 1 && nodes[0].Chdir? && nodes[0].dir.Some?
    ensures WellFormed(nodes[2..])
    ensures var dir := JoinDir(cwd, nodes[0].dir.value);
      && RunFrom(nodes, pos, cwd, left, code) == RunFrom(nodes[2..], pos + 2, dir, left, code)
      && PosixFrom(nodes, pos, cwd, left > 0, true, status, home, code)
         == PosixFrom(nodes[2..], pos + 2, if left > 0 then cwd else dir, false, true, 0, home, code)
  {
    var dir := if left > 0 then cwd else JoinDir(cwd, nodes[0].dir.value);
    var posix := PosixFrom(nodes[2..], pos + 2, dir, false, true, 0, home, code);
    assert nodes[1].And? && [] + posix.processes == posix.processes;
    hide JoinDir;
  }

  lemma {:induction false} SafeAgree(nodes: seq<Node>, pos: nat, cwd: string, left: nat, op: Option<Connective>,
        status: int, home: string, code: Code)
    requires WellFormed(nodes) && SafeFrom(nodes, cwd, left > 0, op)
    ensures RunFrom(nodes, pos, cwd, left, code) == PosixFrom(nodes, pos, cwd, left > 0, true, status, home, code)
    decreases |nodes|
  {
    if nodes[0].Chdir? {
      ChangeStep(nodes, pos, cwd, left, status, home, code);
      SafeAgree(nodes[2..], pos + 2, JoinDir(cwd, nodes[0].dir.value), 0, op, 0, home, code);
      hide RunFrom, PosixFrom, JoinDir;
    } else {
      SameProcess(nodes[0], pos, cwd, left);
      if |nodes| > 1 {
        if nodes[1].Pipe? {
          SafeAgree(nodes[2..], pos + 2, cwd, left + 1, op, status, home, code);
        } else {
          var next := ConnectiveOf(nodes[1]);
          if Proceeds(next, code(pos)) {
            SafeAgree(nodes[2..], pos + 2, cwd, 0, Some(next), code(pos), home, code);
          } else {
            Skipped(nodes[2..], pos + 2, cwd, cwd, false, next, code(pos), home, code);
          }
        }
      }
    }
  }

  // ----- Unsafe pipelines can differ -----

  /** Statuses matter only from the position on. */
  ghost predicate SameFrom(pos: nat, a: Code, b: Code) {
    forall p: nat :: p >= pos ==> a(p) == b(p)
  }

  lemma {:induction false} RunDependsOn(nodes: seq<Node>, pos: nat, cwd: string, left: nat, a: Code, b: Code)
    requires WellFormed(nodes) && SameFrom(pos, a, b)
    ensures RunFrom(nodes, pos, cwd, left, a) == RunFrom(nodes, pos, cwd, left, b)
    decreases |nodes|
  {
    if |nodes| > 1 {
      assert SameFrom(pos + 2, a, b) && a(pos) == b(pos);
      if nodes[0].Chdir? {
        if nodes[0].dir.Some? {
          RunDependsOn(nodes[2..], pos + 2, JoinDir(cwd, nodes[0].dir.value), left, a, b);
        }
      } else {
        RunDependsOn(nodes[2..], pos + 2, cwd, if nodes[1].Pipe? then left + 1 else 0, a, b);
      }
    }
  }

  lemma {:induction false} PosixDependsOn(nodes: seq<Node>, pos: nat, cwd: string, piped: bool, go: bool, status: int,
        home: string, a: Code, b: Code)
    requires WellFormed(nodes) && SameFrom(pos, a, b)
    ensures PosixFrom(nodes, pos, cwd, piped, go, status, home, a)
         == PosixFrom(nodes, pos, cwd, piped, go, status, home, b)
    decreases |nodes|
  {
    assert PartStatus(Part(pos, nodes[0]), a) == PartStatus(Part(pos, nodes[0]), b);
    if |nodes| > 1 {
      assert SameFrom(pos + 2, a, b);
      if nodes[1].Pipe? {
        PosixDependsOn(nodes[2..], pos + 2, cwd, true, go, status, home, a, b);
      } else {
        var next := if go then PartStatus(Part(pos, nodes[0]), a) else status;
        var dir := if go && !piped then Change(nodes[0], cwd, home) else cwd;
        PosixDependsOn(nodes[2..], pos + 2, dir, false, Proceeds(ConnectiveOf(nodes[1]), next), next, home, a, b);
      }
    }
  }

  /** A pipeline that runs, of a list that ends in a command, starts a process; its first process
      reads no pipe if nothing comes before it. */
  lemma {:induction false} PosixStarts(nodes: seq<Node>, pos: nat, cwd: string, piped: bool, status: int, home: string,
        code: Code)
    requires WellFormed(nodes) && EndsInCommand(nodes) && (nodes[0].Chdir? ==> !piped)
    ensures var r := PosixFrom(nodes, pos, cwd, piped, true, status, home, code);
      r.processes != [] && (!piped ==> !r.processes[0].stdin.FromPrevious?)
    decreases |nodes|
  {
    if nodes[0].Chdir? {
      EndsRest(nodes);
      assert nodes[1].And?;
      PosixStarts(nodes[2..], pos + 2, Change(nodes[0], cwd, home), false, 0, home, code);
    }
  }

  lemma {:induction false} RunStarts(nodes: seq<Node>, pos: nat, cwd: string, left: nat, code: Code)
    requires WellFormed(nodes) && EndsInCommand(nodes)
    ensures var r := RunFrom(nodes, pos, cwd, left, code);
      r.processes != [] && (left > 0 ==> r.processes[0].stdin.FromPrevious?)
    decreases |nodes|
  {
    if nodes[0].Chdir? {
      EndsRest(nodes);
      RunStarts(nodes[2..], pos + 2, JoinDir(cwd, nodes[0].dir.value), left, code);
    }
  }

  /** The two meanings differ, or, when the group before the nodes stops the list, the shell still
      goes on to start something. */
  ghost predicate Differs(nodes: seq<Node>, pos: nat, cwd: string, left: nat, op: Option<Connective>, status: int,
        home: string, code: Code)
    requires WellFormed(nodes)
  {
    || RunFrom(nodes, pos, cwd, left, code) != PosixFrom(nodes, pos, cwd, left > 0, true, status, home, code)
    || (op.Some? && AlwaysGoesOn(nodes, pos, op.value, home, code))
  }

  ghost predicate GoesOn(nodes: seq<Node>, pos: nat, dir: string, piped: bool, op: Connective, home: string, code: Code)
    requires WellFormed(nodes)
  {
    PosixFrom(nodes, pos, dir, piped, false, Halt(op), home, code).processes != []
  }

  ghost predicate AlwaysGoesOn(nodes: seq<Node>, pos: nat, op: Connective, home: string, code: Code)
    requires WellFormed(nodes)
  {
    forall dir, piped :: GoesOn(nodes, pos, dir, piped, op, home, code)
  }

  /** The statuses `code`, but `status` at the position. */
  function With(code: Code, pos: nat, status: int): Code {
    (p: nat) => if p == pos then status else code(p)
  }

  /** An operator that is not `op` proceeds where `op` does not. */
  lemma OtherProceeds(nodes: seq<Node>, pos: nat, op: Connective, home: string, code: Code)
    requires WellFormed(nodes) && |nodes| > 1 && !nodes[1].Pipe? && ConnectiveOf(nodes[1]) != op
    requires EndsInCommand(nodes[2..])
    ensures AlwaysGoesOn(nodes, pos, op, home, code)
  {
    forall dir, piped ensures GoesOn(nodes, pos, dir, piped, op, home, code) {
      PosixStarts(nodes[2..], pos + 2, dir, false, Halt(op), home, code);
    }
  }

  lemma {:induction false} UnsafeDiffers(nodes: seq<Node>, pos: nat, cwd: string, left: nat, op: Option<Connective>,
        status: int, home: string) returns (code: Code)
    requires WellFormed(nodes) && EndsInCommand(nodes) && !SafeFrom(nodes, cwd, left > 0, op)
    ensures Differs(nodes, pos, cwd, left, op, status, home, code)
    decreases |nodes|, 1
  {
    code := (p: nat) => 0;
    if |nodes| > 1 {
      EndsRest(nodes);
    }
    if nodes[0].Chdir? {
      code := ChangeDiffers(nodes, pos, cwd, left, op, status, home);
    } else if (left > 0 && nodes[0].stdin.Some?) || !SameFiles(nodes[0], cwd) {
      SameProcess(nodes[0], pos, cwd, left);
      assert RunFrom(nodes, pos, cwd, left, code).processes[0] == Started(nodes[0], pos, cwd, left);
      assert PosixFrom(nodes, pos, cwd, left > 0, true, status, home, code).processes[0]
        == PosixProcess(nodes[0], pos, cwd, left > 0);
    } else if nodes[1].Pipe? {
      code := UnsafeDiffers(nodes[2..], pos + 2, cwd, left + 1, op, status, home);
      PipeDiffers(nodes, pos, cwd, left, op, status, home, code);
    } else {
      var next := ConnectiveOf(nodes[1]);
      if op.Some? && op.value != next {
        OtherProceeds(nodes, pos, op.value, home, code);
      } else {
        var rest := UnsafeDiffers(nodes[2..], pos + 2, cwd, 0, Some(next), GoOn(next), home);
        code := JoinDiffers(nodes, pos, cwd, left, op, status, home, rest);
      }
    }
  }

  /** A stopped list of `&&` passes a directory change by. */
  lemma ChangePassed(nodes: seq<Node>, pos: nat, home: string, code: Code)
    requires WellFormed(nodes) && |nodes| > 1 && nodes[0].Chdir?
    requires AlwaysGoesOn(nodes[2..], pos + 2, ANDALSO, home, code)
    ensures AlwaysGoesOn(nodes, pos, ANDALSO, home, code)
  {
    assert nodes[1].And?;
    forall dir, piped ensures GoesOn(nodes, pos, dir, piped, ANDALSO, home, code) {
      assert GoesOn(nodes[2..], pos + 2, dir, false, ANDALSO, home, code);
    }
  }

  /** It passes the parts of a pipeline by. */
  lemma PipePassed(nodes: seq<Node>, pos: nat, op: Connective, home: string, code: Code)
    requires WellFormed(nodes) && |nodes| > 1 && nodes[1].Pipe?
    requires AlwaysGoesOn(nodes[2..], pos + 2, op, home, code)
    ensures AlwaysGoesOn(nodes, pos, op, home, code)
  {
    forall dir, piped ensures GoesOn(nodes, pos, dir, piped, op, home, code) {
      assert GoesOn(nodes[2..], pos + 2, dir, true, op, home, code);
    }
  }

  /** After a pipe the run takes the directory change for a part of it, the shell does not. */
  lemma PipedChangeDiffers(nodes: seq<Node>, pos: nat, cwd: string, left: nat, op: Option<Connective>, status: int,
        home: string, code: Code)
    requires WellFormed(nodes) && EndsInCommand(nodes) && nodes[0].Chdir? && left > 0
    ensures Differs(nodes, pos, cwd, left, op, status, home, code)
  {
    EndsRest(nodes);
    ChangeStep(nodes, pos, cwd, left, status, home, code);
    RunStarts(nodes[2..], pos + 2, JoinDir(cwd, nodes[0].dir.value), left, code);
    PosixStarts(nodes[2..], pos + 2, cwd, false, 0, home, code);
    hide RunFrom, PosixFrom, JoinDir;
  }

  lemma ChangeKeepsDiffering(nodes: seq<Node>, pos: nat, cwd: string, op: Option<Connective>, status: int, home: string,
        code: Code)
    requires WellFormed(nodes) && |nodes| > 1 && nodes[0].Chdir? && nodes[0].dir.Some?
    requires op.Some? ==> op.value.ANDALSO?
    requires Differs(nodes[2..], pos + 2, JoinDir(cwd, nodes[0].dir.value), 0, op, 0, home, code)
    ensures Differs(nodes, pos, cwd, 0, op, status, home, code)
  {
    ChangeStep(nodes, pos, cwd, 0, status, home, code);
    if op.Some? && AlwaysGoesOn(nodes[2..], pos + 2, ANDALSO, home, code) {
      ChangePassed(nodes, pos, home, code);
    }
    hide RunFrom, PosixFrom, AlwaysGoesOn, JoinDir;
  }

  lemma AlwaysGoesOnDiffers(nodes: seq<Node>, pos: nat, cwd: string, left: nat, op: Option<Connective>, status: int,
        home: string, code: Code)
    requires WellFormed(nodes) && op.Some? && AlwaysGoesOn(nodes, pos, op.value, home, code)
    ensures Differs(nodes, pos, cwd, left, op, status, home, code)
  {
    hide RunFrom, PosixFrom, AlwaysGoesOn;
  }

  lemma UnsafeAfterChange(nodes: seq<Node>, cwd: string, piped: bool, op: Option<Connective>)
    requires WellFormed(nodes) && EndsInCommand(nodes) && !SafeFrom(nodes, cwd, piped, op) && nodes[0].Chdir?
    ensures |nodes| > 1 && nodes[0].dir.Some? && WellFormed(nodes[2..]) && EndsInCommand(nodes[2..])
    ensures nodes[1].And? && ConnectiveOf(nodes[1]) == ANDALSO
    ensures !piped && (op.Some? ==> op.value.ANDALSO?) ==>
      !SafeFrom(nodes[2..], JoinDir(cwd, nodes[0].dir.value), false, op)
  {
    EndsRest(nodes);
    hide JoinDir;
  }

  lemma {:induction false} ChangeDiffers(nodes: seq<Node>, pos: nat, cwd: string, left: nat, op: Option<Connective>,
        status: int, home: string) returns (code: Code)
    requires WellFormed(nodes) && EndsInCommand(nodes) && !SafeFrom(nodes, cwd, left > 0, op) && nodes[0].Chdir?
    ensures Differs(nodes, pos, cwd, left, op, status, home, code)
    decreases |nodes|, 0
  {
    hide *;
    UnsafeAfterChange(nodes, cwd, left > 0, op);
    code := (p: nat) => 0;
    if left > 0 {
      PipedChangeDiffers(nodes, pos, cwd, left, op, status, home, code);
    } else if op.Some? && op.value.ORELSE? {
      OtherProceeds(nodes, pos, ORELSE, home, code);
      AlwaysGoesOnDiffers(nodes, pos, cwd, left, op, status, home, code);
    } else {
      code := UnsafeDiffers(nodes[2..], pos + 2, JoinDir(cwd, nodes[0].dir.value), 0, op, 0, home);
      ChangeKeepsDiffering(nodes, pos, cwd, op, status, home, code);
    }
  }

  lemma PipeDiffers(nodes: seq<Node>, pos: nat, cwd: string, left: nat, op: Option<Connective>, status: int,
        home: string, code: Code)
    requires WellFormed(nodes) && |nodes| > 1 && nodes[0].Command? && nodes[1].Pipe?
    requires Differs(nodes[2..], pos + 2, cwd, left + 1, op, status, home, code)
    ensures Differs(nodes, pos, cwd, left, op, status, home, code)
  {
    var run := RunFrom(nodes[2..], pos + 2, cwd, left + 1, code);
    var posix := PosixFrom(nodes[2..], pos + 2, cwd, true, true, status, home, code);
    if run != posix {
      Distinguish(Started(nodes[0], pos, cwd, left), run, PosixProcess(nodes[0], pos, cwd, left > 0), posix);
    } else {
      PipePassed(nodes, pos, op.value, home, code);
    }
  }

  /** Outcomes that differ still do after one more process on each side. */
  lemma Distinguish(p: Process, a: Outcome, q: Process, b: Outcome)
    requires a != b
    ensures After([p], a) != After([q], b)
  {
    assert ([p] + a.processes)[1..] == a.processes && ([q] + b.processes)[1..] == b.processes;
  }

  lemma JoinDiffers(nodes: seq<Node>, pos: nat, cwd: string, left: nat, op: Option<Connective>, status: int,
        home: string, rest: Code) returns (code: Code)
    requires WellFormed(nodes) && |nodes| > 1 && nodes[0].Command? && !nodes[1].Pipe?
    requires var next := ConnectiveOf(nodes[1]);
      Differs(nodes[2..], pos + 2, cwd, 0, Some(next), GoOn(next), home, rest)
    ensures Differs(nodes, pos, cwd, left, op, status, home, code)
  {
    var next, tail := ConnectiveOf(nodes[1]), nodes[2..];
    var p, q := Started(nodes[0], pos, cwd, left), PosixProcess(nodes[0], pos, cwd, left > 0);
    if RunFrom(tail, pos + 2, cwd, 0, rest) != PosixFrom(tail, pos + 2, cwd, false, true, GoOn(next), home, rest) {
      code := With(rest, pos, GoOn(next));
      assert SameFrom(pos + 2, rest, code);
      RunDependsOn(tail, pos + 2, cwd, 0, rest, code);
      PosixDependsOn(tail, pos + 2, cwd, false, true, GoOn(next), home, rest, code);
      Distinguish(p, RunFrom(tail, pos + 2, cwd, 0, code),
        q, PosixFrom(tail, pos + 2, cwd, false, true, GoOn(next), home, code));
    } else {
      code := With(rest, pos, Halt(next));
      assert SameFrom(pos + 2, rest, code);
      PosixDependsOn(tail, pos + 2, cwd, false, false, Halt(next), home, rest, code);
      assert GoesOn(tail, pos + 2, cwd, false, next, home, rest);
      Distinguish(p, Outcome(Some(Halt(next)), [], 0),
        q, PosixFrom(tail, pos + 2, cwd, false, false, Halt(next), home, code));
    }
  }

  // ----- The main result -----

  /** `run` starts the same processes and returns the same status as a POSIX shell, for all exit
      statuses, exactly when the pipeline is safe. */
  lemma AgreementIff(nodes: seq<Node>, home: string)
    requires WellFormed(nodes)
    ensures PosixSafe(nodes) <==>
      forall code: Code :: RunFrom(nodes, 0, ".", 0, code) == Posix(nodes, home, code)
  {
    SafeFromIff(nodes, ".", false, None);
    if PosixSafe(nodes) {
      forall code: Code ensures RunFrom(nodes, 0, ".", 0, code) == Posix(nodes, home, code) {
        PosixIsScanned(nodes, home, code);
        SafeAgree(nodes, 0, ".", 0, None, 0, home, code);
      }
    } else if EndsInCommand(nodes) {
      var code := UnsafeDiffers(nodes, 0, ".", 0, None, 0, home);
      PosixIsScanned(nodes, home, code);
      assert RunFrom(nodes, 0, ".", 0, code) != Posix(nodes, home, code);
    } else {
      SucceedsIff(nodes);
      var code: Code :| RunFrom(nodes, 0, ".", 0, code).status.None?;
      assert RunFrom(nodes, 0, ".", 0, code) != Posix(nodes, home, code);
    }
  }

  // ----- One pipeline for each way to differ -----

  function Cmd(name: string, stdin: Option<string>, stdout: Redirect): (cmd: Node)
    ensures cmd.Command?
  {
    Command([name], stdin, stdout, Inherit, map[])
  }

  function Simple(name: string): Node {
    Cmd(name, None, Inherit)
  }

  const CD: Node := Chdir(Some("d"))

  const ALL_SUCCEED: Code := (p: nat) => 0
  const ALL_FAIL: Code := (p: nat) => 1

  /** The run and the shell, given the same exit statuses. */
  ghost function Both(nodes: seq<Node>, home: string, code: Code): (Outcome, Outcome)
    requires WellFormed(nodes)
  {
    (RunFrom(nodes, 0, ".", 0, code), Posix(nodes, home, code))
  }

  /** `a && b || c`, with a failing: only the shell goes on to c. */
  lemma MixedDiffer(home: string)
    ensures var nodes := [Simple("a"), And, Simple("b"), Or, Simple("c")];
      && WellFormed(nodes) && !NotMixed(nodes)
      && var (run, posix) := Both(nodes, home, ALL_FAIL);
      |run.processes| == 1 && |posix.processes| == 2
  {
    var nodes := [Simple("a"), And, Simple("b"), Or, Simple("c")];
    assert nodes[2..] == [Simple("b"), Or, Simple("c")] && nodes[2..][2..] == [Simple("c")];
    assert nodes[1] == And && nodes[3] == Or;
    PosixIsScanned(nodes, home, ALL_FAIL);
  }

  /** What `cd d && b` does for the shell, when it is gone past or run in a pipeline. */
  lemma ChangeThenB(piped: bool, go: bool, home: string)
    requires piped ==> go
    ensures var nodes := [CD, And, Simple("b")];
      && WellFormed(nodes) && WellFormed([Simple("b")])
      && PosixFrom(nodes, 2, ".", piped, go, 0, home, ALL_SUCCEED).processes
         == [PosixProcess(Simple("b"), 4, if go && !piped then "./d" else ".", false)]
      && RunFrom(nodes, 2, ".", 1, ALL_SUCCEED).processes == [Started(Simple("b"), 4, "./d", 1)]
  {
    var nodes, b := [CD, And, Simple("b")], [Simple("b")];
    assert nodes[2..] == b && WellFormed(b);
    assert JoinDir(".", "d") == "./d";
    var dir := if go && !piped then "./d" else ".";
    assert PosixFrom(b, 4, dir, false, true, 0, home, ALL_SUCCEED).processes == [PosixProcess(b[0], 4, dir, false)];
    assert PosixFrom(nodes, 2, ".", piped, go, 0, home, ALL_SUCCEED)
      == After([], PosixFrom(b, 4, dir, false, true, 0, home, ALL_SUCCEED));
  }

  /** `a || cd d && b`, with a succeeding: only the shell starts b. */
  lemma ChangeAfterOrDiffers(home: string)
    ensures var nodes := [Simple("a"), Or, CD, And, Simple("b")];
      && WellFormed(nodes) && NotMixed(nodes) && !ChangesAfterAnd(nodes)
      && var (run, posix) := Both(nodes, home, ALL_SUCCEED);
      |run.processes| == 1 && |posix.processes| == 2
  {
    var nodes := [Simple("a"), Or, CD, And, Simple("b")];
    assert nodes[2..] == [CD, And, Simple("b")];
    ChangeThenB(false, false, home);
    assert AllJoins(nodes, ORELSE) && nodes[2].Chdir? && nodes[1].Or?;
    PosixIsScanned(nodes, home, ALL_SUCCEED);
  }

  /** `a | cd d && b`: for the run b reads from a and runs in d. */
  lemma ChangeAfterPipeDiffers(home: string)
    ensures var nodes := [Cmd("a", None, ToPipe), Pipe, CD, And, Simple("b")];
      && WellFormed(nodes) && NotMixed(nodes) && !ChangesAfterAnd(nodes)
      && var (run, posix) := Both(nodes, home, ALL_SUCCEED);
      && |run.processes| == |posix.processes| == 2
      && run.processes[1].stdin == FromPrevious && posix.processes[1].stdin == Inherited
      && run.processes[1].cwd == "./d" && posix.processes[1].cwd == "."
  {
    var nodes := [Cmd("a", None, ToPipe), Pipe, CD, And, Simple("b")];
    assert nodes[2..] == [CD, And, Simple("b")];
    ChangeThenB(true, true, home);
    assert AllJoins(nodes, ANDALSO) && nodes[2].Chdir? && nodes[1].Pipe?;
    PosixIsScanned(nodes, home, ALL_SUCCEED);
  }

  /** `a | b < f`: for the shell b reads from f. */
  lemma InputAfterPipeDiffers(home: string)
    ensures var nodes := [Cmd("a", None, ToPipe), Pipe, Cmd("b", Some("f"), Inherit)];
      && WellFormed(nodes) && !PipesAreRead(nodes)
      && var (run, posix) := Both(nodes, home, ALL_SUCCEED);
      && |run.processes| == |posix.processes| == 2
      && run.processes[1].stdin == FromPrevious && posix.processes[1].stdin == FromFile("./f")
  {
    var a, b := Cmd("a", None, ToPipe), Cmd("b", Some("f"), Inherit);
    var nodes := [a, Pipe, b];
    assert nodes[2..] == [b] && nodes[2].stdin.Some?;
    PosixIsScanned(nodes, home, ALL_SUCCEED);
  }

  /** `cd d && a > f`: the run opens f beside d, the shell within d. */
  lemma FileAfterChangeDiffers(home: string)
    ensures var nodes := [CD, And, Cmd("a", None, ToFile("f"))];
      && WellFormed(nodes) && !FilesStay(nodes, ".")
      && var (run, posix) := Both(nodes, home, ALL_SUCCEED);
      && |run.processes| == |posix.processes| == 1
      && run.processes[0].stdout == IntoFile("./f") && posix.processes[0].stdout == IntoFile("./d/f")
  {
    var a := Cmd("a", None, ToFile("f"));
    var nodes := [CD, And, a];
    assert nodes[2..] == [a] && nodes[2].Command? && WellFormed([a]) && WellFormed(nodes);
    assert DirAt(nodes, ".", 0) == "." && DirAt(nodes, ".", 1) == DirAt(nodes, ".", 2) == "./d";
    assert JoinDir("./d", "f") == "./d/f" && JoinDir(".", "f") == "./f" && JoinDir(".", "d") == "./d";
    assert OutPath("f") == "./f" && "./f"[2] != "./d/f"[2];
    PosixIsScanned(nodes, home, ALL_SUCCEED);
    assert RunFrom([a], 2, "./d", 0, ALL_SUCCEED).processes == [Started(a, 2, "./d", 0)];
    assert PosixFrom([a], 2, "./d", false, true, 0, home, ALL_SUCCEED).processes == [PosixProcess(a, 2, "./d", false)];
    assert PosixFrom(nodes, 0, ".", false, true, 0, home, ALL_SUCCEED)
      == After([], PosixFrom([a], 2, "./d", false, true, 0, home, ALL_SUCCEED));
    assert !FilesStayAt(nodes, ".", 2);
  }

  /** `a > NUL:`: the run discards the output, the shell writes a file of that name. */
  lemma NullNameDiffers(home: string)
    ensures var nodes := [Cmd("a", None, ToFile("NUL:"))];
      && WellFormed(nodes) && !FilesStay(nodes, ".")
      && var (run, posix) := Both(nodes, home, ALL_SUCCEED);
      && |run.processes| == |posix.processes| == 1
      && run.processes[0].stdout == IntoFile(NULL_DEVICE) && posix.processes[0].stdout == IntoFile("./NUL:")
  {
    var nodes := [Cmd("a", None, ToFile("NUL:"))];
    assert JoinDir(".", "NUL:") == "./NUL:" && "./NUL:"[0] != NULL_DEVICE[0];
    assert DirAt(nodes, ".", 0) == "." && !FilesStayAt(nodes, ".", 0);
    PosixIsScanned(nodes, home, ALL_SUCCEED);
  }

  /** `a || cd d`: the run fails only when it gets to the directory change. */
  lemma TrailingChangeFails(home: string)
    ensures var nodes := [Simple("a"), Or, CD];
      && WellFormed(nodes) && !EndsInCommand(nodes)
      && RunFrom(nodes, 0, ".", 0, ALL_SUCCEED).status == Some(0)
      && RunFrom(nodes, 0, ".", 0, ALL_FAIL).status == None && Posix(nodes, home, ALL_FAIL).status == Some(0)
  {
    var nodes := [Simple("a"), Or, CD];
    assert nodes[2..] == [CD];
    PosixIsScanned(nodes, home, ALL_FAIL);
  }

  /** `cd && b`: the run fails, and the shell runs b in the home directory. */
  lemma HomeDiffers(home: string)
    ensures var nodes := [Chdir(None), And, Simple("b")];
      && WellFormed(nodes) && !EndsInCommand(nodes)
      && var (run, posix) := Both(nodes, home, ALL_SUCCEED);
      run.status == None && |posix.processes| == 1 && posix.processes[0].cwd == JoinDir(".", home)
  {
    var nodes := [Chdir(None), And, Simple("b")];
    assert nodes[2..] == [Simple("b")] && nodes[0].Chdir?;
    PosixIsScanned(nodes, home, ALL_SUCCEED);
  }

  /** `cd d && a | b && c` is safe. */
  lemma SafeExample()
    ensures PosixSafe([CD, And, Cmd("a", None, ToPipe), Pipe, Simple("b"), And, Simple("c")])
  {
  }
}
