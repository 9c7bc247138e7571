/** Which processes a run starts, and what each of them is given, in terms of the nodes and the exit
    statuses alone. */
module ShellProcesses {
  import opened Options
  import opened Sequences
  import opened ShellRun
  import opened ShellSyntax

  // ----- Paths -----

  /** The directory after the directory changes before node `i`. */
  function DirAt(nodes: seq<Node>, cwd: string, i: nat): string
    requires i <= |nodes|
  {
    if i == 0 then cwd
    else
      var dir := DirAt(nodes, cwd, i - 1);
      if nodes[i - 1].Chdir? && nodes[i - 1].dir.Some? then JoinDir(dir, nodes[i - 1].dir.value) else dir
  }

  /** What separates a directory from what is looked up in it. */
  function Slash(cwd: string): string {
    if cwd == "" || cwd[|cwd| - 1] == '/' then "" else "/"
  }

  /** An absolute path stands for itself, and a relative one is looked up in the directory. */
  lemma JoinDirIs(cwd: string, dir: string)
    ensures JoinDir(cwd, dir) == if "/" <= dir then dir else cwd + Slash(cwd) + dir
    ensures JoinDir(".", "build") == "./build" && JoinDir("/usr/", "bin") == "/usr/bin"
  {
  }

  lemma SlashAfter(a: string, b: string)
    requires b != ""
    ensures Slash(a + b) == Slash(b)
  {
  }

  lemma JoinRelativeTwice(a: string, b: string, c: string)
    requires !("/" <= b) && !("/" <= c)
    ensures JoinDir(JoinDir(a, b), c) == JoinDir(a, JoinDir(b, c))
  {
    var inner, left := JoinDir(b, c), a + Slash(a);
    JoinDirIs(a, b);
    JoinDirIs(b, c);
    assert !("/" <= inner);
    JoinDirIs(left + b, c);
    JoinDirIs(a, inner);
    if b == "" {
      assert left + b == left && inner == c && Slash(left) == "";
      assert left + "" + c == left + c;
    } else {
      SlashAfter(left, b);
      Regroup(left, b + Slash(b), c);
      Regroup(left, b, Slash(b));
    }
    hide *;
  }

  /** Changing directory twice is changing once to the joined path. */
  lemma JoinDirTwice(a: string, b: string, c: string)
    ensures JoinDir(JoinDir(a, b), c) == JoinDir(a, JoinDir(b, c))
  {
    if "/" <= c {
      JoinDirIs(JoinDir(a, b), c);
    } else if "/" <= b {
      assert "/" <= JoinDir(b, c);
    } else {
      JoinRelativeTwice(a, b, c);
    }
  }

  // ----- What a process is given -----

  /** The target of a stream: the parent's unless it is redirected, a file exactly when one is named,
      the two names of the null device standing for the same one. */
  predicate TargetFits(r: Redirect, t: Target) {
    && (t.ToParent? <==> r.Inherit?)
    && (t.IntoPipe? <==> r.ToPipe?)
    && (t.WithStdout? <==> r.ToStdout?)
    && (t.IntoFile? <==> r.ToFile?)
    && (r.ToFile? && (r.name == "NUL:" || r.name == "/dev/null") ==> t.path == "/dev/null")
    && (r.ToFile? && r.name != "NUL:" && r.name != "/dev/null" ==> t.path == JoinDir(".", r.name))
  }

  /** The process is that of the command at its position. It writes into a pipe exactly when a pipe
      follows, and runs in the directory that the changes before it lead to. */
  ghost predicate Fits(nodes: seq<Node>, p: Process) {
    && p.pos < |nodes| && nodes[p.pos].Command?
    && p.argv == nodes[p.pos].argv && p.envVars == nodes[p.pos].envVars
    && p.cwd == DirAt(nodes, ".", p.pos)
    && TargetFits(nodes[p.pos].stdout, p.stdout) && TargetFits(nodes[p.pos].stderr, p.stderr)
    && (p.stdout.IntoPipe? <==> p.pos + 1 < |nodes| && nodes[p.pos + 1].Pipe?)
    && !p.stdout.WithStdout? && !p.stderr.IntoPipe?
    && (!p.stdin.FromPrevious? ==>
          p.stdin == match nodes[p.pos].stdin
                     case Some(name) => FromFile(JoinDir(".", name))
                     case None => Inherited)
  }

  // ----- Which commands are started -----

  /** The run gets past node `j`: a directory change names a directory, and the status before `&&` is
      0 and that before `||` is not. */
  predicate GoesPast(nodes: seq<Node>, code: Code, j: nat)
    requires j < |nodes|
  {
    && (nodes[j].Chdir? ==> nodes[j].dir.Some?)
    && (nodes[j].Command? && j + 1 < |nodes| && nodes[j + 1].And? ==> code(j) == 0)
    && (nodes[j].Command? && j + 1 < |nodes| && nodes[j + 1].Or? ==> code(j) != 0)
  }

  ghost predicate Gets(nodes: seq<Node>, code: Code, n: nat, i: nat)
    requires i <= |nodes|
  {
    forall j :: n <= j < i ==> GoesPast(nodes, code, j)
  }

  ghost predicate IsStarted(ps: seq<Process>, i: nat) {
    exists k :: 0 <= k < |ps| && ps[k].pos == i
  }

  /** Processes of commands from node `n` on, in the order of the nodes. */
  ghost predicate InPlace(nodes: seq<Node>, n: nat, ps: seq<Process>) {
    && (forall k :: 0 <= k < |ps| ==> n <= ps[k].pos && Fits(nodes, ps[k]))
    && (forall k, m :: 0 <= k < m < |ps| ==> ps[k].pos < ps[m].pos)
  }

  /** The first reads from a pipe if `left` processes of its group are running, and each other exactly
      when the process before it writes into one. */
  predicate Connected(left: nat, ps: seq<Process>) {
    && (ps != [] ==> (ps[0].stdin.FromPrevious? <==> left > 0))
    && (forall k, m :: 0 <= k < |ps| && m == k + 1 < |ps| ==> (ps[m].stdin.FromPrevious? <==> ps[k].stdout.IntoPipe?))
  }

  /** From node `n` on, the commands started are those that the run gets to. */
  ghost predicate Complete(nodes: seq<Node>, n: nat, code: Code, ps: seq<Process>) {
    forall i: nat :: n <= i < |nodes| && nodes[i].Command? ==> (IsStarted(ps, i) <==> Gets(nodes, code, n, i))
  }

  ghost predicate Described(nodes: seq<Node>, n: nat, left: nat, code: Code, ps: seq<Process>) {
    InPlace(nodes, n, ps) && Connected(left, ps) && Complete(nodes, n, code, ps)
  }

  lemma TargetOfFits(r: Redirect)
    ensures TargetFits(r, TargetOf(r))
  {
    hide JoinDir;
  }

  lemma CommandStands(nodes: seq<Node>, n: nat)
    requires n < |nodes| && WellFormed(nodes[n..]) && nodes[n].Command?
    ensures nodes[n].stdout.ToPipe? <==> n + 1 < |nodes| && nodes[n + 1].Pipe?
    ensures !nodes[n].stdout.ToStdout? && !nodes[n].stderr.ToPipe?
  {
    var here := nodes[n..];
    assert here[0] == nodes[n];
    assert n + 1 < |nodes| ==> here[1] == nodes[n + 1];
  }

  lemma StartedFits(nodes: seq<Node>, n: nat, left: nat)
    requires n < |nodes| && WellFormed(nodes[n..]) && nodes[n].Command?
    ensures var p := Started(nodes[n], n, DirAt(nodes, ".", n), left);
      Fits(nodes, p) && p.pos == n && (p.stdin.FromPrevious? <==> left > 0)
  {
    CommandStands(nodes, n);
    TargetOfFits(nodes[n].stdout);
    TargetOfFits(nodes[n].stderr);
    hide DirAt, JoinDir, TargetOf, WellFormed;
  }

  // ----- Node by node -----

  lemma GetsFurther(nodes: seq<Node>, code: Code, n: nat)
    requires n + 1 < |nodes| && IsOp(nodes[n + 1])
    ensures forall i: nat :: n + 2 <= i <= |nodes| ==>
      (Gets(nodes, code, n, i) <==> GoesPast(nodes, code, n) && Gets(nodes, code, n + 2, i))
  {
    forall i: nat | n + 2 <= i <= |nodes| && GoesPast(nodes, code, n) && Gets(nodes, code, n + 2, i)
      ensures Gets(nodes, code, n, i)
    {
      assert GoesPast(nodes, code, n + 1);
      forall j | n <= j < i ensures GoesPast(nodes, code, j) {
        assert j == n || j == n + 1 || j >= n + 2;
      }
    }
  }

  lemma DescribedPast(nodes: seq<Node>, n: nat, left: nat, code: Code, ps: seq<Process>)
    requires n + 1 < |nodes| && nodes[n].Chdir? && IsOp(nodes[n + 1])
    requires nodes[n].dir.Some? && Described(nodes, n + 2, left, code, ps)
    ensures Described(nodes, n, left, code, ps)
  {
    GetsFurther(nodes, code, n);
    assert GoesPast(nodes, code, n);
    hide Fits, Gets, GoesPast, IsStarted;
  }

  lemma InPlaceMore(nodes: seq<Node>, n: nat, p: Process, rest: seq<Process>)
    requires p.pos == n && Fits(nodes, p) && InPlace(nodes, n + 2, rest)
    ensures InPlace(nodes, n, [p] + rest)
  {
    hide Fits;
  }

  lemma ConnectedMore(left: nat, p: Process, next: nat, rest: seq<Process>)
    requires (p.stdin.FromPrevious? <==> left > 0) && (p.stdout.IntoPipe? <==> next > 0) && Connected(next, rest)
    ensures Connected(left, [p] + rest)
  {
  }

  lemma StartedMore(p: Process, rest: seq<Process>, i: nat)
    ensures IsStarted([p] + rest, i) <==> p.pos == i || IsStarted(rest, i)
  {
    var ps := [p] + rest;
    assert ps[0] == p;
    if IsStarted(rest, i) {
      var k :| 0 <= k < |rest| && rest[k].pos == i;
      assert ps[k + 1].pos == i;
    }
  }

  lemma CompleteMore(nodes: seq<Node>, n: nat, code: Code, p: Process, rest: seq<Process>)
    requires n + 1 < |nodes| && IsOp(nodes[n + 1]) && GoesPast(nodes, code, n) && p.pos == n
    requires Complete(nodes, n + 2, code, rest)
    ensures Complete(nodes, n, code, [p] + rest)
  {
    GetsFurther(nodes, code, n);
    assert Gets(nodes, code, n, n);
    hide Gets, GoesPast, IsStarted;
    forall i: nat | n <= i < |nodes| && nodes[i].Command?
      ensures IsStarted([p] + rest, i) <==> Gets(nodes, code, n, i)
    {
      StartedMore(p, rest, i);
    }
  }

  lemma CompleteOne(nodes: seq<Node>, n: nat, code: Code, p: Process)
    requires n < |nodes| && (n + 1 < |nodes| ==> IsOp(nodes[n + 1]) && !GoesPast(nodes, code, n)) && p.pos == n
    ensures Complete(nodes, n, code, [p])
  {
    assert Gets(nodes, code, n, n);
    assert [p][0].pos == n;
    hide GoesPast;
  }

  lemma DescribedNone(nodes: seq<Node>, n: nat, left: nat, code: Code)
    requires n < |nodes| && nodes[n].Chdir? && (n == |nodes| - 1 || nodes[n].dir.None?)
    ensures Described(nodes, n, left, code, [])
  {
    assert nodes[n].dir.None? ==> !GoesPast(nodes, code, n);
    hide GoesPast;
  }

  /** What a suffix of well-formed nodes starts with. */
  lemma SuffixHead(nodes: seq<Node>, n: nat)
    requires n < |nodes| && WellFormed(nodes[n..])
    ensures nodes[n].Command? || nodes[n].Chdir?
    ensures nodes[n..][0] == nodes[n] && |nodes[n..]| == |nodes| - n
    ensures n + 1 < |nodes| ==>
      && nodes[n..][1] == nodes[n + 1] && IsOp(nodes[n + 1])
      && n + 2 < |nodes| && nodes[n..][2..] == nodes[n + 2..] && WellFormed(nodes[n + 2..])
      && DirAt(nodes, ".", n + 2)
           == if nodes[n].Chdir? && nodes[n].dir.Some? then JoinDir(DirAt(nodes, ".", n), nodes[n].dir.value)
              else DirAt(nodes, ".", n)
  {
    Head(nodes[n..]);
    if n + 1 < |nodes| {
      assert DirAt(nodes, ".", n + 2) == DirAt(nodes, ".", n + 1);
    }
  }

  /** What the run does after the command at node `n`, which it has started as `p`. */
  lemma CommandIsDescribed(nodes: seq<Node>, n: nat, left: nat, code: Code, p: Process, rest: seq<Process>)
    requires n < |nodes| && nodes[n].Command? && p.pos == n && Fits(nodes, p) && (p.stdin.FromPrevious? <==> left > 0)
    requires n + 1 < |nodes| ==> IsOp(nodes[n + 1])
    requires n + 1 < |nodes| && GoesPast(nodes, code, n) ==>
      Described(nodes, n + 2, if nodes[n + 1].Pipe? then left + 1 else 0, code, rest)
    requires n + 1 == |nodes| || !GoesPast(nodes, code, n) ==> rest == []
    ensures Described(nodes, n, left, code, [p] + rest)
  {
    if n + 1 < |nodes| && GoesPast(nodes, code, n) {
      assert p.stdout.IntoPipe? <==> nodes[n + 1].Pipe?;
      InPlaceMore(nodes, n, p, rest);
      ConnectedMore(left, p, if nodes[n + 1].Pipe? then left + 1 else 0, rest);
      CompleteMore(nodes, n, code, p, rest);
    } else {
      assert [p] + rest == [p];
      CompleteOne(nodes, n, code, p);
    }
    hide Fits, GoesPast, Complete;
  }

  lemma StopsIff(nodes: seq<Node>, n: nat, code: Code)
    requires n < |nodes| && nodes[n].Command? && (n + 1 < |nodes| ==> IsOp(nodes[n + 1]))
    ensures Stops(nodes[n..], code(n)) <==> n + 1 == |nodes| || !GoesPast(nodes, code, n)
    ensures n + 1 < |nodes| && nodes[n + 1].Pipe? ==> GoesPast(nodes, code, n)
  {
  }

  lemma AfterParts(ps: seq<Process>, r: Outcome)
    ensures After(ps, r).processes == ps + r.processes
    ensures After(ps, r).status == r.status && After(ps, r).left == r.left
  {
  }

  /** A run starts the commands it gets to, in order, each with what it is due. */
  lemma {:induction false} RunIsDescribed(nodes: seq<Node>, n: nat, left: nat, code: Code)
    requires n < |nodes| && WellFormed(nodes[n..])
    ensures Described(nodes, n, left, code, RunFrom(nodes[n..], n, DirAt(nodes, ".", n), left, code).processes)
    decreases |nodes| - n
  {
    hide *;
    SuffixHead(nodes, n);
    var here, cwd := nodes[n..], DirAt(nodes, ".", n);
    if nodes[n].Chdir? {
      PastChdir(here, n, cwd, left, code);
      if n == |nodes| - 1 || nodes[n].dir.None? {
        DescribedNone(nodes, n, left, code);
      } else {
        RunIsDescribed(nodes, n + 2, left, code);
        DescribedPast(nodes, n, left, code, RunFrom(here, n, cwd, left, code).processes);
      }
    } else {
      StopsIff(nodes, n, code);
      if n + 1 < |nodes| {
        RunIsDescribed(nodes, n + 2, if nodes[n + 1].Pipe? then left + 1 else 0, code);
      }
      RunCommand(here, n, cwd, left, code);
      PastCommand(here, n, cwd, left, code);
      StartedFits(nodes, n, left);
      var p, r := Started(nodes[n], n, cwd, left), AfterCommand(here, n, cwd, left, code);
      AfterParts([p], r);
      CommandIsDescribed(nodes, n, left, code, p, r.processes);
    }
  }

  // ----- How the run ends -----

  /** Of `left` processes running before them and of `ps`, the last `open` are those after the last
      process that does not write into a pipe. */
  predicate Unfinished(left: nat, ps: seq<Process>, open: nat) {
    && (open < |ps| ==> !ps[|ps| - 1 - open].stdout.IntoPipe?)
    && (open >= |ps| ==> open == left + |ps|)
    && forall k :: 0 <= k < |ps| && |ps| - open <= k ==> ps[k].stdout.IntoPipe?
  }

  /** The status is that of the last process started; after an error the processes of the group it
      was in have not been waited for. */
  ghost predicate EndFits(left: nat, code: Code, r: Outcome) {
    match r.status
    case Some(status) => r.processes != [] && status == code(r.processes[|r.processes| - 1].pos)
    case None => Unfinished(left, r.processes, r.left)
  }

  lemma EndFitsMore(left: nat, code: Code, p: Process, next: nat, r: Outcome)
    requires next == (if p.stdout.IntoPipe? then left + 1 else 0) && EndFits(next, code, r)
    ensures EndFits(left, code, After([p], r))
  {
    var ps := [p] + r.processes;
    assert forall k :: 0 < k < |ps| ==> ps[k] == r.processes[k - 1];
  }

  lemma EndFitsOne(left: nat, code: Code, p: Process)
    ensures EndFits(left, code, After([p], Outcome(Some(code(p.pos)), [], 0)))
  {
  }

  lemma EndFitsNone(left: nat, code: Code)
    ensures EndFits(left, code, Outcome(None, [], left))
  {
  }

  lemma {:induction false} RunEndFits(nodes: seq<Node>, n: nat, left: nat, code: Code)
    requires n < |nodes| && WellFormed(nodes[n..])
    ensures EndFits(left, code, RunFrom(nodes[n..], n, DirAt(nodes, ".", n), left, code))
    decreases |nodes| - n
  {
    hide *;
    SuffixHead(nodes, n);
    var here, cwd := nodes[n..], DirAt(nodes, ".", n);
    if nodes[n].Chdir? {
      PastChdir(here, n, cwd, left, code);
      EndFitsNone(left, code);
      if n < |nodes| - 1 {
        RunEndFits(nodes, n + 2, left, code);
      }
    } else {
      var p := Started(nodes[n], n, cwd, left);
      EndFitsOne(left, code, p);
      StartedFits(nodes, n, left);
      FitsPipe(nodes, p);
      RunCommand(here, n, cwd, left, code);
      PastCommand(here, n, cwd, left, code);
      if n < |nodes| - 1 {
        var next := if nodes[n + 1].Pipe? then left + 1 else 0;
        RunEndFits(nodes, n + 2, next, code);
        if nodes[n + 1].Pipe? || !Stops(here, code(n)) {
          EndFitsMore(left, code, p, next, AfterCommand(here, n, cwd, left, code));
        }
      } else {
        LastStops(here, code(n));
      }
    }
  }

  lemma FitsPipe(nodes: seq<Node>, p: Process)
    requires Fits(nodes, p)
    ensures p.stdout.IntoPipe? <==> p.pos + 1 < |nodes| && nodes[p.pos + 1].Pipe?
  {
  }

  lemma LastStops(nodes: seq<Node>, status: int)
    requires |nodes| == 1
    ensures Stops(nodes, status)
  {
  }

  /** The run gets to a directory change that comes last or names no directory. */
  ghost predicate GetsStuck(nodes: seq<Node>, n: nat, code: Code) {
    exists i :: n <= i < |nodes| && BadChdir(nodes, i) && Gets(nodes, code, n, i)
  }

  lemma StuckFurther(nodes: seq<Node>, n: nat, code: Code)
    requires n + 1 < |nodes| && IsOp(nodes[n + 1]) && !BadChdir(nodes, n)
    ensures GetsStuck(nodes, n, code) <==> GoesPast(nodes, code, n) && GetsStuck(nodes, n + 2, code)
  {
    GetsFurther(nodes, code, n);
    hide GoesPast, Gets;
  }

  lemma StuckHere(nodes: seq<Node>, n: nat, code: Code)
    requires BadChdir(nodes, n) || (n == |nodes| - 1 && !nodes[n].Chdir?)
    ensures GetsStuck(nodes, n, code) <==> BadChdir(nodes, n)
  {
    assert Gets(nodes, code, n, n);
  }

  lemma {:induction false} StuckIff(nodes: seq<Node>, n: nat, left: nat, code: Code)
    requires n < |nodes| && WellFormed(nodes[n..])
    ensures RunFrom(nodes[n..], n, DirAt(nodes, ".", n), left, code).status.None? <==> GetsStuck(nodes, n, code)
    decreases |nodes| - n
  {
    SuffixHead(nodes, n);
    var here, cwd := nodes[n..], DirAt(nodes, ".", n);
    assert BadChdir(nodes, n) <==> nodes[n].Chdir? && (n == |nodes| - 1 || nodes[n].dir.None?);
    assert nodes[n].Chdir? && nodes[n].dir.Some? ==> GoesPast(nodes, code, n);
    hide *;
    if BadChdir(nodes, n) || n == |nodes| - 1 {
      StuckHere(nodes, n, code);
    } else {
      StuckFurther(nodes, n, code);
      StuckIff(nodes, n + 2, if nodes[n].Chdir? then left else if nodes[n + 1].Pipe? then left + 1 else 0, code);
    }
    if nodes[n].Chdir? {
      PastChdir(here, n, cwd, left, code);
    } else {
      StopsIff(nodes, n, code);
      RunCommand(here, n, cwd, left, code);
      PastCommand(here, n, cwd, left, code);
      AfterParts([Started(nodes[n], n, cwd, left)], AfterCommand(here, n, cwd, left, code));
    }
  }

  // ----- The whole run -----

  /** A run starts exactly the commands it gets to, in order, each with its own words and
      environment, in the directory of the changes before it, with its streams redirected as written
      and connected by pipes to its neighbours. It fails exactly when it gets to a directory change
      that comes last or names no directory, and otherwise returns the status of the last process. */
  lemma ProcessesOfRun(nodes: seq<Node>, code: Code)
    requires WellFormed(nodes)
    ensures var r := RunFrom(nodes, 0, ".", 0, code);
      && InPlace(nodes, 0, r.processes) && Connected(0, r.processes) && Complete(nodes, 0, code, r.processes)
      && EndFits(0, code, r)
      && (r.status.None? <==> GetsStuck(nodes, 0, code))
  {
    assert nodes[0..] == nodes && DirAt(nodes, ".", 0) == ".";
    assert nodes != [];
    RunIsDescribed(nodes, 0, 0, code);
    RunEndFits(nodes, 0, 0, code);
    StuckIff(nodes, 0, 0, code);
    hide InPlace, Connected, Complete, EndFits, GetsStuck, RunFrom;
  }

  /** The files opened for a process are those that its streams name, other than the null device. */
  lemma FilesOfAre(p: Process, path: string)
    ensures path in FilesOf(p) <==>
      || p.stdin == FromFile(path)
      || (path != "/dev/null" && (p.stdout == IntoFile(path) || p.stderr == IntoFile(path)))
  {
  }
}
