/** The nodes of a command pipeline, and the parser as a machine that takes one token at a time. */
module ShellSyntax {
  import opened Options

  // ----- Nodes -----

  datatype Redirect = Inherit | ToFile(name: string) | ToPipe | ToStdout

  /** A command without environment assignments has the empty map. */
  datatype Node =
    | Command(argv: seq<string>, stdin: Option<string>, stdout: Redirect, stderr: Redirect,
        envVars: map<string, string>)
    | Chdir(dir: Option<string>)
    | Pipe | And | Or

  function NewCommand(name: string, envVars: map<string, string>): Node {
    Command([name], None, Inherit, Inherit, envVars)
  }

  predicate IsOp(n: Node) {
    n.Pipe? || n.And? || n.Or?
  }

  /** What may follow the node: output goes to a pipe exactly when a pipe follows, and a
      directory change comes last or is followed by `&&`. */
  predicate StandsBefore(n: Node, next: Option<Node>) {
    match n
    case Command(argv, _, stdout, stderr, _) =>
      argv != [] && stdout != ToStdout && stderr != ToPipe && (stdout == ToPipe <==> next == Some(Pipe))
    case Chdir(_) => next == None || next == Some(And)
    case _ => false
  }

  /** Commands, or directory changes, and operators alternate, and no operator comes last. */
  predicate WellFormed(nodes: seq<Node>) {
    if |nodes| <= 1 then nodes != [] && StandsBefore(nodes[0], None)
    else StandsBefore(nodes[0], Some(nodes[1])) && IsOp(nodes[1]) && WellFormed(nodes[2..])
  }

  // ----- Environment assignments -----

  predicate IsNameChar(c: char) {
    'a' <= c <= 'z' || 'A' <= c <= 'Z' || '0' <= c <= '9' || c == '_'
  }

  predicate IsSpace(c: char) {
    c == ' ' || '\t' <= c <= '\r'
  }

  predicate IsName(s: string) {
    s != "" && forall i :: 0 <= i < |s| ==> IsNameChar(s[i])
  }

  predicate IsValue(s: string) {
    s != "" && forall i :: 0 <= i < |s| ==> !IsSpace(s[i])
  }

  function FirstEquals(s: string): (n: nat)
    ensures n <= |s| && (n < |s| ==> s[n] == '=') && forall i :: 0 <= i < n ==> s[i] != '='
  {
    if s == "" || s[0] == '=' then 0 else 1 + FirstEquals(s[1..])
  }

  /** The name and value of an assignment token. The end of the token may be preceded by one
      newline, which belongs to neither. */
  function MatchEnv(token: string): Option<(string, string)> {
    var n := FirstEquals(token);
    if n == |token| || !IsName(token[..n]) then None
    else
      var value := token[n + 1..];
      if IsValue(value) then Some((token[..n], value))
      else if value != "" && value[|value| - 1] == '\n' && IsValue(value[..|value| - 1])
      then Some((token[..n], value[..|value| - 1]))
      else None
  }

  // ----- The token machine -----

  datatype ParseState = BEGIN | COMMAND | CHDIR | STDERR | STDOUT | STDIN

  datatype Machine = Machine(state: ParseState, current: Option<Node>, envVars: map<string, string>,
    nodes: seq<Node>)

  ghost predicate ValidMachine(m: Machine) {
    match m.state
    case BEGIN => m.current.None?
    case CHDIR => m.current.Some? && m.current.value.Chdir?
    case _ => m.current.Some? && m.current.value.Command?
  }

  const START := Machine(BEGIN, None, map[], [])

  function Commit(m: Machine, op: Node): Machine
    requires m.current.Some?
  {
    Machine(BEGIN, None, m.envVars, m.nodes + [m.current.value] + [op])
  }

  /** The machine after one more token, or nothing when an assertion fails. */
  function Next(m: Machine, token: string): (r: Option<Machine>)
    requires ValidMachine(m)
    ensures r.Some? ==> ValidMachine(r.value)
  {
    match m.state
    case BEGIN =>
      if MatchEnv(token).Some? then
        Some(m.(envVars := m.envVars[MatchEnv(token).value.0 := MatchEnv(token).value.1]))
      else if token == "cd" then
        if m.envVars != map[] then None else Some(m.(current := Some(Chdir(None)), state := CHDIR))
      else
        Some(m.(current := Some(NewCommand(token, m.envVars)), envVars := map[], state := COMMAND))
    case COMMAND =>
      var c := m.current.value;
      if token == ">" then Some(m.(state := STDOUT))
      else if token == "2>" then Some(m.(state := STDERR))
      else if token == "2>&1" then
        if c.stderr != Inherit then None else Some(m.(current := Some(c.(stderr := ToStdout))))
      else if token == "<" then Some(m.(state := STDIN))
      else if token == "|" then
        if c.stdout != Inherit then None
        else Some(Commit(m.(current := Some(c.(stdout := ToPipe))), Pipe))
      else if token == "&&" then Some(Commit(m, And))
      else if token == "||" then Some(Commit(m, Or))
      else Some(m.(current := Some(c.(argv := c.argv + [token]))))
    case CHDIR =>
      if token == "&&" then Some(Commit(m, And))
      else if m.current.value.dir.Some? then None
      else Some(m.(current := Some(Chdir(Some(token)))))
    case STDOUT =>
      var c := m.current.value;
      if c.stdout != Inherit then None
      else Some(m.(current := Some(c.(stdout := ToFile(token))), state := COMMAND))
    case STDERR =>
      var c := m.current.value;
      if c.stderr != Inherit then None
      else Some(m.(current := Some(c.(stderr := ToFile(token))), state := COMMAND))
    case STDIN =>
      var c := m.current.value;
      if c.stdin.Some? then None
      else Some(m.(current := Some(c.(stdin := Some(token))), state := COMMAND))
  }

  function Feed(m: Machine, tokens: seq<string>): (r: Option<Machine>)
    requires ValidMachine(m)
    ensures r.Some? ==> ValidMachine(r.value)
    decreases |tokens|
  {
    if tokens == [] then Some(m)
    else if Next(m, tokens[0]).None? then None
    else Feed(Next(m, tokens[0]).value, tokens[1..])
  }

  /** The last commit fails when no command has been started. */
  function Finish(m: Machine): Option<seq<Node>> {
    if m.current.None? then None else Some(m.nodes + [m.current.value])
  }

  function ParseFrom(m: Machine, tokens: seq<string>): Option<seq<Node>>
    requires ValidMachine(m)
  {
    if Feed(m, tokens).None? then None else Finish(Feed(m, tokens).value)
  }

  function Parsed(tokens: seq<string>): Option<seq<Node>> {
    ParseFrom(START, tokens)
  }

  lemma {:induction false} FeedAppend(m: Machine, a: seq<string>, b: seq<string>)
    requires ValidMachine(m)
    ensures Feed(m, a + b) == if Feed(m, a).None? then None else Feed(Feed(m, a).value, b)
    decreases |a|
  {
    if a == [] {
      assert a + b == b;
    } else {
      assert (a + b)[1..] == a[1..] + b;
      if Next(m, a[0]).Some? {
        FeedAppend(Next(m, a[0]).value, a[1..], b);
      }
    }
  }

  // ----- The class -----

  /** A failed assertion shows as the result None. */
  class Pipeline {
    var currentCommand: Option<Node>
    var pipeline: seq<Node>

    constructor ()
      ensures currentCommand == None && pipeline == []
    {
      currentCommand, pipeline := None, [];
    }

    method CommitCommand() returns (ok: bool)
      modifies this
      ensures ok <==> old(currentCommand).Some?
      ensures ok ==> pipeline == old(pipeline) + [old(currentCommand).value] && currentCommand == None
      ensures !ok ==> pipeline == old(pipeline) && currentCommand == old(currentCommand)
    {
      if currentCommand.None? {
        return false;
      }
      pipeline := pipeline + [currentCommand.value];
      currentCommand := None;
      return true;
    }

    method Parse(command: seq<string>) returns (r: Option<seq<Node>>)
      modifies this
      ensures r == Parsed(command)
      ensures r.Some? ==> pipeline == r.value && currentCommand == None
    {
      currentCommand, pipeline := None, [];
      var tokens := command;
      var state := BEGIN;
      var envVars: map<string, string> := map[];
      while tokens != []
        invariant ValidMachine(Machine(state, currentCommand, envVars, pipeline))
        invariant ParseFrom(Machine(state, currentCommand, envVars, pipeline), tokens) == Parsed(command)
      {
        ghost var before := Machine(state, currentCommand, envVars, pipeline);
        var token := tokens[0];
        tokens := tokens[1..];
        match state {
          case BEGIN =>
            var envVarMatch := MatchEnv(token);
            if envVarMatch.Some? {
              envVars := envVars[envVarMatch.value.0 := envVarMatch.value.1];
            } else if token == "cd" {
              currentCommand := Some(Chdir(None));
              if envVars != map[] {
                return None;
              }
              state := CHDIR;
            } else {
              currentCommand := Some(NewCommand(token, map[]));
              if envVars != map[] {
                currentCommand := Some(currentCommand.value.(envVars := envVars));
                envVars := map[];
              }
              state := COMMAND;
            }
          case COMMAND =>
            if token == ">" {
              state := STDOUT;
            } else if token == "2>" {
              state := STDERR;
            } else if token == "2>&1" {
              if currentCommand.value.stderr != Inherit {
                return None;
              }
              currentCommand := Some(currentCommand.value.(stderr := ToStdout));
            } else if token == "<" {
              state := STDIN;
            } else if token == "|" {
              if currentCommand.value.stdout != Inherit {
                return None;
              }
              currentCommand := Some(currentCommand.value.(stdout := ToPipe));
              var _ := CommitCommand();
              pipeline := pipeline + [Pipe];
              state := BEGIN;
            } else if token == "&&" {
              var _ := CommitCommand();
              pipeline := pipeline + [And];
              state := BEGIN;
            } else if token == "||" {
              var _ := CommitCommand();
              pipeline := pipeline + [Or];
              state := BEGIN;
            } else {
              currentCommand := Some(currentCommand.value.(argv := currentCommand.value.argv + [token]));
            }
          case CHDIR =>
            if token == "&&" {
              var _ := CommitCommand();
              pipeline := pipeline + [And];
              state := BEGIN;
            } else {
              if currentCommand.value.dir.Some? {
                return None;
              }
              currentCommand := Some(Chdir(Some(token)));
            }
          case STDOUT =>
            if currentCommand.value.stdout != Inherit {
              return None;
            }
            currentCommand := Some(currentCommand.value.(stdout := ToFile(token)));
            state := COMMAND;
          case STDERR =>
            if currentCommand.value.stderr != Inherit {
              return None;
            }
            currentCommand := Some(currentCommand.value.(stderr := ToFile(token)));
            state := COMMAND;
          case STDIN =>
            if currentCommand.value.stdin.Some? {
              return None;
            }
            currentCommand := Some(currentCommand.value.(stdin := Some(token)));
            state := COMMAND;
        }
        assert Next(before, token) == Some(Machine(state, currentCommand, envVars, pipeline));
      }
      var ok := CommitCommand();
      if !ok {
        return None;
      }
      return Some(pipeline);
    }
  }
}
