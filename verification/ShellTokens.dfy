/** What the tokens stand for, written out: assignments character by character, and short
    pipelines of any words. */
module ShellTokens {
  import opened Options
  import opened ShellGrammar
  import opened ShellSyntax

  // ----- Assignments -----

  /** A token is an assignment exactly when it is a name of letters, digits and underscores, an
      equals sign and a value without white space, and perhaps a newline at the end. */
  lemma MatchEnvIff(token: string, k: string, v: string)
    ensures MatchEnv(token) == Some((k, v)) <==>
      && (token == k + "=" + v || token == k + "=" + v + "\n")
      && k != "" && v != ""
      && (forall i :: 0 <= i < |k| ==>
            'a' <= k[i] <= 'z' || 'A' <= k[i] <= 'Z' || '0' <= k[i] <= '9' || k[i] == '_')
      && (forall i :: 0 <= i < |v| ==> v[i] != ' ' && !('\t' <= v[i] <= '\r'))
  {
    if MatchEnv(token) == Some((k, v)) {
      MatchEnvFound(token);
    }
    if IsName(k) && IsValue(v) && token == k + "=" + v {
      AssignmentMatches(k, v);
    }
    if IsName(k) && IsValue(v) && token == k + "=" + v + "\n" {
      AssignmentWithNewline(k, v);
    }
  }

  lemma MatchEnvFound(token: string)
    requires MatchEnv(token).Some?
    ensures var (k, v) := MatchEnv(token).value;
      IsName(k) && IsValue(v) && (token == k + "=" + v || token == k + "=" + v + "\n")
  {
    var (k, v) := MatchEnv(token).value;
    var tail := token[|k| + 1..];
    assert token == k + "=" + tail;
    assert tail != v ==> tail == v + "\n" && k + "=" + (v + "\n") == k + "=" + v + "\n";
  }

  lemma AssignmentWithNewline(k: string, v: string)
    requires IsName(k) && IsValue(v)
    ensures MatchEnv(k + "=" + v + "\n") == Some((k, v))
  {
    var tail := v + "\n";
    var token := k + "=" + tail;
    assert token == k + "=" + v + "\n";
    FirstEqualsAfterName(k, tail);
    assert token[..|k|] == k && token[|k| + 1..] == tail;
    assert tail[|v|] == '\n' && tail[..|v|] == v;
  }

  // ----- Tokens -----

  /** In the middle of a command. */
  function Within(nodes: seq<Node>, c: Node): Machine {
    Machine(COMMAND, Some(c), map[], nodes)
  }

  /** Before a command, with the assignments made for it. */
  function Ahead(nodes: seq<Node>, envVars: map<string, string>): Machine {
    Machine(BEGIN, None, envVars, nodes)
  }

  lemma OneStep(m: Machine, token: string, rest: seq<string>)
    requires ValidMachine(m)
    ensures ParseFrom(m, [token] + rest)
      == if Next(m, token).None? then None else ParseFrom(Next(m, token).value, rest)
  {
  }

  lemma TwoSteps(m: Machine, a: string, b: string, rest: seq<string>)
    requires ValidMachine(m) && Next(m, a).Some?
    ensures ParseFrom(m, [a, b] + rest)
      == if Next(Next(m, a).value, b).None? then None else ParseFrom(Next(Next(m, a).value, b).value, rest)
  {
    assert [a, b] + rest == [a] + ([b] + rest);
    OneStep(m, a, [b] + rest);
    OneStep(Next(m, a).value, b, rest);
    hide *;
  }

  /** Each redirection sets its stream, once. */
  lemma RedirectsParse(nodes: seq<Node>, c: Node, file: string, rest: seq<string>)
    requires c.Command?
    ensures ParseFrom(Within(nodes, c), ["<", file] + rest)
      == if c.stdin.Some? then None else ParseFrom(Within(nodes, c.(stdin := Some(file))), rest)
    ensures ParseFrom(Within(nodes, c), [">", file] + rest)
      == if !c.stdout.Inherit? then None else ParseFrom(Within(nodes, c.(stdout := ToFile(file))), rest)
    ensures ParseFrom(Within(nodes, c), ["2>", file] + rest)
      == if !c.stderr.Inherit? then None else ParseFrom(Within(nodes, c.(stderr := ToFile(file))), rest)
    ensures ParseFrom(Within(nodes, c), ["2>&1"] + rest)
      == if !c.stderr.Inherit? then None else ParseFrom(Within(nodes, c.(stderr := ToStdout)), rest)
  {
    var m := Within(nodes, c);
    TwoSteps(m, "<", file, rest);
    TwoSteps(m, ">", file, rest);
    TwoSteps(m, "2>", file, rest);
    OneStep(m, "2>&1", rest);
    hide ParseFrom;
  }

  /** An operator ends the command, and a pipe takes its output; other words are arguments. */
  lemma OperatorsParse(nodes: seq<Node>, c: Node, word: string, rest: seq<string>)
    requires c.Command?
    ensures ParseFrom(Within(nodes, c), ["|"] + rest)
      == if !c.stdout.Inherit? then None
         else ParseFrom(Ahead(nodes + [c.(stdout := ToPipe)] + [Pipe], map[]), rest)
    ensures ParseFrom(Within(nodes, c), ["&&"] + rest) == ParseFrom(Ahead(nodes + [c] + [And], map[]), rest)
    ensures ParseFrom(Within(nodes, c), ["||"] + rest) == ParseFrom(Ahead(nodes + [c] + [Or], map[]), rest)
    ensures word !in {"<", ">", "2>", "2>&1", "|", "&&", "||"} ==>
      ParseFrom(Within(nodes, c), [word] + rest) == ParseFrom(Within(nodes, c.(argv := c.argv + [word])), rest)
    ensures ParseFrom(Within(nodes, c), []) == Some(nodes + [c])
  {
    var m := Within(nodes, c);
    OneStep(m, "|", rest);
    OneStep(m, "&&", rest);
    OneStep(m, "||", rest);
    OneStep(m, word, rest);
    assert ParseFrom(m, []) == Finish(m);
    hide ParseFrom;
  }

  /** Before a command come assignments; `cd` allows none. Any other word names the command, and a
      command must come. */
  lemma BeginningsParse(nodes: seq<Node>, envVars: map<string, string>, word: string, rest: seq<string>)
    ensures MatchEnv(word).Some? ==>
      var (k, v) := MatchEnv(word).value;
      ParseFrom(Ahead(nodes, envVars), [word] + rest) == ParseFrom(Ahead(nodes, envVars[k := v]), rest)
    ensures MatchEnv(word).None? && word != "cd" ==>
      ParseFrom(Ahead(nodes, envVars), [word] + rest)
      == ParseFrom(Within(nodes, Command([word], None, Inherit, Inherit, envVars)), rest)
    ensures ParseFrom(Ahead(nodes, envVars), []) == None
  {
    var m := Ahead(nodes, envVars);
    OneStep(m, word, rest);
    assert ParseFrom(m, []) == Finish(m);
    hide ParseFrom;
  }

  /** A directory change is followed by `&&` or by nothing. */
  lemma ChangesParse(nodes: seq<Node>, envVars: map<string, string>, dir: string, word: string, rest: seq<string>)
    requires dir != "&&"
    ensures envVars != map[] ==> ParseFrom(Ahead(nodes, envVars), ["cd"] + rest) == None
    ensures ParseFrom(Ahead(nodes, map[]), ["cd"]) == Some(nodes + [Chdir(None)])
    ensures ParseFrom(Ahead(nodes, map[]), ["cd", dir]) == Some(nodes + [Chdir(Some(dir))])
    ensures ParseFrom(Ahead(nodes, map[]), ["cd", "&&"] + rest)
      == ParseFrom(Ahead(nodes + [Chdir(None)] + [And], map[]), rest)
    ensures ParseFrom(Ahead(nodes, map[]), ["cd", dir] + (["&&"] + rest))
      == ParseFrom(Ahead(nodes + [Chdir(Some(dir))] + [And], map[]), rest)
    ensures word != "&&" ==> ParseFrom(Ahead(nodes, map[]), ["cd", dir] + ([word] + rest)) == None
  {
    var m, named := Ahead(nodes, map[]), Machine(CHDIR, Some(Chdir(Some(dir))), map[], nodes);
    OneStep(Ahead(nodes, envVars), "cd", rest);
    OneStep(m, "cd", []);
    TwoSteps(m, "cd", dir, []);
    TwoSteps(m, "cd", "&&", rest);
    TwoSteps(m, "cd", dir, ["&&"] + rest);
    TwoSteps(m, "cd", dir, [word] + rest);
    OneStep(named, "&&", rest);
    OneStep(named, word, rest);
    assert ["cd"] + [] == ["cd"] && ["cd", dir] + [] == ["cd", dir];
    assert MatchEnv("cd").None?;
  }

  /** A whole pipeline. */
  lemma CommandParses(word: string, file: string)
    requires MatchEnv(word).None? && word != "cd"
    ensures Parsed([word, ">", file]) == Some([Command([word], None, ToFile(file), Inherit, map[])])
  {
    var c := Command([word], None, Inherit, Inherit, map[]);
    assert [word, ">", file] == [word] + [">", file] && [">", file] + [] == [">", file];
    assert Parsed([word] + [">", file]) == ParseFrom(Ahead([], map[]), [word] + [">", file]);
    assert [] + [c.(stdout := ToFile(file))] == [c.(stdout := ToFile(file))];
    hide *;
    BeginningsParse([], map[], word, [">", file]);
    RedirectsParse([], c, file, []);
    OperatorsParse([], c.(stdout := ToFile(file)), file, []);
  }
}
