/** A grammar for the token lists that the parser accepts, with the nodes each sentence means. */
module ShellGrammar {
  import opened Options
  import opened Sequences
  import opened ShellSyntax

  datatype Elem = Word(w: string) | In(w: string) | Out(w: string) | Err(w: string) | ErrToOut

  datatype Op = PIPE | AND | OR

  /** After the last command a redirection operator may dangle without its file. */
  datatype Tail = End(dangling: seq<string>) | Then(op: Op, rest: Script)

  datatype Script =
    | CommandScript(envs: seq<string>, name: string, elems: seq<Elem>, tail: Tail)
    | CdScript(dir: Option<string>, tail: Tail)

  // ----- Its tokens -----

  function ElemTokens(e: Elem): seq<string> {
    match e
    case Word(w) => [w]
    case In(w) => ["<", w]
    case Out(w) => [">", w]
    case Err(w) => ["2>", w]
    case ErrToOut => ["2>&1"]
  }

  function ElemsTokens(es: seq<Elem>): seq<string> {
    if es == [] then [] else ElemTokens(es[0]) + ElemsTokens(es[1..])
  }

  function OpToken(op: Op): string {
    match op
    case PIPE => "|"
    case AND => "&&"
    case OR => "||"
  }

  function ScriptTokens(s: Script): seq<string> {
    match s
    case CommandScript(envs, name, elems, tail) => envs + ([name] + (ElemsTokens(elems) + TailTokens(tail)))
    case CdScript(dir, tail) => ["cd"] + ((if dir.Some? then [dir.value] else []) + TailTokens(tail))
  }

  function TailTokens(t: Tail): seq<string> {
    match t
    case End(dangling) => dangling
    case Then(op, rest) => [OpToken(op)] + ScriptTokens(rest)
  }

  // ----- Its meaning -----

  function Words(es: seq<Elem>): seq<string> {
    if es == [] then []
    else (if es[0].Word? then [es[0].w] else []) + Words(es[1..])
  }

  function InOf(es: seq<Elem>): Option<string> {
    if es == [] then None else if es[0].In? then Some(es[0].w) else InOf(es[1..])
  }

  function OutOf(es: seq<Elem>): Redirect {
    if es == [] then Inherit else if es[0].Out? then ToFile(es[0].w) else OutOf(es[1..])
  }

  function ErrOf(es: seq<Elem>): Redirect {
    if es == [] then Inherit
    else if es[0].Err? then ToFile(es[0].w)
    else if es[0].ErrToOut? then ToStdout
    else ErrOf(es[1..])
  }

  /** The assignments in order; a later one to the same name wins. */
  function EnvMap(envs: seq<string>): map<string, string> {
    if envs == [] then map[]
    else
      var m := EnvMap(envs[..|envs| - 1]);
      var kv := MatchEnv(envs[|envs| - 1]);
      if kv.Some? then m[kv.value.0 := kv.value.1] else m
  }

  /** The command `c` with the elements of `es` added. */
  function Extend(c: Node, es: seq<Elem>, piped: bool): Node
    requires c.Command?
  {
    Command(c.argv + Words(es),
      if c.stdin.Some? then c.stdin else InOf(es),
      if piped then ToPipe else if c.stdout != Inherit then c.stdout else OutOf(es),
      if c.stderr != Inherit then c.stderr else ErrOf(es),
      c.envVars)
  }

  function OpNode(op: Op): Node {
    match op
    case PIPE => Pipe
    case AND => And
    case OR => Or
  }

  predicate IsPiped(t: Tail) {
    t.Then? && t.op == PIPE
  }

  function ScriptNodes(s: Script): seq<Node> {
    match s
    case CommandScript(envs, name, elems, tail) =>
      [Extend(NewCommand(name, EnvMap(envs)), elems, IsPiped(tail))] + TailNodes(tail)
    case CdScript(dir, tail) => [Chdir(dir)] + TailNodes(tail)
  }

  function TailNodes(t: Tail): seq<Node> {
    match t
    case End(_) => []
    case Then(op, rest) => [OpNode(op)] + ScriptNodes(rest)
  }

  // ----- Well-formed sentences -----

  predicate IsSpecial(w: string) {
    w in [">", "2>", "2>&1", "<", "|", "&&", "||"]
  }

  predicate ValidElems(es: seq<Elem>) {
    forall i :: 0 <= i < |es| ==> es[i].Word? ==> !IsSpecial(es[i].w)
  }

  function CountIn(es: seq<Elem>): nat {
    if es == [] then 0 else (if es[0].In? then 1 else 0) + CountIn(es[1..])
  }

  function CountOut(es: seq<Elem>): nat {
    if es == [] then 0 else (if es[0].Out? then 1 else 0) + CountOut(es[1..])
  }

  function CountErr(es: seq<Elem>): nat {
    if es == [] then 0 else (if es[0].Err? || es[0].ErrToOut? then 1 else 0) + CountErr(es[1..])
  }

  /** Each stream of `c` is redirected at most once, counting a pipe. */
  predicate Fits(c: Node, es: seq<Elem>, piped: bool)
    requires c.Command?
  {
    && (if c.stdin.Some? then 1 else 0) + CountIn(es) <= 1
    && (if c.stdout != Inherit then 1 else 0) + CountOut(es) + (if piped then 1 else 0) <= 1
    && (if c.stderr != Inherit then 1 else 0) + CountErr(es) <= 1
  }

  predicate AreEnvs(envs: seq<string>) {
    forall i :: 0 <= i < |envs| ==> MatchEnv(envs[i]).Some?
  }

  predicate ValidDangling(dangling: seq<string>) {
    dangling == [] || (|dangling| == 1 && dangling[0] in [">", "2>", "<"])
  }

  predicate ValidScript(s: Script) {
    match s
    case CommandScript(envs, name, elems, tail) =>
      && AreEnvs(envs) && MatchEnv(name).None? && name != "cd"
      && ValidElems(elems) && Fits(NewCommand(name, EnvMap(envs)), elems, IsPiped(tail))
      && ValidTail(tail)
    case CdScript(dir, tail) =>
      && dir != Some("&&")
      && (tail.End? ==> tail.dangling == []) && (tail.Then? ==> tail.op == AND)
      && ValidTail(tail)
  }

  predicate ValidTail(t: Tail) {
    match t
    case End(dangling) => ValidDangling(dangling)
    case Then(_, rest) => ValidScript(rest)
  }

  // ----- Every sentence is parsed to its meaning -----

  lemma {:induction false} FeedEnvs(nodes: seq<Node>, envs: seq<string>)
    requires AreEnvs(envs)
    ensures Feed(Machine(BEGIN, None, map[], nodes), envs) == Some(Machine(BEGIN, None, EnvMap(envs), nodes))
  {
    if envs != [] {
      var n := |envs| - 1;
      FeedEnvs(nodes, envs[..n]);
      assert envs == envs[..n] + [envs[n]];
      FeedAppend(Machine(BEGIN, None, map[], nodes), envs[..n], [envs[n]]);
      FeedOne(Machine(BEGIN, None, EnvMap(envs[..n]), nodes), envs[n]);
    }
  }

  lemma FeedOne(m: Machine, token: string)
    requires ValidMachine(m)
    ensures Feed(m, [token]) == Next(m, token)
  {
  }

  lemma ParseStep(m: Machine, token: string, rest: seq<string>)
    requires ValidMachine(m) && Next(m, token).Some?
    ensures ParseFrom(m, [token] + rest) == ParseFrom(Next(m, token).value, rest)
  {
  }

  lemma ExtendByNothing(c: Node, piped: bool)
    requires c.Command?
    ensures Extend(c, [], piped) == if piped then c.(stdout := ToPipe) else c
  {
  }

  lemma OpParses(nodes: seq<Node>, c: Node, op: Op, rest: seq<string>)
    requires c.Command? && Fits(c, [], op == PIPE)
    ensures ParseFrom(Machine(COMMAND, Some(c), map[], nodes), [OpToken(op)] + rest)
         == ParseFrom(Machine(BEGIN, None, map[], nodes + [Extend(c, [], op == PIPE)] + [OpNode(op)]), rest)
  {
    ExtendByNothing(c, op == PIPE);
    ParseStep(Machine(COMMAND, Some(c), map[], nodes), OpToken(op), rest);
  }

  lemma DanglingParses(nodes: seq<Node>, c: Node, dangling: seq<string>)
    requires c.Command? && ValidDangling(dangling)
    ensures ParseFrom(Machine(COMMAND, Some(c), map[], nodes), dangling) == Some(nodes + [c])
  {
    if dangling != [] {
      assert dangling == [dangling[0]];
      FeedOne(Machine(COMMAND, Some(c), map[], nodes), dangling[0]);
    }
  }

  lemma {:induction false} TailParses(nodes: seq<Node>, c: Node, t: Tail)
    requires c.Command? && ValidTail(t) && Fits(c, [], IsPiped(t))
    ensures ParseFrom(Machine(COMMAND, Some(c), map[], nodes), TailTokens(t))
         == Some(nodes + [Extend(c, [], IsPiped(t))] + TailNodes(t))
    decreases t, 0, 0
  {
    match t
    case End(dangling) =>
      ExtendByNothing(c, false);
      DanglingParses(nodes, c, dangling);
      assert nodes + [c] + [] == nodes + [c];
    case Then(op, rest) =>
      var before := nodes + [Extend(c, [], op == PIPE)];
      OpParses(nodes, c, op, ScriptTokens(rest));
      ScriptParses(before + [OpNode(op)], rest);
      assert before + [OpNode(op)] + ScriptNodes(rest) == before + TailNodes(t);
      hide ParseFrom, Extend, Fits;
  }

  /** The command after its first element. */
  function AddElem(c: Node, e: Elem): Node
    requires c.Command?
  {
    match e
    case Word(w) => c.(argv := c.argv + [w])
    case In(w) => c.(stdin := Some(w))
    case Out(w) => c.(stdout := ToFile(w))
    case Err(w) => c.(stderr := ToFile(w))
    case ErrToOut => c.(stderr := ToStdout)
  }

  lemma ElemParses(nodes: seq<Node>, c: Node, e: Elem, rest: seq<string>)
    requires c.Command? && Fits(c, [e], false) && ValidElems([e])
    ensures ParseFrom(Machine(COMMAND, Some(c), map[], nodes), ElemTokens(e) + rest)
         == ParseFrom(Machine(COMMAND, Some(AddElem(c, e)), map[], nodes), rest)
  {
    var m := Machine(COMMAND, Some(c), map[], nodes);
    if e.Word? || e.ErrToOut? {
      assert [e][0] == e;
      ParseStep(m, ElemTokens(e)[0], rest);
    } else {
      var tokens := ElemTokens(e);
      assert tokens + rest == [tokens[0]] + ([tokens[1]] + rest);
      ParseStep(m, tokens[0], [tokens[1]] + rest);
      ParseStep(Next(m, tokens[0]).value, tokens[1], rest);
    }
  }

  lemma ValidByFirst(es: seq<Elem>)
    requires es != [] && ValidElems(es)
    ensures ValidElems([es[0]]) && ValidElems(es[1..])
  {
  }

  lemma FitsByFirst(c: Node, es: seq<Elem>, piped: bool)
    requires c.Command? && es != [] && Fits(c, es, piped)
    ensures Fits(c, [es[0]], false) && Fits(AddElem(c, es[0]), es[1..], piped)
  {
  }

  lemma ExtendByFirst(c: Node, es: seq<Elem>, piped: bool)
    requires c.Command? && es != [] && Fits(c, es, piped)
    ensures Extend(AddElem(c, es[0]), es[1..], piped) == Extend(c, es, piped)
  {
    assert Words(es) == (if es[0].Word? then [es[0].w] else []) + Words(es[1..]);
    if es[0].Word? {
      Regroup(c.argv, [es[0].w], Words(es[1..]));
    } else {
      Regroup(c.argv, [], Words(es[1..]));
      assert c.argv + [] == c.argv;
    }
    hide Words;
  }

  lemma FirstElem(c: Node, es: seq<Elem>)
    requires c.Command? && es != []
    ensures ElemsTokens(es) == ElemTokens(es[0]) + ElemsTokens(es[1..]) && AddElem(c, es[0]).Command?
  {
  }

  lemma {:induction false} ElemsParse(nodes: seq<Node>, c: Node, es: seq<Elem>, t: Tail)
    requires c.Command? && ValidElems(es) && ValidTail(t) && Fits(c, es, IsPiped(t))
    ensures ParseFrom(Machine(COMMAND, Some(c), map[], nodes), ElemsTokens(es) + TailTokens(t))
         == Some(nodes + [Extend(c, es, IsPiped(t))] + TailNodes(t))
    decreases t, 1, |es|
  {
    if es == [] {
      assert ElemsTokens(es) + TailTokens(t) == TailTokens(t);
      TailParses(nodes, c, t);
    } else {
      hide *;
      var e := es[0];
      var rest := ElemsTokens(es[1..]) + TailTokens(t);
      FirstElem(c, es);
      Regroup(ElemTokens(e), ElemsTokens(es[1..]), TailTokens(t));
      ValidByFirst(es);
      FitsByFirst(c, es, IsPiped(t));
      ExtendByFirst(c, es, IsPiped(t));
      ElemParses(nodes, c, e, rest);
      ElemsParse(nodes, AddElem(c, e), es[1..], t);
    }
  }

  lemma NameParses(nodes: seq<Node>, envs: seq<string>, name: string, rest: seq<string>)
    requires AreEnvs(envs) && MatchEnv(name).None? && name != "cd"
    ensures ParseFrom(Machine(BEGIN, None, map[], nodes), envs + ([name] + rest))
         == ParseFrom(Machine(COMMAND, Some(NewCommand(name, EnvMap(envs))), map[], nodes), rest)
  {
    FeedEnvs(nodes, envs);
    FeedAppend(Machine(BEGIN, None, map[], nodes), envs, [name] + rest);
    ParseStep(Machine(BEGIN, None, EnvMap(envs), nodes), name, rest);
  }

  lemma {:induction false} ScriptParses(nodes: seq<Node>, s: Script)
    requires ValidScript(s)
    ensures ParseFrom(Machine(BEGIN, None, map[], nodes), ScriptTokens(s)) == Some(nodes + ScriptNodes(s))
    decreases s, 2, 0
  {
    match s
    case CommandScript(envs, name, elems, tail) =>
      NameParses(nodes, envs, name, ElemsTokens(elems) + TailTokens(tail));
      ElemsParse(nodes, NewCommand(name, EnvMap(envs)), elems, tail);
      assert nodes + ScriptNodes(s) == nodes + [ScriptNodes(s)[0]] + TailNodes(tail);
      hide *;
    case CdScript(dir, tail) =>
      CdParses(nodes, dir, tail);
      if tail.Then? {
        ScriptParses(nodes + [Chdir(dir)] + [And], tail.rest);
        assert nodes + [Chdir(dir)] + [And] + ScriptNodes(tail.rest) == nodes + ScriptNodes(s);
        hide *;
      } else {
        assert nodes + ScriptNodes(s) == nodes + [Chdir(dir)];
      }
  }

  /** The directory change itself, up to the `&&` that may follow it. */
  lemma CdParses(nodes: seq<Node>, dir: Option<string>, tail: Tail)
    requires ValidScript(CdScript(dir, tail))
    ensures ParseFrom(Machine(BEGIN, None, map[], nodes), ScriptTokens(CdScript(dir, tail)))
      == if tail.End? then Some(nodes + [Chdir(dir)])
         else ParseFrom(Machine(BEGIN, None, map[], nodes + [Chdir(dir)] + [And]), ScriptTokens(tail.rest))
  {
    var m0, m1 := Machine(BEGIN, None, map[], nodes), Machine(CHDIR, Some(Chdir(None)), map[], nodes);
    var m2 := Machine(CHDIR, Some(Chdir(dir)), map[], nodes);
    var afterCd := TailTokens(tail);
    assert MatchEnv("cd").None?;
    ParseStep(m0, "cd", (if dir.Some? then [dir.value] else []) + afterCd);
    if dir.Some? {
      ParseStep(m1, dir.value, afterCd);
    } else {
      assert [] + afterCd == afterCd;
    }
    if tail.Then? {
      ParseStep(m2, "&&", ScriptTokens(tail.rest));
    }
  }

  // ----- Every token list that is parsed is a sentence -----

  lemma ParseHead(m: Machine, tokens: seq<string>)
    requires ValidMachine(m) && tokens != [] && ParseFrom(m, tokens).Some?
    ensures Next(m, tokens[0]).Some? && ParseFrom(m, tokens) == ParseFrom(Next(m, tokens[0]).value, tokens[1..])
  {
  }

  /** The stream that the element redirects is still free in `c`. */
  predicate Free(c: Node, e: Elem)
    requires c.Command?
  {
    match e
    case Word(w) => !IsSpecial(w)
    case In(_) => c.stdin.None?
    case Out(_) => c.stdout == Inherit
    case Err(_) => c.stderr == Inherit
    case ErrToOut => c.stderr == Inherit
  }

  lemma PrependMeans(e: Elem, es: seq<Elem>)
    ensures var all := [e] + es;
      && Words(all) == (if e.Word? then [e.w] else []) + Words(es)
      && InOf(all) == (if e.In? then Some(e.w) else InOf(es))
      && OutOf(all) == (if e.Out? then ToFile(e.w) else OutOf(es))
      && ErrOf(all) == (if e.Err? then ToFile(e.w) else if e.ErrToOut? then ToStdout else ErrOf(es))
      && CountIn(all) == CountIn(es) + (if e.In? then 1 else 0)
      && CountOut(all) == CountOut(es) + (if e.Out? then 1 else 0)
      && CountErr(all) == CountErr(es) + (if e.Err? || e.ErrToOut? then 1 else 0)
  {
  }

  lemma ValidFirst(e: Elem, es: seq<Elem>)
    requires ValidElems(es) && (e.Word? ==> !IsSpecial(e.w))
    ensures ValidElems([e] + es)
  {
  }

  lemma PrependFits(c: Node, e: Elem, es: seq<Elem>, piped: bool)
    requires c.Command? && Free(c, e) && Fits(AddElem(c, e), es, piped)
    ensures Fits(c, [e] + es, piped)
  {
    PrependMeans(e, es);
    hide CountIn, CountOut, CountErr;
  }

  lemma PrependElem(c: Node, e: Elem, es: seq<Elem>, t: Tail)
    requires c.Command? && Free(c, e) && ValidElems(es) && Fits(AddElem(c, e), es, IsPiped(t))
    ensures ValidElems([e] + es) && Fits(c, [e] + es, IsPiped(t))
    ensures ElemsTokens([e] + es) + TailTokens(t) == ElemTokens(e) + (ElemsTokens(es) + TailTokens(t))
  {
    assert e.Word? ==> !IsSpecial(e.w);
    assert ElemsTokens([e] + es) == ElemTokens(e) + ElemsTokens(es) by {
      assert ([e] + es)[1..] == es;
    }
    hide *;
    ValidFirst(e, es);
    PrependFits(c, e, es, IsPiped(t));
    Regroup(ElemTokens(e), ElemsTokens(es), TailTokens(t));
  }

  /** The tokens of the next element, if they do not end the command. */
  lemma NextElem(nodes: seq<Node>, c: Node, tokens: seq<string>) returns (e: Elem, n: nat)
    requires c.Command? && tokens != [] && tokens[0] !in ["|", "&&", "||"]
    requires ParseFrom(Machine(COMMAND, Some(c), map[], nodes), tokens).Some?
    requires |tokens| > 1 || tokens[0] !in [">", "2>", "<"]
    ensures 0 < n <= |tokens| && ElemTokens(e) == tokens[..n] && Free(c, e)
    ensures ParseFrom(Machine(COMMAND, Some(c), map[], nodes), tokens)
         == ParseFrom(Machine(COMMAND, Some(AddElem(c, e)), map[], nodes), tokens[n..])
  {
    var m, token := Machine(COMMAND, Some(c), map[], nodes), tokens[0];
    ParseHead(m, tokens);
    if token in [">", "2>", "<"] {
      var w, m1 := tokens[1], Next(m, token).value;
      ParseHead(m1, tokens[1..]);
      e, n := if token == ">" then Out(w) else if token == "<" then In(w) else Err(w), 2;
      assert Next(m1, w).value == Machine(COMMAND, Some(AddElem(c, e)), map[], nodes);
      assert tokens[1..][1..] == tokens[2..] && tokens[..2] == [token, w];
    } else {
      e, n := if token == "2>&1" then ErrToOut else Word(token), 1;
      assert Next(m, token).value == Machine(COMMAND, Some(AddElem(c, e)), map[], nodes);
      assert tokens[..1] == [token];
    }
  }

  lemma OpAhead(nodes: seq<Node>, c: Node, tokens: seq<string>) returns (op: Op, committed: seq<Node>)
    requires c.Command? && tokens != [] && tokens[0] in ["|", "&&", "||"]
    requires ParseFrom(Machine(COMMAND, Some(c), map[], nodes), tokens).Some?
    ensures OpToken(op) == tokens[0] && Fits(c, [], op == PIPE)
    ensures ParseFrom(Machine(BEGIN, None, map[], committed), tokens[1..]).Some?
  {
    var m := Machine(COMMAND, Some(c), map[], nodes);
    ParseHead(m, tokens);
    committed := Next(m, tokens[0]).value.nodes;
    op := if tokens[0] == "|" then PIPE else if tokens[0] == "&&" then AND else OR;
  }

  lemma EndRecognized(nodes: seq<Node>, c: Node, tokens: seq<string>)
    requires c.Command? && (tokens == [] || (|tokens| == 1 && tokens[0] in [">", "2>", "<"]))
    requires ParseFrom(Machine(COMMAND, Some(c), map[], nodes), tokens).Some?
    ensures ValidElems([]) && ValidTail(End(tokens)) && ElemsTokens([]) + TailTokens(End(tokens)) == tokens
    ensures !IsPiped(End(tokens))
  {
    hide ParseFrom;
  }

  lemma OpRecognized(c: Node, op: Op, rest: Script, tokens: seq<string>)
    requires c.Command? && tokens != [] && OpToken(op) == tokens[0] && Fits(c, [], op == PIPE)
    requires ValidScript(rest) && ScriptTokens(rest) == [] + tokens[1..]
    ensures var t := Then(op, rest);
      && ValidElems([]) && ValidTail(t) && Fits(c, [], IsPiped(t))
      && ElemsTokens([]) + TailTokens(t) == tokens
  {
    assert [tokens[0]] + tokens[1..] == tokens && [] + tokens[1..] == tokens[1..] && [] + tokens == tokens;
    hide ScriptTokens, ValidScript, Fits;
  }

  lemma {:induction false} RecognizeCommand(nodes: seq<Node>, c: Node, tokens: seq<string>)
    returns (es: seq<Elem>, t: Tail)
    requires c.Command?
    requires ParseFrom(Machine(COMMAND, Some(c), map[], nodes), tokens).Some?
    ensures ValidElems(es) && ValidTail(t) && Fits(c, es, IsPiped(t))
    ensures tokens == ElemsTokens(es) + TailTokens(t)
    decreases |tokens|, 0
  {
    if tokens == [] || (|tokens| == 1 && tokens[0] in [">", "2>", "<"]) {
      EndRecognized(nodes, c, tokens);
      return [], End(tokens);
    }
    hide *;
    if tokens[0] in ["|", "&&", "||"] {
      var op, committed := OpAhead(nodes, c, tokens);
      var rest := RecognizeScript(committed, [], tokens[1..]);
      OpRecognized(c, op, rest, tokens);
      es, t := [], Then(op, rest);
    } else {
      var e, n := NextElem(nodes, c, tokens);
      var es', t' := RecognizeCommand(nodes, AddElem(c, e), tokens[n..]);
      PrependElem(c, e, es', t');
      es, t := [e] + es', t';
      assert tokens == tokens[..n] + tokens[n..];
    }
  }

  lemma EnvMapNonempty(envs: seq<string>)
    requires AreEnvs(envs) && envs != []
    ensures EnvMap(envs) != map[]
  {
    assert MatchEnv(envs[|envs| - 1]).value.0 in EnvMap(envs);
  }

  lemma {:induction false} RecognizeCd(nodes: seq<Node>, tokens: seq<string>)
    returns (dir: Option<string>, t: Tail)
    requires ParseFrom(Machine(CHDIR, Some(Chdir(None)), map[], nodes), tokens).Some?
    ensures ValidScript(CdScript(dir, t))
    ensures ["cd"] + tokens == ScriptTokens(CdScript(dir, t))
    decreases |tokens|, 0
  {
    if tokens == [] {
      return None, End([]);
    }
    var m := Machine(CHDIR, Some(Chdir(None)), map[], nodes);
    var rest := tokens;
    dir := None;
    if tokens[0] != "&&" {
      ParseHead(m, tokens);
      dir, rest := Some(tokens[0]), tokens[1..];
      m := Machine(CHDIR, Some(Chdir(dir)), map[], nodes);
    }
    if rest == [] {
      t := End([]);
    } else {
      ParseHead(m, rest);
      var s := RecognizeScript(nodes + [Chdir(dir)] + [And], [], rest[1..]);
      t := Then(AND, s);
    }
  }

  lemma BeginStep(nodes: seq<Node>, seen: seq<string>, tokens: seq<string>)
    requires AreEnvs(seen)
    requires ParseFrom(Machine(BEGIN, None, EnvMap(seen), nodes), tokens).Some?
    ensures tokens != []
    ensures if MatchEnv(tokens[0]).Some? then
        ParseFrom(Machine(BEGIN, None, EnvMap(seen + [tokens[0]]), nodes), tokens[1..]).Some?
      else if tokens[0] == "cd" then
        seen == [] && ParseFrom(Machine(CHDIR, Some(Chdir(None)), map[], nodes), tokens[1..]).Some?
      else
        ParseFrom(Machine(COMMAND, Some(NewCommand(tokens[0], EnvMap(seen))), map[], nodes), tokens[1..]).Some?
  {
    ParseHead(Machine(BEGIN, None, EnvMap(seen), nodes), tokens);
    assert (seen + [tokens[0]])[..|seen|] == seen;
    if seen != [] {
      EnvMapNonempty(seen);
    }
  }

  lemma {:induction false} RecognizeScript(nodes: seq<Node>, seen: seq<string>, tokens: seq<string>)
    returns (s: Script)
    requires AreEnvs(seen)
    requires ParseFrom(Machine(BEGIN, None, EnvMap(seen), nodes), tokens).Some?
    ensures ValidScript(s) && ScriptTokens(s) == seen + tokens
    decreases |tokens|, 1
  {
    BeginStep(nodes, seen, tokens);
    var token := tokens[0];
    assert tokens == [token] + tokens[1..];
    if MatchEnv(token).Some? {
      s := RecognizeScript(nodes, seen + [token], tokens[1..]);
      Regroup(seen, [token], tokens[1..]);
      hide ParseFrom, EnvMap, AreEnvs, ValidScript, ScriptTokens;
    } else if token == "cd" {
      var dir, t := RecognizeCd(nodes, tokens[1..]);
      s := CdScript(dir, t);
      assert seen + tokens == tokens;
      hide ParseFrom, EnvMap, ValidScript, ScriptTokens;
    } else {
      var es, t := RecognizeCommand(nodes, NewCommand(token, EnvMap(seen)), tokens[1..]);
      s := CommandScript(seen, token, es, t);
      hide ParseFrom, EnvMap, ElemsTokens, Fits, ValidTail;
      assert ScriptTokens(s) == seen + ([token] + tokens[1..]);
    }
  }

  /** The parser accepts exactly the sentences of the grammar, and yields what they mean. */
  lemma ParserRefinesGrammar(tokens: seq<string>, nodes: seq<Node>)
    ensures Parsed(tokens) == Some(nodes) <==>
      exists s :: ValidScript(s) && ScriptTokens(s) == tokens && ScriptNodes(s) == nodes
  {
    if Parsed(tokens) == Some(nodes) {
      var s := RecognizeScript([], [], tokens);
      assert [] + tokens == tokens;
      ScriptParses([], s);
      assert [] + ScriptNodes(s) == ScriptNodes(s);
    }
    if s :| ValidScript(s) && ScriptTokens(s) == tokens && ScriptNodes(s) == nodes {
      ScriptParses([], s);
      assert [] + ScriptNodes(s) == ScriptNodes(s);
    }
  }

  // ----- What parsed pipelines look like -----

  lemma {:induction false} NoPipeInElems(es: seq<Elem>)
    ensures OutOf(es) != ToPipe && OutOf(es) != ToStdout && ErrOf(es) != ToPipe
  {
    if es != [] {
      NoPipeInElems(es[1..]);
    }
  }

  lemma {:induction false} ScriptWellFormed(s: Script)
    requires ValidScript(s)
    ensures WellFormed(ScriptNodes(s))
  {
    if s.CommandScript? {
      NoPipeInElems(s.elems);
    }
    if s.tail.Then? {
      ScriptWellFormed(s.tail.rest);
      assert ScriptNodes(s)[2..] == ScriptNodes(s.tail.rest);
    }
  }

  lemma ParsedIsWellFormed(tokens: seq<string>)
    requires Parsed(tokens).Some?
    ensures WellFormed(Parsed(tokens).value)
  {
    ParserRefinesGrammar(tokens, Parsed(tokens).value);
    var s :| ValidScript(s) && ScriptTokens(s) == tokens && ScriptNodes(s) == Parsed(tokens).value;
    ScriptWellFormed(s);
  }

  // ----- Rendering nodes as tokens -----

  /** The words of the node cannot be taken for anything else where they stand. */
  predicate Printable(n: Node) {
    match n
    case Command(argv, _, _, _, envVars) =>
      && argv != [] && MatchEnv(argv[0]).None? && argv[0] != "cd"
      && (forall i :: 0 < i < |argv| ==> !IsSpecial(argv[i]))
      && (forall k :: k in envVars ==> IsName(k) && IsValue(envVars[k]))
    case Chdir(dir) => dir != Some("&&")
    case _ => true
  }

  predicate AllPrintable(nodes: seq<Node>) {
    forall i :: 0 <= i < |nodes| ==> Printable(nodes[i])
  }

  ghost function SomeKey(m: map<string, string>): (k: string)
    requires m != map[]
    ensures k in m
  {
    var k :| k in m; k
  }

  /** Assignment tokens for the variables, in some order. */
  ghost function EnvTokens(m: map<string, string>): seq<string> {
    if m == map[] then []
    else EnvTokens(m - {SomeKey(m)}) + [SomeKey(m) + "=" + m[SomeKey(m)]]
  }

  function WordElems(ws: seq<string>): seq<Elem> {
    if ws == [] then [] else [Word(ws[0])] + WordElems(ws[1..])
  }

  function ErrElems(c: Node): seq<Elem>
    requires c.Command?
  {
    match c.stderr
    case ToFile(name) => [Err(name)]
    case ToStdout => [ErrToOut]
    case _ => []
  }

  function OutElems(c: Node): seq<Elem>
    requires c.Command?
  {
    if c.stdout.ToFile? then [Out(c.stdout.name)] + ErrElems(c) else ErrElems(c)
  }

  function RedirectElems(c: Node): seq<Elem>
    requires c.Command?
  {
    if c.stdin.Some? then [In(c.stdin.value)] + OutElems(c) else OutElems(c)
  }

  ghost function ScriptOf(nodes: seq<Node>): Script
    requires WellFormed(nodes) && AllPrintable(nodes)
    decreases |nodes|, 1
  {
    match nodes[0]
    case Command(argv, _, _, _, envVars) =>
      CommandScript(EnvTokens(envVars), argv[0], WordElems(argv[1..]) + RedirectElems(nodes[0]), TailOf(nodes))
    case Chdir(dir) => CdScript(dir, TailOf(nodes))
  }

  ghost function TailOf(nodes: seq<Node>): Tail
    requires WellFormed(nodes) && AllPrintable(nodes)
    decreases |nodes|, 0
  {
    if |nodes| == 1 then End([])
    else
      WellFormedRest(nodes);
      Then(if nodes[1] == Pipe then PIPE else if nodes[1] == And then AND else OR, ScriptOf(nodes[2..]))
  }

  /** Assignments, arguments, input, output and error redirections, operator, and so on. */
  ghost function Render(nodes: seq<Node>): seq<string>
    requires WellFormed(nodes) && AllPrintable(nodes)
  {
    ScriptTokens(ScriptOf(nodes))
  }

  lemma WellFormedRest(nodes: seq<Node>)
    requires WellFormed(nodes) && |nodes| > 1
    ensures |nodes| > 2 && WellFormed(nodes[2..]) && (AllPrintable(nodes) ==> AllPrintable(nodes[2..]))
  {
  }

  lemma {:induction false} FirstEqualsAfterName(k: string, rest: string)
    requires forall i :: 0 <= i < |k| ==> IsNameChar(k[i])
    ensures FirstEquals(k + "=" + rest) == |k|
  {
    if k == "" {
      assert (k + "=" + rest)[0] == '=';
    } else {
      assert IsNameChar(k[0]) && (k + "=" + rest)[0] == k[0];
      assert (k + "=" + rest)[1..] == k[1..] + "=" + rest;
      FirstEqualsAfterName(k[1..], rest);
    }
  }

  lemma AssignmentMatches(k: string, v: string)
    requires IsName(k) && IsValue(v)
    ensures MatchEnv(k + "=" + v) == Some((k, v))
  {
    FirstEqualsAfterName(k, v);
    var token := k + "=" + v;
    assert token[..|k|] == k && token[|k| + 1..] == v;
  }

  lemma {:induction false} EnvTokensMean(m: map<string, string>)
    requires forall k :: k in m ==> IsName(k) && IsValue(m[k])
    ensures AreEnvs(EnvTokens(m)) && EnvMap(EnvTokens(m)) == m
    decreases |m|
  {
    if m != map[] {
      var k, rest := SomeKey(m), m - {SomeKey(m)};
      var envs, token := EnvTokens(rest), k + "=" + m[k];
      EnvTokensMean(rest);
      AssignmentMatches(k, m[k]);
      assert (envs + [token])[..|envs|] == envs;
      assert rest[k := m[k]] == m;
      hide MatchEnv, IsName, IsValue;
    }
  }

  lemma WordFirst(ws: seq<string>, es: seq<Elem>)
    requires ws != [] && !IsSpecial(ws[0]) && ValidElems(WordElems(ws[1..]) + es)
    ensures WordElems(ws) + es == [Word(ws[0])] + (WordElems(ws[1..]) + es)
    ensures ValidElems(WordElems(ws) + es) && ws == [ws[0]] + ws[1..]
  {
    Regroup([Word(ws[0])], WordElems(ws[1..]), es);
    ValidFirst(Word(ws[0]), WordElems(ws[1..]) + es);
    hide WordElems, ValidElems;
  }

  lemma {:induction false} WordElemsMean(ws: seq<string>, es: seq<Elem>)
    requires (forall i :: 0 <= i < |ws| ==> !IsSpecial(ws[i])) && ValidElems(es)
    ensures var all := WordElems(ws) + es;
      && Words(all) == ws + Words(es) && ValidElems(all)
      && InOf(all) == InOf(es) && OutOf(all) == OutOf(es) && ErrOf(all) == ErrOf(es)
      && CountIn(all) == CountIn(es) && CountOut(all) == CountOut(es) && CountErr(all) == CountErr(es)
  {
    if ws == [] {
      assert WordElems(ws) + es == es;
    } else {
      var rest := WordElems(ws[1..]) + es;
      WordElemsMean(ws[1..], es);
      WordFirst(ws, es);
      PrependMeans(Word(ws[0]), rest);
      Regroup([ws[0]], ws[1..], Words(es));
      hide Words, InOf, OutOf, ErrOf, CountIn, CountOut, CountErr, WordElems, ValidElems;
    }
  }

  lemma RedirectElemsMean(c: Node)
    requires c.Command? && c.stderr != ToPipe && c.stdout != ToStdout
    ensures var es := RedirectElems(c);
      && Words(es) == [] && ValidElems(es) && InOf(es) == c.stdin && CountIn(es) <= 1
      && OutOf(es) == (if c.stdout == ToPipe then Inherit else c.stdout)
      && CountOut(es) == (if c.stdout.ToFile? then 1 else 0)
      && ErrOf(es) == c.stderr && CountErr(es) <= 1
  {
    var errs, outs := ErrElems(c), OutElems(c);
    assert Words([]) == [];
    if errs != [] {
      assert errs == [errs[0]] + [];
      PrependMeans(errs[0], []);
    }
    if c.stdout.ToFile? {
      PrependMeans(Out(c.stdout.name), errs);
    }
    if c.stdin.Some? {
      PrependMeans(In(c.stdin.value), outs);
    }
    hide Words, IsSpecial;
  }

  lemma CommandElemsMean(c: Node, piped: bool)
    requires c.Command? && Printable(c)
    requires c.stdout != ToStdout && c.stderr != ToPipe && (c.stdout == ToPipe <==> piped)
    ensures var es := WordElems(c.argv[1..]) + RedirectElems(c);
      var start := NewCommand(c.argv[0], c.envVars);
      ValidElems(es) && Fits(start, es, piped) && Extend(start, es, piped) == c
  {
    RedirectElemsMean(c);
    WordElemsMean(c.argv[1..], RedirectElems(c));
    assert [c.argv[0]] + c.argv[1..] == c.argv && c.argv[1..] + [] == c.argv[1..];
    assert NewCommand(c.argv[0], c.envVars) == Command([c.argv[0]], None, Inherit, Inherit, c.envVars);
    hide RedirectElems, WordElems, Words, InOf, OutOf, ErrOf, CountIn, CountOut, CountErr, MatchEnv;
    hide NewCommand, Printable, ValidElems, IsSpecial;
  }

  lemma CommandScriptMeans(c: Node, t: Tail)
    requires c.Command? && Printable(c) && ValidTail(t)
    requires c.stdout != ToStdout && c.stderr != ToPipe && (c.stdout == ToPipe <==> IsPiped(t))
    ensures var s := CommandScript(EnvTokens(c.envVars), c.argv[0], WordElems(c.argv[1..]) + RedirectElems(c), t);
      ValidScript(s) && ScriptNodes(s) == [c] + TailNodes(t)
  {
    CommandElemsMean(c, IsPiped(t));
    EnvTokensMean(c.envVars);
  }

  lemma FirstTwo<T>(s: seq<T>)
    requires |s| > 1
    ensures s == [s[0]] + ([s[1]] + s[2..])
  {
  }

  lemma {:induction false} TailOfMeans(nodes: seq<Node>)
    requires WellFormed(nodes) && AllPrintable(nodes)
    ensures var t := TailOf(nodes);
      && ValidTail(t) && nodes == [nodes[0]] + TailNodes(t)
      && (IsPiped(t) <==> |nodes| > 1 && nodes[1] == Pipe) && (t.Then? <==> |nodes| > 1)
      && (t.Then? ==> OpNode(t.op) == nodes[1])
    decreases |nodes|, 0
  {
    if |nodes| > 1 {
      WellFormedRest(nodes);
      ScriptOfMeans(nodes[2..]);
      FirstTwo(nodes);
      hide ScriptNodes, ValidScript, ScriptOf, AllPrintable;
    }
  }

  lemma {:induction false} ScriptOfMeans(nodes: seq<Node>)
    requires WellFormed(nodes) && AllPrintable(nodes)
    ensures ValidScript(ScriptOf(nodes)) && ScriptNodes(ScriptOf(nodes)) == nodes
    decreases |nodes|, 1
  {
    TailOfMeans(nodes);
    hide TailNodes, TailOf;
    assert Printable(nodes[0]);
    if nodes[0].Command? {
      CommandScriptMeans(nodes[0], TailOf(nodes));
      hide ValidScript, ScriptNodes;
    }
  }

  /** Parsing the rendering of a well-formed pipeline gives the pipeline back. */
  lemma RoundTrip(nodes: seq<Node>)
    requires WellFormed(nodes) && AllPrintable(nodes)
    ensures Parsed(Render(nodes)) == Some(nodes)
  {
    ScriptOfMeans(nodes);
    ParserRefinesGrammar(Render(nodes), nodes);
  }
}
