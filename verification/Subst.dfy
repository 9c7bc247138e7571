/** Template substitution: `@name@` is replaced by way of Python's %-formatting. */
module Subst {
  import opened Options

  predicate IsWord(c: char) {
    'a' <= c <= 'z' || 'A' <= c <= 'Z' || '0' <= c <= '9' || c == '_'
  }

  /** The number of word characters at the front of `s`. */
  function WordSpan(s: string): (n: nat)
    ensures n <= |s| && forall i :: 0 <= i < n ==> IsWord(s[i])
    ensures n < |s| ==> !IsWord(s[n])
  {
    if s == "" || !IsWord(s[0]) then 0 else 1 + WordSpan(s[1..])
  }

  /** The name at the front of `t` if an `@` closes it. */
  function MatchName(t: string): (r: Option<string>)
    ensures r.Some? ==> 0 < |r.value| < |t| && r.value == t[..|r.value|] && t[|r.value|] == '@'
    ensures r.Some? ==> forall i :: 0 <= i < |r.value| ==> IsWord(r.value[i])
  {
    var n := WordSpan(t);
    if 0 < n < |t| && t[n] == '@' then Some(t[..n]) else None
  }

  /** The name between two `@` if a reference starts at the front of `s`. */
  function MatchAt(s: string): (r: Option<string>)
    ensures r.Some? ==> 0 < |r.value| <= |s| - 2 && s[..|r.value| + 2] == "@" + r.value + "@"
    ensures r.Some? ==> forall i :: 0 <= i < |r.value| ==> IsWord(r.value[i])
  {
    if s == "" || s[0] != '@' then None else MatchName(s[1..])
  }

  // ----- The steps of the substitution -----

  /** Every `%` is doubled. */
  function Double(s: string): string {
    if s == "" then ""
    else (if s[0] == '%' then "%%" else [s[0]]) + Double(s[1..])
  }

  /** Every reference is rewritten as a formatting directive, from left to right. */
  function Rewrite(s: string): string
    decreases |s|
  {
    if s == "" then ""
    else
      match MatchAt(s)
      case Some(name) => "%(" + (name + (")s" + Rewrite(s[|name| + 2..])))
      case None => [s[0]] + Rewrite(s[1..])
  }

  function FindAll(s: string): seq<string>
    decreases |s|
  {
    if s == "" then []
    else
      match MatchAt(s)
      case Some(name) => [name] + FindAll(s[|name| + 2..])
      case None => FindAll(s[1..])
  }

  function FirstClose(s: string): (n: nat)
    ensures n <= |s| && (n < |s| ==> s[n] == ')') && forall i :: 0 <= i < n ==> s[i] != ')'
  {
    if s == "" || s[0] == ')' then 0 else 1 + FirstClose(s[1..])
  }

  /** %-formatting with a dictionary, for the directives `%%` and `%(key)s`. Anything else after a
      `%`, or a key that is missing, gives no result. */
  function Format(s: string, di: map<string, string>): Option<string>
    decreases |s|
  {
    if s == "" then Some("")
    else if s[0] != '%' then Prepend([s[0]], Format(s[1..], di))
    else if |s| > 1 && s[1] == '%' then Prepend("%", Format(s[2..], di))
    else if |s| > 1 && s[1] == '(' then
      var n := FirstClose(s[2..]);
      if n + 3 < |s| && s[n + 3] == 's' && s[2..n + 2] in di
      then Prepend(di[s[2..n + 2]], Format(s[n + 4..], di))
      else None
    else None
  }

  function Prepend(a: string, r: Option<string>): Option<string> {
    if r.None? then None else Some(a + r.value)
  }

  // ----- One-pass replacement -----

  /** Each leftmost reference is replaced by its value and all other text is kept; nothing when a
      value is missing. */
  function Replace(s: string, di: map<string, string>): Option<string>
    decreases |s|
  {
    if s == "" then Some("")
    else
      match MatchAt(s)
      case Some(name) =>
        if name in di then Prepend(di[name], Replace(s[|name| + 2..], di)) else None
      case None => Prepend([s[0]], Replace(s[1..], di))
  }

  /** Replacement fails only for a missing value. */
  lemma {:induction false} ReplaceIff(s: string, di: map<string, string>)
    ensures Replace(s, di).Some? <==> forall name :: name in FindAll(s) ==> name in di
    decreases |s|
  {
    if s != "" {
      match MatchAt(s)
      case Some(name) =>
        var rest := FindAll(s[|name| + 2..]);
        ReplaceIff(s[|name| + 2..], di);
        assert FindAll(s) == [name] + rest;
        assert name in FindAll(s);
        assert forall x :: x in FindAll(s) <==> x == name || x in rest;
      case None =>
        ReplaceIff(s[1..], di);
        assert FindAll(s) == FindAll(s[1..]);
    }
  }

  // ----- Doubling does not disturb the references -----

  lemma SplitTail(s: string, n: nat)
    requires 0 < n <= |s|
    ensures s[n..] == s[1..][n - 1..] && s[..n] == [s[0]] + s[1..][..n - 1]
  {
  }

  lemma {:induction false} DoubleWords(s: string)
    ensures var n := WordSpan(s);
      && WordSpan(Double(s)) == n <= |Double(s)|
      && Double(s)[..n] == s[..n] && Double(s)[n..] == Double(s[n..])
  {
    var d, n := Double(s), WordSpan(s);
    if n > 0 {
      var t := s[1..];
      DoubleWords(t);
      DoubleHead(s);
      SplitTail(s, n);
      SplitTail(d, n);
    } else {
      if s != "" {
        DoubleHead(s);
      }
      assert d[0..] == d && s[0..] == s;
    }
    hide Double;
  }

  lemma DoubleHead(s: string)
    requires s != ""
    ensures Double(s) != "" && Double(s)[0] == s[0]
    ensures s[0] != '%' ==> Double(s)[1..] == Double(s[1..])
  {
  }

  lemma HeadAndTail(s: string, n: nat)
    requires n < |s|
    ensures s[n] == s[n..][0] && s[n + 1..] == s[n..][1..]
  {
  }

  lemma NameDoubled(t: string)
    ensures MatchName(Double(t)) == MatchName(t)
    ensures MatchName(t).Some? ==>
      var n := |MatchName(t).value| + 1; n <= |Double(t)| && Double(t)[n..] == Double(t[n..])
  {
    var d, n := Double(t), WordSpan(t);
    DoubleWords(t);
    assert Double("") == "" && (n == |t| ==> t[n..] == "");
    hide Double, WordSpan, IsWord;
    if n < |t| {
      DoubleHead(t[n..]);
      HeadAndTail(d, n);
      HeadAndTail(t, n);
    }
  }

  lemma MatchDoubled(s: string)
    ensures MatchAt(Double(s)) == MatchAt(s)
    ensures MatchAt(s).Some? ==>
      var n := |MatchAt(s).value| + 2; n <= |Double(s)| && Double(s)[n..] == Double(s[n..])
  {
    if s != "" {
      var d := Double(s);
      DoubleHead(s);
      if s[0] == '@' {
        NameDoubled(s[1..]);
        if MatchAt(s).Some? {
          var n := |MatchAt(s).value| + 1;
          assert d[n + 1..] == d[1..][n..] && s[n + 1..] == s[1..][n..];
        }
      }
      hide Double, MatchName;
    }
  }

  // ----- Formatting undoes the doubling and fills the references -----

  lemma {:induction false} FirstCloseAfterWord(name: string, rest: string)
    requires forall i :: 0 <= i < |name| ==> IsWord(name[i])
    ensures FirstClose(name + (")" + rest)) == |name|
  {
    var s := name + (")" + rest);
    if name == "" {
      assert s[0] == ')';
    } else {
      assert IsWord(name[0]) && s[0] == name[0] && s[1..] == name[1..] + (")" + rest);
      FirstCloseAfterWord(name[1..], rest);
    }
  }

  lemma FormatReference(name: string, rest: string, di: map<string, string>)
    requires forall i :: 0 <= i < |name| ==> IsWord(name[i])
    ensures Format("%(" + (name + (")s" + rest)), di)
         == if name in di then Prepend(di[name], Format(rest, di)) else None
  {
    var s := "%(" + (name + (")s" + rest));
    var n := |name|;
    assert ")s" + rest == ")" + ("s" + rest);
    FirstCloseAfterWord(name, "s" + rest);
    assert s[2..] == name + (")s" + rest) && s[2..n + 2] == name;
    assert s[n + 2..] == ")s" + rest && s[n + 3] == 's' && s[n + 4..] == rest;
  }

  lemma FormatText(c: char, rest: string, di: map<string, string>)
    ensures c != '%' ==> Format([c] + rest, di) == Prepend([c], Format(rest, di))
    ensures Format("%%" + rest, di) == Prepend("%", Format(rest, di))
  {
    assert ([c] + rest)[1..] == rest && ("%%" + rest)[2..] == rest;
  }

  lemma RewriteParts(s: string)
    requires s != ""
    ensures MatchAt(s).None? ==> Rewrite(s) == [s[0]] + Rewrite(s[1..])
    ensures MatchAt(s).Some? ==>
      var name := MatchAt(s).value; Rewrite(s) == "%(" + (name + (")s" + Rewrite(s[|name| + 2..])))
  {
  }

  lemma RewritePercents(t: string)
    ensures Rewrite("%%" + t) == "%%" + Rewrite(t)
  {
    var s := "%%" + t;
    assert s[1..][1..] == t;
    RewriteParts(s);
    RewriteParts(s[1..]);
    hide Rewrite;
  }

  lemma DoubleParts(s: string)
    requires s != ""
    ensures Double(s) != "" && Double(s) == (if s[0] == '%' then "%%" else [s[0]]) + Double(s[1..])
  {
  }

  lemma ReplaceParts(s: string, di: map<string, string>)
    requires s != ""
    ensures MatchAt(s).None? ==> Replace(s, di) == Prepend([s[0]], Replace(s[1..], di))
    ensures MatchAt(s).Some? ==>
      var name := MatchAt(s).value;
      Replace(s, di) == if name in di then Prepend(di[name], Replace(s[|name| + 2..], di)) else None
  {
  }

  /** Substitution at a reference, given that it works for what follows. */
  lemma FormatAtReference(s: string, di: map<string, string>)
    requires s != "" && MatchAt(s).Some?
    requires var rest := s[|MatchAt(s).value| + 2..]; Format(Rewrite(Double(rest)), di) == Replace(rest, di)
    ensures Format(Rewrite(Double(s)), di) == Replace(s, di)
  {
    var d, name := Double(s), MatchAt(s).value;
    hide *;
    MatchDoubled(s);
    DoubleParts(s);
    RewriteParts(d);
    ReplaceParts(s, di);
    FormatReference(name, Rewrite(d[|name| + 2..]), di);
  }

  /** The same at any other character. */
  lemma FormatAtText(s: string, di: map<string, string>)
    requires s != "" && MatchAt(s).None? && Format(Rewrite(Double(s[1..])), di) == Replace(s[1..], di)
    ensures Format(Rewrite(Double(s)), di) == Replace(s, di)
  {
    hide *;
    var d, t := Double(s), Double(s[1..]);
    MatchDoubled(s);
    DoubleParts(s);
    ReplaceParts(s, di);
    FormatText(s[0], Rewrite(t), di);
    if s[0] == '%' {
      RewritePercents(t);
    } else {
      RewriteParts(d);
      assert ([s[0]] + t)[1..] == t;
    }
  }

  lemma {:induction false} FormatIsReplace(s: string, di: map<string, string>)
    ensures Format(Rewrite(Double(s)), di) == Replace(s, di)
    decreases |s|
  {
    if s == "" {
      assert Rewrite(Double(s)) == "";
    } else {
      hide *;
      match MatchAt(s)
      case Some(name) =>
        FormatIsReplace(s[|name| + 2..], di);
        FormatAtReference(s, di);
      case None =>
        FormatIsReplace(s[1..], di);
        FormatAtText(s, di);
    }
  }

  lemma FindAllStep(s: string)
    requires s != ""
    ensures MatchAt(s).None? ==> FindAll(s) == FindAll(s[1..])
    ensures MatchAt(s).Some? ==> FindAll(s) == [MatchAt(s).value] + FindAll(s[|MatchAt(s).value| + 2..])
  {
  }

  lemma FindAllPercents(t: string)
    ensures FindAll("%%" + t) == FindAll(t)
  {
    var s := "%%" + t;
    assert s[1..][1..] == t;
    FindAllStep(s);
    FindAllStep(s[1..]);
    hide FindAll;
  }

  lemma {:induction false} FindAllDoubled(s: string)
    ensures FindAll(Double(s)) == FindAll(s)
    decreases |s|
  {
    if s != "" {
      hide *;
      var d, t := Double(s), Double(s[1..]);
      MatchDoubled(s);
      FindAllStep(s);
      DoubleParts(s);
      FindAllStep(d);
      match MatchAt(s)
      case Some(name) =>
        FindAllDoubled(s[|name| + 2..]);
      case None =>
        FindAllDoubled(s[1..]);
        if s[0] == '%' {
          FindAllPercents(t);
        } else {
          assert ([s[0]] + t)[1..] == t;
        }
    }
  }

  // ----- subst_func -----

  function Upper(s: string): string {
    if s == "" then ""
    else [if 'a' <= s[0] <= 'z' then s[0] - 'a' + 'A' else s[0]] + Upper(s[1..])
  }

  /** The value of a name in the environment, or of the name in capitals if that is empty. */
  function Lookup(getFlat: string -> string, name: string): string {
    if getFlat(name) != "" then getFlat(name) else getFlat(Upper(name))
  }

  /** The loop that fills the dictionary; a later value for the same name wins. */
  method LookUpAll(names: seq<string>, getFlat: string -> string) returns (di: map<string, string>)
    ensures di == map name | name in names :: Lookup(getFlat, name)
  {
    di := map[];
    for k := 0 to |names|
      invariant di.Keys == set name | name in names[..k]
      invariant forall name :: name in di ==> di[name] == Lookup(getFlat, name)
    {
      assert names[..k + 1] == names[..k] + [names[k]];
      di := di[names[k] := Lookup(getFlat, names[k])];
    }
    assert names[..|names|] == names;
  }

  /** `dict` is the dictionary given with the build step. Only when it is empty are the names looked up
      in the environment, and then none can be missing. */
  method SubstFunc(input: string, dict: map<string, string>, getFlat: string -> string)
    returns (output: Option<string>, di: map<string, string>)
    ensures dict != map[] ==> di == dict
    ensures dict == map[] ==> forall name :: name in di <==> name in FindAll(input)
    ensures dict == map[] ==> forall name :: name in di ==>
      di[name] == if getFlat(name) != "" then getFlat(name) else getFlat(Upper(name))
    ensures output == Replace(input, di)
    ensures dict == map[] ==> output.Some?
  {
    var code := Double(input);
    var s := Rewrite(code);
    di := dict;
    if di == map[] {
      var names := FindAll(code);
      FindAllDoubled(input);
      di := LookUpAll(names, getFlat);
    }
    output := Format(s, di);
    FormatIsReplace(input, di);
    ReplaceIff(input, di);
  }
}
