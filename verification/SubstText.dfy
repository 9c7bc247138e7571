/** What is a reference in a template, character by character, and what replacing does to the
    text around it. */
module SubstText {
  import opened Options
  import opened Sequences
  import opened Subst

  /** Letters, digits and underscores, at least one. */
  predicate IsName(name: string) {
    name != "" && forall i :: 0 <= i < |name| ==>
      'a' <= name[i] <= 'z' || 'A' <= name[i] <= 'Z' || '0' <= name[i] <= '9' || name[i] == '_'
  }

  function Reference(name: string): string {
    "@" + name + "@"
  }

  lemma {:induction false} WordSpanOf(name: string, rest: string)
    requires forall i :: 0 <= i < |name| ==> IsWord(name[i])
    requires rest != "" && !IsWord(rest[0])
    ensures WordSpan(name + rest) == |name|
  {
    if name == "" {
      assert name + rest == rest;
    } else {
      assert (name + rest)[1..] == name[1..] + rest;
      WordSpanOf(name[1..], rest);
    }
  }

  /** Every reference is recognised, whatever follows it. */
  lemma ReferenceMatches(name: string, rest: string)
    requires IsName(name)
    ensures MatchAt(Reference(name) + rest) == Some(name)
  {
    var s, tail := Reference(name) + rest, "@" + rest;
    assert s[1..] == name + tail && tail[0] == '@';
    WordSpanOf(name, tail);
    assert (name + tail)[..|name|] == name;
  }

  /** Nothing else is recognised. */
  lemma ReferenceFound(s: string)
    requires MatchAt(s).Some?
    ensures IsName(MatchAt(s).value)
    ensures s == Reference(MatchAt(s).value) + s[|MatchAt(s).value| + 2..]
  {
    var name := MatchAt(s).value;
    assert forall i :: 0 <= i < |name| ==> IsWord(name[i]);
    assert s == s[..|name| + 2] + s[|name| + 2..];
  }

  ghost predicate OpensReference(s: string) {
    exists name :: IsName(name) && Reference(name) <= s
  }

  lemma OpensIff(s: string)
    ensures MatchAt(s).Some? <==> OpensReference(s)
  {
    if MatchAt(s).Some? {
      ReferenceFound(s);
      assert Reference(MatchAt(s).value) <= s;
    }
    if OpensReference(s) {
      var name :| IsName(name) && Reference(name) <= s;
      assert s == Reference(name) + s[|Reference(name)|..];
      ReferenceMatches(name, s[|Reference(name)|..]);
    }
  }

  // ----- Replacing in the text -----

  lemma PrependTwice(a: string, b: string, r: Option<string>)
    ensures Prepend(a, Prepend(b, r)) == Prepend(a + b, r)
  {
    if r.Some? {
      Regroup(a, b, r.value);
    }
  }

  /** Text before the first `@` is kept. */
  lemma {:induction false} KeepText(pre: string, s: string, di: map<string, string>)
    requires '@' !in pre
    ensures Replace(pre + s, di) == Prepend(pre, Replace(s, di)) && FindAll(pre + s) == FindAll(s)
  {
    if pre == "" {
      assert pre + s == s;
      assert forall t: string :: pre + t == t;
    } else {
      assert (pre + s)[1..] == pre[1..] + s && [pre[0]] + pre[1..] == pre;
      KeepText(pre[1..], s, di);
      ReplaceParts(pre + s, di);
      FindAllStep(pre + s);
      PrependTwice([pre[0]], pre[1..], Replace(s, di));
      hide Replace, FindAll;
    }
  }

  /** A template without `@` is the output, and names nothing. */
  lemma ReplacePlain(text: string, di: map<string, string>)
    requires '@' !in text
    ensures Replace(text, di) == Some(text) && FindAll(text) == []
  {
    KeepText(text, "", di);
    assert text + "" == text;
  }

  lemma ReplaceAtReference(name: string, rest: string, di: map<string, string>)
    requires IsName(name)
    ensures Replace(Reference(name) + rest, di) == if name in di then Prepend(di[name], Replace(rest, di)) else None
    ensures FindAll(Reference(name) + rest) == [name] + FindAll(rest)
  {
    var s := Reference(name) + rest;
    ReferenceMatches(name, rest);
    assert s[|name| + 2..] == rest;
    ReplaceParts(s, di);
    FindAllStep(s);
    hide *;
  }

  /** The first reference after text without `@` is replaced by its value, or makes the
      substitution fail when it has none; the rest of the template is treated by itself. */
  lemma ReplaceReference(pre: string, name: string, rest: string, di: map<string, string>)
    requires '@' !in pre && IsName(name)
    ensures name in di ==>
      Replace(pre + (Reference(name) + rest), di) == Prepend(pre + di[name], Replace(rest, di))
    ensures name !in di ==> Replace(pre + (Reference(name) + rest), di).None?
    ensures FindAll(pre + (Reference(name) + rest)) == [name] + FindAll(rest)
  {
    KeepText(pre, Reference(name) + rest, di);
    ReplaceAtReference(name, rest, di);
    if name in di {
      PrependTwice(pre, di[name], Replace(rest, di));
    }
    hide Replace, FindAll;
  }

  /** An `@` that opens no reference is kept, and what follows it is treated by itself. */
  lemma ReplaceLoneAt(pre: string, rest: string, di: map<string, string>)
    requires '@' !in pre && !OpensReference("@" + rest)
    ensures Replace(pre + ("@" + rest), di) == Prepend(pre + "@", Replace(rest, di))
    ensures FindAll(pre + ("@" + rest)) == FindAll(rest)
  {
    KeepText(pre, "@" + rest, di);
    OpensIff("@" + rest);
    ReplaceParts("@" + rest, di);
    FindAllStep("@" + rest);
    assert ("@" + rest)[1..] == rest && ("@" + rest)[0] == '@';
    PrependTwice(pre, "@", Replace(rest, di));
    hide Replace, FindAll, OpensReference;
  }

  // ----- Capitals -----

  /** Small letters become capitals and every other character stays. */
  lemma {:induction false} UpperEach(s: string)
    ensures |Upper(s)| == |s|
    ensures forall i :: 0 <= i < |s| ==>
      Upper(s)[i] == if 'a' <= s[i] <= 'z' then (s[i] as int - 32) as char else s[i]
  {
    if s != "" {
      UpperEach(s[1..]);
    }
  }

  lemma ExampleParts()
    ensures "p=@prefix@ 5% @x" == "p=" + (Reference("prefix") + (" 5% " + ("@" + "x")))
    ensures IsName("prefix") && !OpensReference("@" + "x")
  {
    assert forall name :: IsName(name) ==> |Reference(name)| > 2;
  }

  /** A reference, a percent sign, and a name that no `@` closes. */
  lemma ReplaceExample(di: map<string, string>)
    requires di == map["prefix" := "/usr"]
    ensures Replace("p=@prefix@ 5% @x", di) == Some("p=/usr 5% @x")
  {
    ExampleParts();
    hide *;
    ReplaceReference("p=", "prefix", " 5% " + ("@" + "x"), di);
    ReplaceLoneAt(" 5% ", "x", di);
    ReplacePlain("x", di);
    PrependSome("p=" + di["prefix"], " 5% " + "@" + "x");
    PrependSome(" 5% " + "@", "x");
    assert "p=" + "/usr" + (" 5% " + "@" + "x") == "p=/usr 5% @x";
  }

  lemma PrependSome(a: string, b: string)
    ensures Prepend(a, Some(b)) == Some(a + b)
  {
  }
}
