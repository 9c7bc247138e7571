/** Patch sets in unified format: writing them, parsing them, and when the two are inverse. */
module Patches {
  import opened Options
  import opened Sequences

  datatype Kind = SRC | DST | BOTH

  datatype Line = Line(kind: Kind, text: string)

  datatype Chunk = Chunk(srcPos: nat, dstPos: nat, lines: seq<Line>)

  datatype Patch = Patch(src: string, dst: string, chunks: seq<Chunk>)

  // ----- Decimal numbers -----

  predicate IsDigit(c: char) {
    '0' <= c <= '9'
  }

  function Decimal(n: nat): (s: string)
    ensures s != "" && forall i :: 0 <= i < |s| ==> IsDigit(s[i])
  {
    if n < 10 then ['0' + n as char] else Decimal(n / 10) + ['0' + (n % 10) as char]
  }

  function ParseDecimal(s: string): nat
    requires forall i :: 0 <= i < |s| ==> IsDigit(s[i])
  {
    if s == "" then 0
    else
      assert IsDigit(s[|s| - 1]);
      10 * ParseDecimal(s[..|s| - 1]) + (s[|s| - 1] as int - '0' as int)
  }

  lemma {:induction false} DecimalRoundTrip(n: nat)
    ensures ParseDecimal(Decimal(n)) == n
  {
    var s := Decimal(n);
    if n >= 10 {
      DecimalRoundTrip(n / 10);
      assert s[..|s| - 1] == Decimal(n / 10);
    } else {
      assert s[..0] == "";
    }
  }

  // ----- Writing -----

  function LineText(l: Line): string {
    match l.kind
    case SRC => "-" + l.text
    case DST => "+" + l.text
    case BOTH => " " + l.text
  }

  function SrcLen(ls: seq<Line>): nat {
    if ls == [] then 0 else (if ls[0].kind != DST then 1 else 0) + SrcLen(ls[1..])
  }

  function DstLen(ls: seq<Line>): nat {
    if ls == [] then 0 else (if ls[0].kind != SRC then 1 else 0) + DstLen(ls[1..])
  }

  function Header(c: Chunk): string {
    "@@ -" + (Decimal(c.srcPos) + ("," + (Decimal(SrcLen(c.lines)) + (" +"
      + (Decimal(c.dstPos) + ("," + (Decimal(DstLen(c.lines)) + " @@")))))))
  }

  function LinesTexts(ls: seq<Line>): seq<string> {
    if ls == [] then [] else [LineText(ls[0])] + LinesTexts(ls[1..])
  }

  function ChunksTexts(cs: seq<Chunk>): seq<string> {
    if cs == [] then [] else [Header(cs[0])] + (LinesTexts(cs[0].lines) + ChunksTexts(cs[1..]))
  }

  function PatchesTexts(ps: seq<Patch>): seq<string> {
    if ps == [] then []
    else ["--- " + ps[0].src] + (["+++ " + ps[0].dst] + (ChunksTexts(ps[0].chunks) + PatchesTexts(ps[1..])))
  }

  // ----- Recognising lines -----

  predicate StartsWith(s: string, prefix: string) {
    prefix <= s
  }

  /** The number of digits at the front of `s`. */
  function DigitSpan(s: string): (n: nat)
    ensures n <= |s| && forall i :: 0 <= i < n ==> IsDigit(s[i])
  {
    if s == "" || !IsDigit(s[0]) then 0 else 1 + DigitSpan(s[1..])
  }

  /** One or more digits followed by `separator`: the number and what follows. */
  function MatchNumber(s: string, separator: string): Option<(nat, string)> {
    var n := DigitSpan(s);
    if n == 0 || !StartsWith(s[n..], separator) then None
    else Some((ParseDecimal(s[..n]), s[n + |separator|..]))
  }

  /** The four numbers of a chunk header. Anything may follow its closing marks. */
  function MatchChunkStart(line: string): Option<(nat, nat, nat, nat)> {
    if !StartsWith(line, "@@ -") then None
    else
      var a := MatchNumber(line[4..], ",");
      if a.None? then None else
      var b := MatchNumber(a.value.1, " +");
      if b.None? then None else
      var c := MatchNumber(b.value.1, ",");
      if c.None? then None else
      var d := MatchNumber(c.value.1, " @@");
      if d.None? then None else Some((a.value.0, b.value.0, c.value.0, d.value.0))
  }

  lemma {:induction false} DigitSpanOf(digits: string, rest: string)
    requires forall i :: 0 <= i < |digits| ==> IsDigit(digits[i])
    requires rest == "" || !IsDigit(rest[0])
    ensures DigitSpan(digits + rest) == |digits|
  {
    if digits == "" {
      assert digits + rest == rest;
    } else {
      assert (digits + rest)[1..] == digits[1..] + rest;
      DigitSpanOf(digits[1..], rest);
    }
  }

  lemma MatchWritten(n: nat, separator: string, rest: string)
    requires separator != "" && !IsDigit(separator[0])
    ensures MatchNumber(Decimal(n) + (separator + rest), separator) == Some((n, rest))
  {
    var digits, tail := Decimal(n), separator + rest;
    var s := digits + tail;
    assert tail[0] == separator[0];
    DigitSpanOf(digits, tail);
    assert s[..|digits|] == digits && s[|digits|..] == tail;
    assert tail[|separator|..] == rest && s[|digits| + |separator|..] == tail[|separator|..];
    DecimalRoundTrip(n);
  }

  /** A written header is recognised and carries the positions and the true line counts. */
  lemma HeaderMatches(c: Chunk)
    ensures MatchChunkStart(Header(c)) == Some((c.srcPos, SrcLen(c.lines), c.dstPos, DstLen(c.lines)))
  {
    var d := Decimal(DstLen(c.lines)) + (" @@" + "");
    var h := Decimal(c.dstPos) + ("," + d);
    var b := Decimal(SrcLen(c.lines)) + (" +" + h);
    var a := Decimal(c.srcPos) + ("," + b);
    assert " @@" + "" == " @@";
    assert Header(c) == "@@ -" + a && Header(c)[4..] == a;
    MatchWritten(DstLen(c.lines), " @@", "");
    MatchWritten(c.dstPos, ",", d);
    MatchWritten(SrcLen(c.lines), " +", h);
    MatchWritten(c.srcPos, ",", b);
    hide MatchNumber, Decimal, SrcLen, DstLen, Header;
  }

  // ----- Parsing -----

  /** The patches so far, and where the current chunk is: it stays current when a new patch
      starts. */
  datatype Parser = Parser(patches: seq<Patch>, chunkAt: Option<(nat, nat)>)

  ghost predicate ValidParser(p: Parser) {
    p.chunkAt.Some? ==>
      p.chunkAt.value.0 < |p.patches| && p.chunkAt.value.1 < |p.patches[p.chunkAt.value.0].chunks|
  }

  function UpdateLast(ps: seq<Patch>, p: Patch): (r: seq<Patch>)
    requires ps != []
    ensures |r| == |ps|
  {
    ps[|ps| - 1 := p]
  }

  function AddLine(p: Parser, l: Line): Option<Parser>
    requires ValidParser(p)
  {
    if p.chunkAt.None? then None
    else
      var (i, j) := p.chunkAt.value;
      var patch := p.patches[i];
      var chunk := patch.chunks[j];
      var longer := chunk.(lines := chunk.lines + [l]);
      Some(p.(patches := p.patches[i := patch.(chunks := patch.chunks[j := longer])]))
  }

  /** The parser after one line; nothing when the line is not recognised or has nowhere to go. */
  function Next(p: Parser, line: string): (r: Option<Parser>)
    requires ValidParser(p)
    ensures r.Some? ==> ValidParser(r.value)
  {
    if StartsWith(line, "--- ") then
      Some(p.(patches := p.patches + [Patch(line[4..], "", [])]))
    else if StartsWith(line, "+++ ") then
      if p.patches == [] then None
      else
        var last := p.patches[|p.patches| - 1];
        Some(p.(patches := UpdateLast(p.patches, last.(dst := line[4..]))))
    else if MatchChunkStart(line).Some? then
      if p.patches == [] then None
      else
        var (a, _, b, _) := MatchChunkStart(line).value;
        var last := p.patches[|p.patches| - 1];
        Some(Parser(UpdateLast(p.patches, last.(chunks := last.chunks + [Chunk(a, b, [])])),
          Some((|p.patches| - 1, |last.chunks|))))
    else if StartsWith(line, "-") then AddLine(p, Line(SRC, line[1..]))
    else if StartsWith(line, "+") then AddLine(p, Line(DST, line[1..]))
    else if StartsWith(line, " ") then AddLine(p, Line(BOTH, line[1..]))
    else None
  }

  function Feed(p: Parser, lines: seq<string>): (r: Option<Parser>)
    requires ValidParser(p)
    ensures r.Some? ==> ValidParser(r.value)
    decreases |lines|
  {
    if lines == [] then Some(p)
    else if Next(p, lines[0]).None? then None
    else Feed(Next(p, lines[0]).value, lines[1..])
  }

  function Parsed(lines: seq<string>): Option<seq<Patch>> {
    var r := Feed(Parser([], None), lines);
    if r.None? then None else Some(r.value.patches)
  }

  // ----- Parsing what was written -----

  /** The text of the line is not read as a file header. */
  predicate Clean(l: Line) {
    (l.kind == SRC ==> !StartsWith(l.text, "-- ")) && (l.kind == DST ==> !StartsWith(l.text, "++ "))
  }

  predicate CleanLines(ls: seq<Line>) {
    forall i :: 0 <= i < |ls| ==> Clean(ls[i])
  }

  predicate CleanChunks(cs: seq<Chunk>) {
    forall i :: 0 <= i < |cs| ==> CleanLines(cs[i].lines)
  }

  predicate CleanPatches(ps: seq<Patch>) {
    forall i :: 0 <= i < |ps| ==> CleanChunks(ps[i].chunks)
  }

  lemma FeedStep(p: Parser, line: string, rest: seq<string>)
    requires ValidParser(p) && Next(p, line).Some?
    ensures Feed(p, [line] + rest) == Feed(Next(p, line).value, rest)
  {
  }

  /** The parser in the middle of a chunk. */
  function InChunk(done: seq<Patch>, src: string, dst: string, chunks: seq<Chunk>, c: Chunk): Parser {
    Parser(done + [Patch(src, dst, chunks + [c])], Some((|done|, |chunks|)))
  }

  lemma LineIsNotHeader(l: Line)
    ensures Clean(l) <==> !StartsWith(LineText(l), "--- ") && !StartsWith(LineText(l), "+++ ")
    ensures MatchChunkStart(LineText(l)).None?
  {
    var s := LineText(l);
    assert s[1..] == l.text;
    if l.kind == SRC {
      assert s[0] == '-';
      assert StartsWith(s, "--- ") <==> StartsWith(l.text, "-- ");
    } else if l.kind == DST {
      assert s[0] == '+';
      assert StartsWith(s, "+++ ") <==> StartsWith(l.text, "++ ");
    } else {
      assert s[0] == ' ';
    }
  }

  lemma NextLine(done: seq<Patch>, src: string, dst: string, chunks: seq<Chunk>, c: Chunk, l: Line)
    requires Clean(l)
    ensures ValidParser(InChunk(done, src, dst, chunks, c))
    ensures Next(InChunk(done, src, dst, chunks, c), LineText(l))
         == Some(InChunk(done, src, dst, chunks, c.(lines := c.lines + [l])))
  {
    LineIsNotHeader(l);
    var s := LineText(l);
    assert s[1..] == l.text && s[0] == (match l.kind case SRC => '-' case DST => '+' case BOTH => ' ');
    var longer := c.(lines := c.lines + [l]);
    assert (chunks + [c])[|chunks| := longer] == chunks + [longer];
    var p, q := Patch(src, dst, chunks + [c]), Patch(src, dst, chunks + [longer]);
    assert (done + [p])[|done| := q] == done + [q];
  }

  lemma {:induction false} FeedLines(done: seq<Patch>, src: string, dst: string, chunks: seq<Chunk>, c: Chunk,
        ls: seq<Line>, rest: seq<string>)
    requires CleanLines(ls)
    ensures ValidParser(InChunk(done, src, dst, chunks, c))
    ensures Feed(InChunk(done, src, dst, chunks, c), LinesTexts(ls) + rest)
         == Feed(InChunk(done, src, dst, chunks, c.(lines := c.lines + ls)), rest)
    decreases |ls|
  {
    assert ValidParser(InChunk(done, src, dst, chunks, c));
    hide Feed, Next, LineText, MatchChunkStart, Clean, InChunk, ValidParser;
    if ls == [] {
      assert LinesTexts(ls) + rest == rest && c.lines + ls == c.lines;
    } else {
      var p, more := InChunk(done, src, dst, chunks, c), LinesTexts(ls[1..]) + rest;
      Regroup([LineText(ls[0])], LinesTexts(ls[1..]), rest);
      NextLine(done, src, dst, chunks, c, ls[0]);
      FeedStep(p, LineText(ls[0]), more);
      assert CleanLines(ls[1..]);
      FeedLines(done, src, dst, chunks, c.(lines := c.lines + [ls[0]]), ls[1..], rest);
      Regroup(c.lines, [ls[0]], ls[1..]);
      assert [ls[0]] + ls[1..] == ls;
    }
  }

  lemma NextHeader(p: Parser, done: seq<Patch>, src: string, dst: string, chunks: seq<Chunk>, c: Chunk)
    requires ValidParser(p) && p.patches == done + [Patch(src, dst, chunks)]
    ensures Next(p, Header(c)) == Some(InChunk(done, src, dst, chunks, Chunk(c.srcPos, c.dstPos, [])))
  {
    var line := Header(c);
    HeaderMatches(c);
    assert line[0] == '@';
    hide Header, MatchChunkStart, Next;
    NextAtHeader(p, line, c.srcPos, c.dstPos);
    ReplaceLast(done, Patch(src, dst, chunks), Patch(src, dst, chunks + [Chunk(c.srcPos, c.dstPos, [])]));
  }

  lemma ReplaceLast(done: seq<Patch>, a: Patch, b: Patch)
    ensures (done + [a])[|done| := b] == done + [b]
  {
  }

  lemma NextAtHeader(p: Parser, line: string, a: nat, b: nat)
    requires ValidParser(p) && p.patches != [] && line != "" && line[0] == '@'
    requires MatchChunkStart(line).Some? && MatchChunkStart(line).value.0 == a && MatchChunkStart(line).value.2 == b
    ensures var last := p.patches[|p.patches| - 1];
      Next(p, line) == Some(Parser(
        p.patches[|p.patches| - 1 := last.(chunks := last.chunks + [Chunk(a, b, [])])],
        Some((|p.patches| - 1, |last.chunks|))))
  {
  }

  /** The chunks written for a patch are added to it. */
  lemma {:induction false} FeedChunks(p: Parser, done: seq<Patch>, src: string, dst: string, chunks: seq<Chunk>,
        cs: seq<Chunk>, rest: seq<string>) returns (q: Parser)
    requires ValidParser(p) && p.patches == done + [Patch(src, dst, chunks)] && CleanChunks(cs)
    ensures ValidParser(q) && q.patches == done + [Patch(src, dst, chunks + cs)]
    ensures Feed(p, ChunksTexts(cs) + rest) == Feed(q, rest)
    decreases |cs|
  {
    hide Feed, Next, Header, LinesTexts, MatchChunkStart, CleanLines;
    if cs == [] {
      assert ChunksTexts(cs) + rest == rest && chunks + cs == chunks;
      q := p;
    } else {
      var c, empty := cs[0], Chunk(cs[0].srcPos, cs[0].dstPos, []);
      var more := ChunksTexts(cs[1..]) + rest;
      Regroup([Header(c)], LinesTexts(c.lines) + ChunksTexts(cs[1..]), rest);
      Regroup(LinesTexts(c.lines), ChunksTexts(cs[1..]), rest);
      NextHeader(p, done, src, dst, chunks, c);
      FeedStep(p, Header(c), LinesTexts(c.lines) + more);
      FeedLines(done, src, dst, chunks, empty, c.lines, more);
      assert [] + c.lines == c.lines && c == empty.(lines := c.lines);
      assert CleanChunks(cs[1..]);
      q := FeedChunks(InChunk(done, src, dst, chunks, c), done, src, dst, chunks + [c], cs[1..], rest);
      Regroup(chunks, [c], cs[1..]);
      assert [c] + cs[1..] == cs;
    }
  }

  lemma FileHeaders(p: Parser, src: string, dst: string, rest: seq<string>) returns (q: Parser)
    requires ValidParser(p)
    ensures ValidParser(q) && q.patches == p.patches + [Patch(src, dst, [])]
    ensures Feed(p, ["--- " + src] + (["+++ " + dst] + rest)) == Feed(q, rest)
  {
    var s, d := "--- " + src, "+++ " + dst;
    assert s[4..] == src && d[4..] == dst && d[0] == '+';
    var m := Next(p, s).value;
    assert m.patches == p.patches + [Patch(src, "", [])];
    q := m.(patches := p.patches + [Patch(src, dst, [])]);
    assert UpdateLast(m.patches, Patch(src, dst, [])) == q.patches;
    FeedStep(p, s, [d] + rest);
    FeedStep(m, d, rest);
  }

  lemma FeedPatch(p: Parser, patch: Patch, rest: seq<string>) returns (q: Parser)
    requires ValidParser(p) && CleanChunks(patch.chunks)
    ensures ValidParser(q) && q.patches == p.patches + [patch]
    ensures Feed(p, ["--- " + patch.src] + (["+++ " + patch.dst] + (ChunksTexts(patch.chunks) + rest))) == Feed(q, rest)
  {
    q := FileHeaders(p, patch.src, patch.dst, ChunksTexts(patch.chunks) + rest);
    q := FeedChunks(q, p.patches, patch.src, patch.dst, [], patch.chunks, rest);
    assert [] + patch.chunks == patch.chunks;
    hide *;
  }

  lemma {:induction false} FeedPatches(p: Parser, ps: seq<Patch>) returns (q: Parser)
    requires ValidParser(p) && CleanPatches(ps)
    ensures Feed(p, PatchesTexts(ps)) == Some(q) && q.patches == p.patches + ps
    decreases |ps|
  {
    if ps == [] {
      assert PatchesTexts(ps) == [] && p.patches + ps == p.patches;
      q := p;
    } else {
      assert CleanChunks(ps[0].chunks) && CleanPatches(ps[1..]);
      hide Feed, Next, ChunksTexts, CleanChunks, CleanPatches, ValidParser;
      q := FeedPatch(p, ps[0], PatchesTexts(ps[1..]));
      q := FeedPatches(q, ps[1..]);
      Regroup(p.patches, [ps[0]], ps[1..]);
      assert [ps[0]] + ps[1..] == ps;
    }
  }

  // ----- When parsing gives the patches back -----

  function CountLines(cs: seq<Chunk>): nat {
    if cs == [] then 0 else |cs[0].lines| + CountLines(cs[1..])
  }

  /** All the lines of all the patches. */
  function CountAll(ps: seq<Patch>): nat {
    if ps == [] then 0 else CountLines(ps[0].chunks) + CountAll(ps[1..])
  }

  lemma {:induction false} CountLinesUpdate(cs: seq<Chunk>, j: nat, c: Chunk)
    requires j < |cs|
    ensures CountLines(cs[j := c]) == CountLines(cs) - |cs[j].lines| + |c.lines|
  {
    if j > 0 {
      CountLinesUpdate(cs[1..], j - 1, c);
      assert cs[j := c][1..] == cs[1..][j - 1 := c];
    } else {
      assert cs[j := c][1..] == cs[1..];
    }
  }

  lemma {:induction false} CountAllUpdate(ps: seq<Patch>, i: nat, p: Patch)
    requires i < |ps|
    ensures CountAll(ps[i := p]) == CountAll(ps) - CountLines(ps[i].chunks) + CountLines(p.chunks)
  {
    if i > 0 {
      CountAllUpdate(ps[1..], i - 1, p);
      assert ps[i := p][1..] == ps[1..][i - 1 := p];
    } else {
      assert ps[i := p][1..] == ps[1..];
    }
  }

  lemma {:induction false} CountLinesAppend(cs: seq<Chunk>, c: Chunk)
    ensures CountLines(cs + [c]) == CountLines(cs) + |c.lines|
  {
    if cs != [] {
      CountLinesAppend(cs[1..], c);
      assert (cs + [c])[1..] == cs[1..] + [c];
    }
  }

  lemma {:induction false} CountAllAppend(ps: seq<Patch>, p: Patch)
    ensures CountAll(ps + [p]) == CountAll(ps) + CountLines(p.chunks)
  {
    if ps != [] {
      CountAllAppend(ps[1..], p);
      assert (ps + [p])[1..] == ps[1..] + [p];
    }
  }

  /** A line that is no header adds one line; headers add none. */
  function Adds(line: string): nat {
    if StartsWith(line, "--- ") || StartsWith(line, "+++ ") || MatchChunkStart(line).Some? then 0 else 1
  }

  lemma NextAdds(p: Parser, line: string)
    requires ValidParser(p) && Next(p, line).Some?
    ensures CountAll(Next(p, line).value.patches) == CountAll(p.patches) + Adds(line)
  {
    var ps := p.patches;
    if StartsWith(line, "--- ") {
      CountAllAppend(ps, Patch(line[4..], "", []));
    } else if StartsWith(line, "+++ ") {
      CountAllUpdate(ps, |ps| - 1, ps[|ps| - 1].(dst := line[4..]));
    } else if MatchChunkStart(line).Some? {
      var (a, _, b, _) := MatchChunkStart(line).value;
      var last := ps[|ps| - 1];
      var longer := last.(chunks := last.chunks + [Chunk(a, b, [])]);
      CountAllUpdate(ps, |ps| - 1, longer);
      CountLinesAppend(last.chunks, Chunk(a, b, []));
    } else {
      var kind := if StartsWith(line, "-") then SRC else if StartsWith(line, "+") then DST else BOTH;
      AddLineAdds(p, Line(kind, line[1..]));
    }
  }

  lemma AddLineAdds(p: Parser, l: Line)
    requires ValidParser(p) && AddLine(p, l).Some?
    ensures CountAll(AddLine(p, l).value.patches) == CountAll(p.patches) + 1
  {
    var (i, j) := p.chunkAt.value;
    var patch := p.patches[i];
    var chunk := patch.chunks[j];
    var longer := chunk.(lines := chunk.lines + [l]);
    CountLinesUpdate(patch.chunks, j, longer);
    CountAllUpdate(p.patches, i, patch.(chunks := patch.chunks[j := longer]));
  }

  function AddsAll(lines: seq<string>): nat {
    if lines == [] then 0 else Adds(lines[0]) + AddsAll(lines[1..])
  }

  lemma {:induction false} FeedAdds(p: Parser, lines: seq<string>)
    requires ValidParser(p) && Feed(p, lines).Some?
    ensures CountAll(Feed(p, lines).value.patches) == CountAll(p.patches) + AddsAll(lines)
    decreases |lines|
  {
    if lines != [] {
      NextAdds(p, lines[0]);
      FeedAdds(Next(p, lines[0]).value, lines[1..]);
    }
  }

  lemma {:induction false} AddsAppend(a: seq<string>, b: seq<string>)
    ensures AddsAll(a + b) == AddsAll(a) + AddsAll(b)
    decreases |a|
  {
    if a == [] {
      assert a + b == b;
    } else {
      assert (a + b)[1..] == a[1..] + b;
      AddsAppend(a[1..], b);
    }
  }

  lemma {:induction false} LinesAdd(ls: seq<Line>)
    ensures AddsAll(LinesTexts(ls)) <= |ls|
    ensures AddsAll(LinesTexts(ls)) == |ls| <==> CleanLines(ls)
  {
    if ls != [] {
      LinesAdd(ls[1..]);
      LineIsNotHeader(ls[0]);
      assert CleanLines(ls) <==> Clean(ls[0]) && CleanLines(ls[1..]);
      assert LinesTexts(ls)[1..] == LinesTexts(ls[1..]);
    }
  }

  lemma HeaderAddsNothing(c: Chunk, rest: seq<string>)
    ensures AddsAll([Header(c)] + rest) == AddsAll(rest)
  {
    HeaderMatches(c);
    assert ([Header(c)] + rest)[1..] == rest;
    hide MatchChunkStart, Header;
  }

  lemma FirstChunk(cs: seq<Chunk>)
    requires cs != []
    ensures ChunksTexts(cs) == [Header(cs[0])] + (LinesTexts(cs[0].lines) + ChunksTexts(cs[1..]))
    ensures CountLines(cs) == |cs[0].lines| + CountLines(cs[1..])
    ensures CleanChunks(cs) <==> CleanLines(cs[0].lines) && CleanChunks(cs[1..])
  {
    hide LinesTexts, CleanLines, Header;
  }

  lemma {:induction false} ChunksAdd(cs: seq<Chunk>)
    ensures AddsAll(ChunksTexts(cs)) <= CountLines(cs)
    ensures AddsAll(ChunksTexts(cs)) == CountLines(cs) <==> CleanChunks(cs)
  {
    if cs != [] {
      hide *;
      FirstChunk(cs);
      ChunksAdd(cs[1..]);
      LinesAdd(cs[0].lines);
      HeaderAddsNothing(cs[0], LinesTexts(cs[0].lines) + ChunksTexts(cs[1..]));
      AddsAppend(LinesTexts(cs[0].lines), ChunksTexts(cs[1..]));
    }
  }

  lemma {:induction false} PatchesAdd(ps: seq<Patch>)
    ensures AddsAll(PatchesTexts(ps)) <= CountAll(ps)
    ensures AddsAll(PatchesTexts(ps)) == CountAll(ps) <==> CleanPatches(ps)
  {
    if ps != [] {
      var p, rest := ps[0], ps[1..];
      PatchesAdd(rest);
      ChunksAdd(p.chunks);
      AddsAppend(ChunksTexts(p.chunks), PatchesTexts(rest));
      var s, d, more := "--- " + p.src, "+++ " + p.dst, ChunksTexts(p.chunks) + PatchesTexts(rest);
      assert Adds(s) == 0 && Adds(d) == 0;
      assert PatchesTexts(ps) == [s] + ([d] + more);
      AddsAppend([s], [d] + more);
      AddsAppend([d], more);
      assert AddsAll([s]) == 0 && AddsAll([d]) == 0;
      assert CleanPatches(ps) <==> CleanChunks(p.chunks) && CleanPatches(rest);
      hide ChunksTexts, CleanChunks, Adds, CountLines;
    }
  }

  /** Parsing what was written gives the patches back exactly when no removed text starts with
      `-- ` and no added text with `++ `. */
  lemma RoundTripIff(ps: seq<Patch>)
    ensures Parsed(PatchesTexts(ps)) == Some(ps) <==> CleanPatches(ps)
  {
    var start := Parser([], None);
    if CleanPatches(ps) {
      var q := FeedPatches(start, ps);
      assert [] + ps == ps;
    }
    PatchesAdd(ps);
    if Parsed(PatchesTexts(ps)) == Some(ps) {
      FeedAdds(start, PatchesTexts(ps));
      assert CountAll(start.patches) == 0;
    }
  }

  // ----- The file -----

  /** The text written to the file: every line ends in a newline. */
  function Write(lines: seq<string>): string {
    if lines == [] then "" else lines[0] + "\n" + Write(lines[1..])
  }

  function FirstNewline(s: string): (n: nat)
    ensures n <= |s| && (n < |s| ==> s[n] == '\n') && forall i :: 0 <= i < n ==> s[i] != '\n'
  {
    if s == "" || s[0] == '\n' then 0 else 1 + FirstNewline(s[1..])
  }

  /** The lines a reader of the file gets, without their newlines. */
  function ReadLines(s: string): seq<string>
    decreases |s|
  {
    var n := FirstNewline(s);
    if s == "" then [] else if n == |s| then [s] else [s[..n]] + ReadLines(s[n + 1..])
  }

  predicate OneLine(s: string) {
    '\n' !in s
  }

  lemma {:induction false} FirstNewlineOf(line: string, rest: string)
    requires OneLine(line)
    ensures FirstNewline(line + "\n" + rest) == |line|
  {
    var s := line + "\n" + rest;
    if line == "" {
      assert s[0] == '\n';
    } else {
      assert s[0] == line[0] && s[1..] == line[1..] + "\n" + rest;
      FirstNewlineOf(line[1..], rest);
    }
  }

  lemma ReadLine(line: string, rest: string)
    requires OneLine(line)
    ensures ReadLines(line + "\n" + rest) == [line] + ReadLines(rest)
  {
    var s := line + "\n" + rest;
    FirstNewlineOf(line, rest);
    assert s[..|line|] == line && s[|line| + 1..] == rest;
  }

  lemma {:induction false} ReadWritten(lines: seq<string>)
    requires forall i :: 0 <= i < |lines| ==> OneLine(lines[i])
    ensures ReadLines(Write(lines)) == lines
  {
    if lines != [] {
      ReadWritten(lines[1..]);
      ReadLine(lines[0], Write(lines[1..]));
      hide ReadLines, OneLine;
    }
  }

  predicate AllOneLine(lines: seq<string>) {
    forall i :: 0 <= i < |lines| ==> OneLine(lines[i])
  }

  /** No name or text holds a newline. */
  predicate OneLinePatches(ps: seq<Patch>) {
    forall i :: 0 <= i < |ps| ==>
      OneLine(ps[i].src) && OneLine(ps[i].dst) && OneLineChunks(ps[i].chunks)
  }

  predicate OneLineChunks(cs: seq<Chunk>) {
    forall i :: 0 <= i < |cs| ==> OneLineTexts(cs[i].lines)
  }

  predicate OneLineTexts(ls: seq<Line>) {
    forall i :: 0 <= i < |ls| ==> OneLine(ls[i].text)
  }

  lemma {:induction false} LinesOneLine(ls: seq<Line>)
    requires OneLineTexts(ls)
    ensures AllOneLine(LinesTexts(ls))
  {
    if ls != [] {
      LinesOneLine(ls[1..]);
    }
  }

  lemma HeaderOneLine(c: Chunk)
    ensures OneLine(Header(c))
  {
  }

  lemma {:induction false} ChunksOneLine(cs: seq<Chunk>)
    requires OneLineChunks(cs)
    ensures AllOneLine(ChunksTexts(cs))
  {
    if cs != [] {
      HeaderOneLine(cs[0]);
      LinesOneLine(cs[0].lines);
      ChunksOneLine(cs[1..]);
      hide Header, LinesTexts, OneLine, OneLineTexts;
    }
  }

  lemma {:induction false} PatchesOneLine(ps: seq<Patch>)
    requires OneLinePatches(ps)
    ensures AllOneLine(PatchesTexts(ps))
  {
    if ps != [] {
      assert OneLine("--- " + ps[0].src) && OneLine("+++ " + ps[0].dst);
      ChunksOneLine(ps[0].chunks);
      PatchesOneLine(ps[1..]);
      hide ChunksTexts, OneLine, OneLineChunks;
    }
  }

  /** The same through a file. */
  lemma FileRoundTripIff(ps: seq<Patch>)
    requires OneLinePatches(ps)
    ensures Parsed(ReadLines(Write(PatchesTexts(ps)))) == Some(ps) <==> CleanPatches(ps)
  {
    PatchesOneLine(ps);
    ReadWritten(PatchesTexts(ps));
    RoundTripIff(ps);
  }
}
