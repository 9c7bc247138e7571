/** The patch format spelled out: what a written header counts, what a written patch looks like,
    and what the parser makes of each form of line. */
module PatchFormat {
  import opened Options
  import opened Patches
  import opened Sequences
  import opened Sums

  // ----- The counts of a header -----

  /** The positions of removed and unchanged lines. */
  ghost function SrcLines(ls: seq<Line>): set<nat> {
    set i: nat | i < |ls| && (ls[i].kind.SRC? || ls[i].kind.BOTH?)
  }

  /** The positions of added and unchanged lines. */
  ghost function DstLines(ls: seq<Line>): set<nat> {
    set i: nat | i < |ls| && (ls[i].kind.DST? || ls[i].kind.BOTH?)
  }

  ghost function BothLines(ls: seq<Line>): set<nat> {
    set i: nat | i < |ls| && ls[i].kind.BOTH?
  }

  lemma {:induction false} SrcLenCounts(ls: seq<Line>)
    ensures SrcLen(ls) == |Where(ls, (l: Line) => !l.kind.DST?)|
  {
    if ls != [] {
      SrcLenCounts(ls[1..]);
      WhereStep(ls, (l: Line) => !l.kind.DST?);
    }
  }

  lemma {:induction false} DstLenCounts(ls: seq<Line>)
    ensures DstLen(ls) == |Where(ls, (l: Line) => !l.kind.SRC?)|
  {
    if ls != [] {
      DstLenCounts(ls[1..]);
      WhereStep(ls, (l: Line) => !l.kind.SRC?);
    }
  }

  lemma SidesOverlap(ls: seq<Line>)
    ensures |SrcLines(ls)| + |DstLines(ls)| == |ls| + |BothLines(ls)|
  {
    SumOnes(ls, (_: Line) => 1);
    SumIsCount(ls, (_: Line) => 1, (_: Line) => true);
    assert SrcLines(ls) + DstLines(ls) == Where(ls, (_: Line) => true);
    assert SrcLines(ls) * DstLines(ls) == BothLines(ls);
  }

  lemma SidesCounted(ls: seq<Line>)
    ensures Where(ls, (l: Line) => !l.kind.DST?) == SrcLines(ls)
    ensures Where(ls, (l: Line) => !l.kind.SRC?) == DstLines(ls)
  {
  }

  /** A header that is read back counts the lines of either side, unchanged lines on both. */
  lemma HeaderCounts(c: Chunk)
    ensures var h := MatchChunkStart(Header(c));
      && h == Some((c.srcPos, |SrcLines(c.lines)|, c.dstPos, |DstLines(c.lines)|))
      && h.value.1 + h.value.3 == |c.lines| + |BothLines(c.lines)|
  {
    hide *;
    HeaderMatches(c);
    SrcLenCounts(c.lines);
    DstLenCounts(c.lines);
    SidesCounted(c.lines);
    SidesOverlap(c.lines);
  }

  // ----- Numbers -----

  predicate IsDigits(s: string) {
    forall i :: 0 <= i < |s| ==> IsDigit(s[i])
  }

  /** The digits stand for the number, in base ten, with no zero in front. */
  lemma {:induction false} DecimalDenotes(n: nat)
    ensures ParseDecimal(Decimal(n)) == n && (Decimal(n)[0] == '0' ==> n == 0 && Decimal(n) == "0")
  {
    DecimalRoundTrip(n);
    if n >= 10 {
      DecimalDenotes(n / 10);
    }
  }

  lemma NumberOfDigits(digits: string, d: char)
    requires IsDigits(digits) && IsDigit(d)
    ensures IsDigits(digits + [d]) && ParseDecimal("") == 0
    ensures ParseDecimal(digits + [d]) == 10 * ParseDecimal(digits) + (d as int - '0' as int)
  {
    assert (digits + [d])[..|digits|] == digits;
  }

  // ----- Chunk headers -----

  /** The text of a chunk header made of four strings of digits, and anything after it. */
  function HeaderText(a: string, b: string, c: string, d: string, rest: string): string {
    "@@ -" + (a + ("," + (b + (" +" + (c + ("," + (d + (" @@" + rest))))))))
  }

  lemma NumberMatches(digits: string, separator: string, rest: string)
    requires digits != "" && IsDigits(digits) && separator != "" && !IsDigit(separator[0])
    ensures MatchNumber(digits + (separator + rest), separator) == Some((ParseDecimal(digits), rest))
  {
    var tail := separator + rest;
    var s := digits + tail;
    assert tail[0] == separator[0];
    DigitSpanOf(digits, tail);
    assert s[..|digits|] == digits && s[|digits|..] == tail;
    assert tail[|separator|..] == rest && s[|digits| + |separator|..] == tail[|separator|..];
  }

  /** Every header text is recognised, and the numbers read are those written. */
  lemma HeaderTextMatches(a: string, b: string, c: string, d: string, rest: string)
    requires a != "" && b != "" && c != "" && d != ""
    requires IsDigits(a) && IsDigits(b) && IsDigits(c) && IsDigits(d)
    ensures MatchChunkStart(HeaderText(a, b, c, d, rest))
      == Some((ParseDecimal(a), ParseDecimal(b), ParseDecimal(c), ParseDecimal(d)))
  {
    var after3 := c + ("," + (d + (" @@" + rest)));
    var after2 := b + (" +" + after3);
    var after1 := a + ("," + after2);
    assert HeaderText(a, b, c, d, rest)[4..] == after1;
    NumberMatches(a, ",", after2);
    NumberMatches(b, " +", after3);
    NumberMatches(c, ",", d + (" @@" + rest));
    NumberMatches(d, " @@", rest);
    hide MatchNumber, ParseDecimal, IsDigits;
  }

  lemma NumberFound(s: string, separator: string) returns (digits: string)
    requires MatchNumber(s, separator).Some?
    ensures digits != "" && IsDigits(digits) && s == digits + (separator + MatchNumber(s, separator).value.1)
  {
    var n := DigitSpan(s);
    digits := s[..n];
    assert s[n..] == separator + s[n..][|separator|..];
    assert s[n + |separator|..] == s[n..][|separator|..];
  }

  /** Nothing else is recognised. */
  lemma HeaderTextFound(line: string) returns (a: string, b: string, c: string, d: string, rest: string)
    requires MatchChunkStart(line).Some?
    ensures a != "" && b != "" && c != "" && d != ""
    ensures IsDigits(a) && IsDigits(b) && IsDigits(c) && IsDigits(d)
    ensures line == HeaderText(a, b, c, d, rest)
  {
    assert line == "@@ -" + line[4..];
    a := NumberFound(line[4..], ",");
    var after2 := MatchNumber(line[4..], ",").value.1;
    b := NumberFound(after2, " +");
    var after3 := MatchNumber(after2, " +").value.1;
    c := NumberFound(after3, ",");
    var after4 := MatchNumber(after3, ",").value.1;
    d := NumberFound(after4, " @@");
    rest := MatchNumber(after4, " @@").value.1;
    hide MatchNumber, IsDigits;
  }

  // ----- Lines of a patch file -----

  /** A source file header starts a new patch. */
  lemma ReadsSource(p: Parser, name: string)
    requires ValidParser(p)
    ensures Next(p, "--- " + name) == Some(p.(patches := p.patches + [Patch(name, "", [])]))
  {
    assert ("--- " + name)[4..] == name;
  }

  /** A destination file header names the destination of the last patch, and fails before any. */
  lemma ReadsDestination(p: Parser, name: string)
    requires ValidParser(p)
    ensures p.patches == [] ==> Next(p, "+++ " + name).None?
    ensures p.patches != [] ==>
      var n := |p.patches| - 1;
      Next(p, "+++ " + name) == Some(p.(patches := p.patches[n := p.patches[n].(dst := name)]))
  {
    var line := "+++ " + name;
    assert line[4..] == name && line[0] == '+';
  }

  lemma ChunkBeforePatch(line: string, p: Parser)
    requires ValidParser(p) && p.patches == [] && MatchChunkStart(line).Some? && line != "" && line[0] == '@'
    ensures Next(p, line).None?
  {
    hide MatchChunkStart;
  }

  lemma HeaderTextStarts(a: string, b: string, c: string, d: string, rest: string)
    ensures HeaderText(a, b, c, d, rest) != "" && HeaderText(a, b, c, d, rest)[0] == '@'
  {
  }

  /** A chunk header starts a chunk of the last patch at its first and third numbers, and fails
      before any patch. */
  lemma ReadsChunk(p: Parser, a: string, b: string, c: string, d: string, rest: string)
    requires ValidParser(p)
    requires a != "" && b != "" && c != "" && d != ""
    requires IsDigits(a) && IsDigits(b) && IsDigits(c) && IsDigits(d)
    ensures p.patches == [] ==> Next(p, HeaderText(a, b, c, d, rest)).None?
    ensures p.patches != [] ==>
      var n := |p.patches| - 1;
      var last := p.patches[n];
      Next(p, HeaderText(a, b, c, d, rest)) == Some(Parser(
        p.patches[n := last.(chunks := last.chunks + [Chunk(ParseDecimal(a), ParseDecimal(c), [])])],
        Some((n, |last.chunks|))))
  {
    var line, srcPos, dstPos := HeaderText(a, b, c, d, rest), ParseDecimal(a), ParseDecimal(c);
    hide *;
    HeaderTextMatches(a, b, c, d, rest);
    HeaderTextStarts(a, b, c, d, rest);
    if p.patches == [] {
      ChunkBeforePatch(line, p);
    } else {
      NextAtHeader(p, line, srcPos, dstPos);
    }
  }

  /** A line with a sign is a line of the current chunk, unless it reads as a file header; before
      any chunk it fails. */
  lemma ReadsLine(p: Parser, text: string)
    requires ValidParser(p)
    ensures !StartsWith(text, "-- ") ==> Next(p, "-" + text) == AddLine(p, Line(SRC, text))
    ensures !StartsWith(text, "++ ") ==> Next(p, "+" + text) == AddLine(p, Line(DST, text))
    ensures Next(p, " " + text) == AddLine(p, Line(BOTH, text))
    ensures p.chunkAt.None? <==> Next(p, " " + text).None?
    ensures p.chunkAt.None? && !StartsWith(text, "-- ") ==> Next(p, "-" + text).None?
    ensures p.chunkAt.None? && !StartsWith(text, "++ ") ==> Next(p, "+" + text).None?
  {
    LineIsNotHeader(Line(SRC, text));
    LineIsNotHeader(Line(DST, text));
    LineIsNotHeader(Line(BOTH, text));
    var src, dst, both := "-" + text, "+" + text, " " + text;
    assert src[1..] == text && dst[1..] == text && both[1..] == text;
    assert src[0] == '-' && dst[0] == '+' && both[0] == ' ';
    hide MatchChunkStart;
  }

  /** Every other line fails: an empty one, and one that is no chunk header and starts otherwise. */
  lemma ReadsNothing(p: Parser, line: string)
    requires ValidParser(p) && MatchChunkStart(line).None?
    requires line == "" || line[0] !in {'-', '+', ' '}
    ensures Next(p, line).None?
  {
  }

  lemma HeaderExample(ls: seq<Line>)
    requires ls == [Line(BOTH, "x"), Line(SRC, "y")]
    ensures Header(Chunk(7, 12, ls)) == "@@ -7,2 +12,1 @@"
  {
    assert ls[1..] == [Line(SRC, "y")];
    assert Decimal(12) == Decimal(1) + "2" == "12";
    assert SrcLen(ls) == 1 + SrcLen(ls[1..]) == 2;
    assert DstLen(ls) == 1 + DstLen(ls[1..]) == 1;
  }

  lemma LinesExample(ls: seq<Line>)
    requires ls == [Line(BOTH, "x"), Line(SRC, "y")]
    ensures LinesTexts(ls) == [" x", "-y"]
  {
    assert LineText(ls[0]) == " x" && LineText(ls[1]) == "-y";
    assert LinesTexts(ls[1..]) == ["-y"] + LinesTexts([]);
  }

  /** A whole patch, as it is written. */
  lemma WrittenExample(ls: seq<Line>)
    requires ls == [Line(BOTH, "x"), Line(SRC, "y")]
    ensures PatchesTexts([Patch("a", "b", [Chunk(7, 12, ls)])])
      == ["--- a", "+++ b", "@@ -7,2 +12,1 @@", " x", "-y"]
    ensures Write(["p", "q"]) == "p\nq\n"
  {
    HeaderExample(ls);
    LinesExample(ls);
    hide Header, LinesTexts;
    var c := Chunk(7, 12, ls);
    assert ChunksTexts([c]) == [Header(c)] + (LinesTexts(ls) + ChunksTexts([]));
    assert "--- " + "a" == "--- a" && "+++ " + "b" == "+++ b";
  }
}
