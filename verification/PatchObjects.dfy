/** The patch objects, which the parser fills while it reads, and which write themselves. */
module PatchObjects {
  import opened Options
  import opened Patches

  /** A file open for writing. */
  class OutFile {
    var text: string

    constructor ()
      ensures text == ""
    {
      text := "";
    }

    method Append(s: string)
      modifies this
      ensures text == old(text) + s
    {
      text := text + s;
    }
  }

  class PatchChunk {
    const srcPos: nat
    const dstPos: nat
    var lines: seq<Line>

    constructor (srcPos: nat, dstPos: nat)
      ensures Value() == Chunk(srcPos, dstPos, [])
    {
      this.srcPos, this.dstPos, lines := srcPos, dstPos, [];
    }

    function Value(): Chunk
      reads this
    {
      Chunk(srcPos, dstPos, lines)
    }

    method AddLine(line: Line)
      modifies this
      ensures lines == old(lines) + [line]
    {
      lines := lines + [line];
    }

    method SrcLength() returns (n: nat)
      ensures n == SrcLen(lines)
    {
      n := 0;
      for k := 0 to |lines|
        invariant n + SrcLen(lines[k..]) == SrcLen(lines)
      {
        if lines[k].kind != DST {
          n := n + 1;
        }
      }
    }

    method DstLength() returns (n: nat)
      ensures n == DstLen(lines)
    {
      n := 0;
      for k := 0 to |lines|
        invariant n + DstLen(lines[k..]) == DstLen(lines)
      {
        if lines[k].kind != SRC {
          n := n + 1;
        }
      }
    }

    method WriteHeader(f: OutFile)
      modifies f
      ensures f.text == old(f.text) + (Header(Value()) + "\n")
    {
      var srcLen := SrcLength();
      var dstLen := DstLength();
      f.Append("@@ -" + (Decimal(srcPos) + ("," + (Decimal(srcLen) + (" +"
        + (Decimal(dstPos) + ("," + (Decimal(dstLen) + " @@"))))))) + "\n");
    }

    method WriteTo(f: OutFile)
      modifies f
      ensures f.text == old(f.text) + Write([Header(Value())] + LinesTexts(lines))
    {
      ghost var goal := f.text + Write([Header(Value())] + LinesTexts(lines));
      WriteHeader(f);
      assert lines[0..] == lines;
      assert f.text + Write(LinesTexts(lines[0..])) == goal;
      hide Write, LinesTexts, Header, LineText;
      for k := 0 to |lines|
        invariant f.text + Write(LinesTexts(lines[k..])) == goal
      {
        WriteLine(f.text, lines, k);
        f.Append(LineText(lines[k]) + "\n");
      }
    }
  }

  /** The changes to one file. */
  class FilePatch {
    var src: string
    var dst: string
    var chunks: seq<PatchChunk>

    constructor ()
      ensures src == "" && dst == "" && chunks == []
    {
      src, dst, chunks := "", "", [];
    }

    method AddChunk(chunk: PatchChunk)
      modifies this`chunks
      ensures chunks == old(chunks) + [chunk]
    {
      chunks := chunks + [chunk];
    }

    method SetSrc(src: string)
      modifies this`src
      ensures this.src == src
    {
      this.src := src;
    }

    method SetDst(dst: string)
      modifies this`dst
      ensures this.dst == dst
    {
      this.dst := dst;
    }

    /** The object holds the patch `p`. */
    ghost predicate Holds(p: Patch)
      reads this, chunks
    {
      && src == p.src && dst == p.dst && |chunks| == |p.chunks|
      && forall k :: 0 <= k < |chunks| ==> chunks[k].Value() == p.chunks[k]
    }

    method WriteTo(f: OutFile, ghost p: Patch)
      requires Holds(p)
      modifies f
      ensures f.text == old(f.text) + Write(PatchesTexts([p]))
    {
      var goal := f.text + Write(PatchesTexts([p]));
      PatchTexts(f.text, p);
      f.Append("--- " + src + "\n");
      f.Append("+++ " + dst + "\n");
      hide Write, PatchesTexts, ChunksTexts, LinesTexts, Header;
      assert p.chunks[0..] == p.chunks;
      for k := 0 to |chunks|
        invariant f.text + Write(ChunksTexts(p.chunks[k..])) == goal
      {
        WriteChunks(f.text, p.chunks, k);
        chunks[k].WriteTo(f);
      }
    }
  }

  lemma {:induction false} WriteAppend(a: seq<string>, b: seq<string>)
    ensures Write(a + b) == Write(a) + Write(b)
  {
    if a == [] {
      assert a + b == b;
    } else {
      assert (a + b)[0] == a[0] && (a + b)[1..] == a[1..] + b;
      WriteAppend(a[1..], b);
    }
  }

  lemma WriteLine(before: string, ls: seq<Line>, k: nat)
    requires k < |ls|
    ensures before + Write(LinesTexts(ls[k..])) == before + (LineText(ls[k]) + "\n") + Write(LinesTexts(ls[k + 1..]))
  {
  }

  lemma PatchTexts(before: string, p: Patch)
    ensures before + Write(PatchesTexts([p]))
         == before + ("--- " + p.src + "\n") + ("+++ " + p.dst + "\n") + Write(ChunksTexts(p.chunks))
  {
    var rest := ChunksTexts(p.chunks);
    assert PatchesTexts([]) == [] && rest + [] == rest;
    assert [p][1..] == [];
    var lines := ["--- " + p.src] + (["+++ " + p.dst] + rest);
    assert lines[1..] == ["+++ " + p.dst] + rest && lines[1..][1..] == rest;
  }

  lemma WriteChunks(before: string, cs: seq<Chunk>, k: nat)
    requires k < |cs|
    ensures before + Write(ChunksTexts(cs[k..]))
         == before + Write([Header(cs[k])] + LinesTexts(cs[k].lines)) + Write(ChunksTexts(cs[k + 1..]))
  {
    assert cs[k..][0] == cs[k] && cs[k..][1..] == cs[k + 1..];
    var own := [Header(cs[k])] + LinesTexts(cs[k].lines);
    assert ChunksTexts(cs[k..]) == own + ChunksTexts(cs[k + 1..]);
    WriteAppend(own, ChunksTexts(cs[k + 1..]));
  }

  // ----- Parsing -----

  ghost function Chunks(objs: seq<FilePatch>): set<PatchChunk>
    reads objs
  {
    set i: nat, k: nat | i < |objs| && k < |objs[i].chunks| :: objs[i].chunks[k]
  }

  /** No object occurs twice, so that filling one leaves the others alone. */
  ghost predicate Separate(objs: seq<FilePatch>)
    reads objs
  {
    && (forall i, j :: 0 <= i < j < |objs| ==> objs[i] != objs[j])
    && (forall i, k, l :: 0 <= i < |objs| && 0 <= k < l < |objs[i].chunks| ==> objs[i].chunks[k] != objs[i].chunks[l])
    && forall i, j, k, l :: 0 <= i < j < |objs| && 0 <= k < |objs[i].chunks| && 0 <= l < |objs[j].chunks| ==>
      objs[i].chunks[k] != objs[j].chunks[l]
  }

  /** The objects hold the patches of the parser, and the current chunk is the parser's. */
  ghost predicate Mirrors(objs: seq<FilePatch>, currentChunk: PatchChunk?, p: Parser)
    reads objs, Chunks(objs)
  {
    && ValidParser(p) && Separate(objs) && |objs| == |p.patches|
    && (forall i :: 0 <= i < |objs| ==> objs[i].Holds(p.patches[i]))
    && currentChunk == if p.chunkAt.None? then null else objs[p.chunkAt.value.0].chunks[p.chunkAt.value.1]
  }

  lemma OneMorePatch(objs: seq<FilePatch>, patch: FilePatch, src: string, chunk: PatchChunk?, p: Parser)
    requires Mirrors(objs, chunk, p)
    requires (forall i :: 0 <= i < |objs| ==> objs[i] != patch) && patch.Holds(Patch(src, "", []))
    ensures Mirrors(objs + [patch], chunk, p.(patches := p.patches + [Patch(src, "", [])]))
  {
  }

  method StartPatch(objs0: seq<FilePatch>, src: string, ghost chunk: PatchChunk?, ghost p: Parser)
    returns (objs: seq<FilePatch>, patch: FilePatch)
    requires Mirrors(objs0, chunk, p)
    ensures objs == objs0 + [patch] && fresh(patch)
    ensures Mirrors(objs, chunk, p.(patches := p.patches + [Patch(src, "", [])]))
  {
    patch := new FilePatch();
    patch.SetSrc(src);
    objs := objs0 + [patch];
    assert Mirrors(objs0, chunk, p);
    OneMorePatch(objs0, patch, src, chunk, p);
  }

  method SetDst(objs: seq<FilePatch>, dst: string, ghost chunk: PatchChunk?, ghost p: Parser)
    requires Mirrors(objs, chunk, p) && objs != []
    modifies objs[|objs| - 1]
    ensures var last := p.patches[|p.patches| - 1];
      Mirrors(objs, chunk, p.(patches := UpdateLast(p.patches, last.(dst := dst))))
  {
    objs[|objs| - 1].SetDst(dst);
  }

  lemma Assemble(objs: seq<FilePatch>, p: Parser, last: Patch)
    requires objs != [] && |objs| == |p.patches| && Separate(objs) && last.chunks != []
    requires forall i :: 0 <= i < |objs| - 1 ==> objs[i].Holds(p.patches[i])
    requires objs[|objs| - 1].Holds(last)
    ensures Mirrors(objs, objs[|objs| - 1].chunks[|last.chunks| - 1],
      Parser(UpdateLast(p.patches, last), Some((|objs| - 1, |last.chunks| - 1))))
  {
  }

  method StartChunk(objs: seq<FilePatch>, srcPos: nat, dstPos: nat, ghost chunk0: PatchChunk?, ghost p: Parser)
    returns (chunk: PatchChunk)
    requires Mirrors(objs, chunk0, p) && objs != []
    modifies objs[|objs| - 1]
    ensures fresh(chunk)
    ensures var last := p.patches[|p.patches| - 1];
      Mirrors(objs, chunk, Parser(UpdateLast(p.patches, last.(chunks := last.chunks + [Chunk(srcPos, dstPos, [])])),
        Some((|p.patches| - 1, |last.chunks|))))
  {
    chunk := new PatchChunk(srcPos, dstPos);
    var patch := objs[|objs| - 1];
    patch.AddChunk(chunk);
    ghost var last := p.patches[|p.patches| - 1];
    Assemble(objs, p, last.(chunks := last.chunks + [Chunk(srcPos, dstPos, [])]));
  }

  method AddToChunk(ghost objs: seq<FilePatch>, line: Line, chunk: PatchChunk, ghost p: Parser)
    requires Mirrors(objs, chunk, p)
    modifies chunk
    ensures AddLine(p, line).Some? && Mirrors(objs, chunk, AddLine(p, line).value)
  {
    chunk.AddLine(line);
  }

  /** One line of input. An object that does not exist yet where the line needs it is an error, as
      is a line of no known kind. */
  method TakeLine(line: string, objs0: seq<FilePatch>, currentPatch0: FilePatch?, currentChunk0: PatchChunk?,
                  ghost p: Parser)
    returns (ok: bool, objs: seq<FilePatch>, currentPatch: FilePatch?, currentChunk: PatchChunk?)
    requires Mirrors(objs0, currentChunk0, p)
    requires currentPatch0 == if objs0 == [] then null else objs0[|objs0| - 1]
    modifies if objs0 == [] then {} else {objs0[|objs0| - 1]}
    modifies if currentChunk0 == null then {} else {currentChunk0}
    ensures ok <==> Next(p, line).Some?
    ensures ok ==> Mirrors(objs, currentChunk, Next(p, line).value)
    ensures ok ==> currentPatch == if objs == [] then null else objs[|objs| - 1]
    ensures objs0 <= objs && forall i :: |objs0| <= i < |objs| ==> fresh(objs[i])
    ensures currentChunk == currentChunk0 || fresh(currentChunk)
  {
    ok, objs, currentPatch, currentChunk := true, objs0, currentPatch0, currentChunk0;
    if StartsWith(line, "--- ") {
      objs, currentPatch := StartPatch(objs0, line[4..], currentChunk0, p);
    } else if StartsWith(line, "+++ ") {
      if currentPatch == null {
        return false, objs, currentPatch, currentChunk;
      }
      SetDst(objs, line[4..], currentChunk0, p);
    } else if MatchChunkStart(line).Some? {
      if currentPatch == null {
        return false, objs, currentPatch, currentChunk;
      }
      var (srcPos, _, dstPos, _) := MatchChunkStart(line).value;
      currentChunk := StartChunk(objs, srcPos, dstPos, currentChunk0, p);
    } else if !StartsWith(line, "-") && !StartsWith(line, "+") && !StartsWith(line, " ") {
      ok := false;
    } else if currentChunk == null {
      ok := false;
    } else {
      var kind := if StartsWith(line, "-") then SRC else if StartsWith(line, "+") then DST else BOTH;
      AddToChunk(objs, Line(kind, line[1..]), currentChunk, p);
    }
  }

  /** The objects returned hold what the lines say; nothing is returned after an error. */
  method ParsePatchset(generator: seq<string>) returns (ok: bool, patchset: seq<FilePatch>)
    ensures ok <==> Parsed(generator).Some?
    ensures ok ==> Separate(patchset) && |patchset| == |Parsed(generator).value|
    ensures ok ==> forall i :: 0 <= i < |patchset| ==>
      fresh(patchset[i]) && patchset[i].Holds(Parsed(generator).value[i])
  {
    var currentPatch: FilePatch?, currentChunk: PatchChunk? := null, null;
    patchset := [];
    ghost var start := Parser([], None);
    ghost var p := start;
    for k := 0 to |generator|
      invariant Mirrors(patchset, currentChunk, p)
      invariant currentPatch == if patchset == [] then null else patchset[|patchset| - 1]
      invariant forall i :: 0 <= i < |patchset| ==> fresh(patchset[i])
      invariant currentChunk != null ==> fresh(currentChunk)
      invariant Feed(p, generator[k..]) == Feed(start, generator)
    {
      assert generator[k..][0] == generator[k] && generator[k..][1..] == generator[k + 1..];
      ok, patchset, currentPatch, currentChunk := TakeLine(generator[k], patchset, currentPatch, currentChunk, p);
      if !ok {
        return;
      }
      p := Next(p, generator[k]).value;
    }
    ok := true;
  }
}
