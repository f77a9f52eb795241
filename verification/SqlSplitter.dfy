/**
 * `_statements`: splits a SQL script at semicolons that end a line, never inside a `$$` body, and
 * drops comments-only chunks.
 */
module SqlSplitter {
  import opened PyText

  // ---- lines ----

  predicate IsComment(line: string) {
    "--" <= Strip(line)
  }

  predicate TogglesBody(line: string) {
    CountDollars(line) % 2 == 1
  }

  predicate EndsStatement(line: string) {
    EndsWithSemicolon(RStrip(line))
  }

  function DropComments(lines: seq<string>): seq<string> {
    if lines == [] then []
    else (if IsComment(lines[0]) then [] else [lines[0]]) + DropComments(lines[1..])
  }

  // ---- the splitter as a function: which lines go together ----

  /** Finished chunks, the lines collected since, and whether those lines end inside a body. */
  datatype Parts = Parts(chunks: seq<seq<string>>, buf: seq<string>, inBody: bool)

  function AddLine(p: Parts, line: string): Parts {
    var inBody := p.inBody != TogglesBody(line);
    if !inBody && EndsStatement(line) then Parts(p.chunks + [p.buf + [line]], [], inBody)
    else Parts(p.chunks, p.buf + [line], inBody)
  }

  function Split(lines: seq<string>): Parts {
    if lines == [] then Parts([], [], false)
    else AddLine(Split(lines[..|lines| - 1]), lines[|lines| - 1])
  }

  /** What a finished chunk contributes: its text without the semicolon, unless only comments remain. */
  function Emit(chunk: seq<string>): seq<string> {
    var stmt := Strip(Join(chunk));
    if Strip(Join(DropComments(SplitLines(stmt)))) != "" then [RStripSemicolons(stmt)] else []
  }

  /** What the lines after the last semicolon contribute; here comment lines are removed. */
  function EmitTail(buf: seq<string>): seq<string> {
    var tail := Strip(Join(DropComments(buf)));
    if tail != "" then [RStripSemicolons(tail)] else []
  }

  function EmitAll(chunks: seq<seq<string>>): seq<string> {
    if chunks == [] then [] else EmitAll(chunks[..|chunks| - 1]) + Emit(chunks[|chunks| - 1])
  }

  function Statements(script: string): seq<string> {
    var p := Split(SplitLines(script));
    EmitAll(p.chunks) + EmitTail(p.buf)
  }

  lemma SplitSnoc(lines: seq<string>, n: nat)
    requires n < |lines|
    ensures Split(lines[..n + 1]) == AddLine(Split(lines[..n]), lines[n])
  {
    assert lines[..n + 1][..n] == lines[..n];
  }

  lemma EmitAllSnoc(chunks: seq<seq<string>>, chunk: seq<string>)
    ensures EmitAll(chunks + [chunk]) == EmitAll(chunks) + Emit(chunk)
  {
    assert (chunks + [chunk])[..|chunks|] == chunks;
  }

  /** The source's loop over the lines. */
  method SplitScript(script: string) returns (out: seq<string>)
    ensures out == Statements(script)
  {
    var lines := SplitLines(script);
    out := [];
    var buf: seq<string>, inBody := [], false;
    for n := 0 to |lines|
      invariant Split(lines[..n]).buf == buf && Split(lines[..n]).inBody == inBody
      invariant EmitAll(Split(lines[..n]).chunks) == out
    {
      var line := lines[n];
      ghost var before := Split(lines[..n]);
      SplitSnoc(lines, n);
      EmitAllSnoc(before.chunks, buf + [line]);
      buf := buf + [line];
      if CountDollars(line) % 2 == 1 {
        inBody := !inBody;
      }
      if !inBody && EndsWithSemicolon(RStrip(line)) {
        var stmt := Strip(Join(buf));
        buf := [];
        var body := Strip(Join(DropComments(SplitLines(stmt))));
        if body != "" {
          out := out + [RStripSemicolons(stmt)];
        }
      }
    }
    assert lines[..|lines|] == lines;
    var tail := Strip(Join(DropComments(buf)));
    if tail != "" {
      out := out + [RStripSemicolons(tail)];
    }
  }

  // ---- conservation: the chunks are the input, cut outside bodies ----

  function Flatten(chunks: seq<seq<string>>): seq<string> {
    if chunks == [] then [] else Flatten(chunks[..|chunks| - 1]) + chunks[|chunks| - 1]
  }

  /** The parity of `$$` over some lines. */
  predicate OpenAfter(lines: seq<string>) {
    lines != [] && OpenAfter(lines[..|lines| - 1]) != TogglesBody(lines[|lines| - 1])
  }

  /** No line ends a statement outside a body. */
  predicate Unfinished(buf: seq<string>) {
    buf != [] ==> Unfinished(buf[..|buf| - 1]) && (OpenAfter(buf) || !EndsStatement(buf[|buf| - 1]))
  }

  /** A chunk ends at its first line that ends a statement outside a body. */
  predicate IsChunk(chunk: seq<string>) {
    && chunk != [] && Unfinished(chunk[..|chunk| - 1])
    && !OpenAfter(chunk) && EndsStatement(chunk[|chunk| - 1])
  }

  lemma Snoc<T>(s: seq<T>, x: T)
    ensures (s + [x])[..|s + [x]| - 1] == s && (s + [x])[|s + [x]| - 1] == x
  {
  }

  lemma OpenSnoc(lines: seq<string>, line: string)
    ensures OpenAfter(lines + [line]) == (OpenAfter(lines) != TogglesBody(line))
  {
    Snoc(lines, line);
  }

  /** What the parts of some lines promise: see `SplitConserves`. */
  predicate Conserved(p: Parts, lines: seq<string>) {
    && Flatten(p.chunks) + p.buf == lines
    && p.inBody == OpenAfter(lines) == OpenAfter(p.buf)
    && (forall i :: 0 <= i < |p.chunks| ==> IsChunk(p.chunks[i]))
    && Unfinished(p.buf)
  }

  lemma NothingConserved()
    ensures Conserved(Split([]), [])
  {
  }

  lemma AddLineConserves(p: Parts, lines: seq<string>, line: string)
    requires Conserved(p, lines)
    ensures Conserved(AddLine(p, line), lines + [line])
  {
    hide TogglesBody, EndsStatement;
    var grown := p.buf + [line];
    OpenSnoc(lines, line);
    OpenSnoc(p.buf, line);
    Snoc(p.buf, line);
    assert Flatten(p.chunks) + grown == lines + [line];
    if !OpenAfter(grown) && EndsStatement(line) {
      Snoc(p.chunks, grown);
      assert IsChunk(grown);
    } else {
      assert Unfinished(grown);
    }
  }

  /**
   * On every script: the chunks and the tail are the input lines in order, the flag is the parity of
   * the `$$` lines seen, each chunk ends at its first semicolon line outside a body, and the tail
   * holds no such line.
   */
  lemma {:induction false} SplitConserves(lines: seq<string>)
    ensures var p := Split(lines);
            && Flatten(p.chunks) + p.buf == lines
            && p.inBody == OpenAfter(lines) == OpenAfter(p.buf)
            && (forall i :: 0 <= i < |p.chunks| ==> IsChunk(p.chunks[i]))
            && Unfinished(p.buf)
  {
    hide Flatten, OpenAfter, IsChunk, Unfinished, AddLine;
    if lines != [] {
      var init, line := lines[..|lines| - 1], lines[|lines| - 1];
      SplitConserves(init);
      AddLineConserves(Split(init), init, line);
      assert lines == init + [line];
    } else {
      NothingConserved();
    }
  }

  lemma SplitAdd(lines: seq<string>, line: string)
    ensures Split(lines + [line]) == AddLine(Split(lines), line)
  {
    Snoc(lines, line);
  }

  lemma TailGrows(chunks: seq<seq<string>>, buf: seq<string>, line: string)
    requires Split(Flatten(chunks) + buf) == Parts(chunks, buf, OpenAfter(buf))
    requires OpenAfter(buf + [line]) || !EndsStatement(line)
    ensures Split(Flatten(chunks) + (buf + [line])) == Parts(chunks, buf + [line], OpenAfter(buf + [line]))
  {
    hide Flatten, Split, OpenAfter, TogglesBody, EndsStatement;
    var lines := Flatten(chunks) + buf;
    SplitAdd(lines, line);
    OpenSnoc(buf, line);
    assert Flatten(chunks) + (buf + [line]) == lines + [line];
  }

  lemma ChunkCloses(chunks: seq<seq<string>>, buf: seq<string>, line: string)
    requires Split(Flatten(chunks) + buf) == Parts(chunks, buf, OpenAfter(buf))
    requires !OpenAfter(buf + [line]) && EndsStatement(line)
    ensures Split(Flatten(chunks + [buf + [line]])) == Parts(chunks + [buf + [line]], [], false)
  {
    hide OpenAfter, TogglesBody, EndsStatement;
    var lines := Flatten(chunks) + buf;
    SplitAdd(lines, line);
    OpenSnoc(buf, line);
    Snoc(chunks, buf + [line]);
    assert Flatten(chunks + [buf + [line]]) == lines + [line];
  }

  /** The cut is the only one: chunks and a tail with these properties are what `Split` finds. */
  lemma {:induction false} SplitUnique(chunks: seq<seq<string>>, buf: seq<string>)
    requires forall i :: 0 <= i < |chunks| ==> IsChunk(chunks[i])
    requires Unfinished(buf)
    ensures Split(Flatten(chunks) + buf) == Parts(chunks, buf, OpenAfter(buf))
    decreases |chunks|, |buf|
  {
    if buf != [] {
      var init, line := buf[..|buf| - 1], buf[|buf| - 1];
      assert init + [line] == buf;
      SplitUnique(chunks, init);
      TailGrows(chunks, init, line);
    } else if chunks != [] {
      var rest, last := chunks[..|chunks| - 1], chunks[|chunks| - 1];
      assert rest + [last] == chunks && IsChunk(last);
      var init, line := last[..|last| - 1], last[|last| - 1];
      assert init + [line] == last;
      SplitUnique(rest, init);
      ChunkCloses(rest, init, line);
      assert Flatten(chunks) + buf == Flatten(chunks);
    }
  }
}
