/** What the splitter is for: it undoes joining statements, and it loses no SQL. */
module SplitterProofs {
  import opened PyText
  import opened SqlSplitter

  lemma CommentIff(line: string)
    ensures IsComment(line) <==> "--" <= LStrip(line)
  {
    var x := LStrip(line);
    RStripPrefix(x);
    if "--" <= x {
      RStripKeeps(x, 1);
    }
  }

  // ---- round trip ----

  /**
   * The lines of a statement the splitter can recover: stripped ends, no trailing semicolon, balanced
   * `$$`, no earlier line that ends a statement outside a body, and something besides comments.
   */
  ghost predicate WellFormed(lines: seq<string>) {
    && lines != [] && (forall i :: 0 <= i < |lines| ==> BreakFree(lines[i]))
    && Strip(Join(lines)) == Join(lines) && !EndsWithSemicolon(Join(lines))
    && Unfinished(lines[..|lines| - 1]) && !OpenAfter(lines)
    && exists i :: 0 <= i < |lines| && !IsComment(lines[i]) && !AllSpace(lines[i])
  }

  function Terminated(lines: seq<string>): seq<string> {
    if lines == [] then [";"] else lines[|lines| - 1 := lines[|lines| - 1] + ";"]
  }

  /** Each statement followed by a semicolon, one after the other. */
  function Script(statements: seq<seq<string>>): string {
    Join(TerminatedTexts(statements))
  }

  function TerminatedTexts(statements: seq<seq<string>>): seq<string> {
    if statements == [] then []
    else TerminatedTexts(statements[..|statements| - 1]) + [Join(statements[|statements| - 1]) + ";"]
  }

  lemma StrippedLeft(text: string)
    requires Strip(text) == text
    ensures LStrip(text) == text
  {
    var x := LStrip(text);
    LStripSuffix(text);
    RStripPrefix(x);
    assert |x| == |text|;
  }

  lemma StrippedText(text: string)
    requires Strip(text) == text && !AllSpace(text)
    ensures Strip(text + ";") == text + ";"
  {
    StrippedLeft(text);
    LStripAppend(text, ";");
    RStripSnoc(text, ';');
  }

  lemma {:induction false} DropCommentsKeeps(lines: seq<string>, i: nat)
    requires i < |lines| && !IsComment(lines[i])
    ensures lines[i] in DropComments(lines)
  {
    if i > 0 {
      DropCommentsKeeps(lines[1..], i - 1);
    }
  }

  lemma SemicolonKeepsKind(line: string)
    requires !AllSpace(line)
    ensures IsComment(line + ";") <==> IsComment(line)
  {
    CommentIff(line);
    CommentIff(line + ";");
    LStripAppend(line, ";");
  }

  lemma SemicolonEndsStatement(line: string)
    ensures EndsStatement(line + ";") && TogglesBody(line + ";") == TogglesBody(line)
  {
    CountDollarsSnoc(line, ';');
    RStripSnoc(line, ';');
  }

  lemma TerminatedIsChunk(lines: seq<string>)
    requires WellFormed(lines)
    ensures IsChunk(Terminated(lines))
  {
    hide EndsStatement, TogglesBody, Join, Strip;
    var init, last := lines[..|lines| - 1], lines[|lines| - 1];
    assert Terminated(lines) == init + [last + ";"] && lines == init + [last];
    OpenSnoc(init, last);
    OpenSnoc(init, last + ";");
    SemicolonEndsStatement(last);
    Snoc(init, last + ";");
  }

  lemma TerminatedLines(lines: seq<string>)
    requires WellFormed(lines)
    ensures SplitLines(Join(lines) + ";") == Terminated(lines)
    ensures !AllSpace(Join(lines))
  {
    JoinLast(lines, ";");
    SplitJoin(Terminated(lines));
    if AllSpace(Join(lines)) {
      forall i | 0 <= i < |lines| ensures AllSpace(lines[i]) { JoinAllSpace(lines, i); }
    }
  }

  lemma BodyRemains(lines: seq<string>)
    requires WellFormed(lines)
    ensures Strip(Join(DropComments(Terminated(lines)))) != ""
  {
    var i :| 0 <= i < |lines| && !IsComment(lines[i]) && !AllSpace(lines[i]);
    var kept := DropComments(Terminated(lines));
    var line := Terminated(lines)[i];
    SemicolonKeepsKind(lines[i]);
    DropCommentsKeeps(Terminated(lines), i);
    var j :| 0 <= j < |kept| && kept[j] == line;
    assert !AllSpace(line) by {
      var k :| 0 <= k < |lines[i]| && !IsSpace(lines[i][k]);
      assert line[k] == lines[i][k];
    }
    if AllSpace(Join(kept)) {
      JoinAllSpace(kept, j);
    }
    StripEmptyIffAllSpace(Join(kept));
  }

  lemma EmitTerminated(lines: seq<string>)
    requires WellFormed(lines)
    ensures Emit(Terminated(lines)) == [Join(lines)]
  {
    var text := Join(lines);
    JoinLast(lines, ";");
    TerminatedLines(lines);
    StrippedText(text);
    BodyRemains(lines);
    assert RStripSemicolons(text) == text;
    assert (text + ";")[..|text|] == text;
    assert RStripSemicolons(text + ";") == text;
  }

  function AllTerminated(statements: seq<seq<string>>): seq<seq<string>> {
    if statements == [] then []
    else AllTerminated(statements[..|statements| - 1]) + [Terminated(statements[|statements| - 1])]
  }

  function Texts(statements: seq<seq<string>>): (texts: seq<string>)
    ensures |texts| == |statements| && forall i :: 0 <= i < |texts| ==> texts[i] == Join(statements[i])
  {
    seq(|statements|, i requires 0 <= i < |statements| => Join(statements[i]))
  }

  lemma {:induction false} TerminatedChunks(statements: seq<seq<string>>)
    requires forall i :: 0 <= i < |statements| ==> WellFormed(statements[i])
    ensures forall i :: 0 <= i < |AllTerminated(statements)| ==> IsChunk(AllTerminated(statements)[i])
  {
    if statements != [] {
      TerminatedChunks(statements[..|statements| - 1]);
      TerminatedIsChunk(statements[|statements| - 1]);
    }
  }

  lemma {:induction false} EmitAllTerminated(statements: seq<seq<string>>)
    requires forall i :: 0 <= i < |statements| ==> WellFormed(statements[i])
    ensures EmitAll(AllTerminated(statements)) == Texts(statements)
  {
    hide Emit, Terminated, Join, Texts;
    if statements != [] {
      var rest, last := statements[..|statements| - 1], statements[|statements| - 1];
      EmitAllTerminated(rest);
      EmitTerminated(last);
      EmitAllSnoc(AllTerminated(rest), Terminated(last));
      TextsSnoc(rest, last);
      assert rest + [last] == statements;
    } else {
      NoTexts();
    }
  }

  lemma NoTexts()
    ensures Texts([]) == []
  {
  }

  lemma TextsSnoc(statements: seq<seq<string>>, last: seq<string>)
    ensures Texts(statements + [last]) == Texts(statements) + [Join(last)]
  {
  }

  lemma TerminatedShape(lines: seq<string>)
    requires WellFormed(lines)
    ensures var t := Terminated(lines);
      && t != [] && t[|t| - 1] != "" && Join(t) == Join(lines) + ";"
      && forall k :: 0 <= k < |t| ==> BreakFree(t[k])
  {
    JoinLast(lines, ";");
  }

  /** The lines of the script are the lines of the terminated statements, one after the other. */
  lemma {:induction false} ScriptLines(statements: seq<seq<string>>)
    requires statements != [] && forall i :: 0 <= i < |statements| ==> WellFormed(statements[i])
    ensures var lines := Flatten(AllTerminated(statements));
            && lines != [] && lines[|lines| - 1] != "" && Join(lines) == Script(statements)
            && forall k :: 0 <= k < |lines| ==> BreakFree(lines[k])
  {
    hide Join, BreakFree, Terminated, WellFormed;
    var rest, last := statements[..|statements| - 1], statements[|statements| - 1];
    var front := AllTerminated(rest);
    Snoc(front, Terminated(last));
    TerminatedShape(last);
    if rest == [] {
      assert Flatten(front) + Terminated(last) == Terminated(last);
      assert TerminatedTexts(statements) == [Join(last) + ";"];
      JoinOne(Join(last) + ";");
    } else {
      ScriptLines(rest);
      JoinAppend(Flatten(front), Terminated(last));
      JoinAppend(TerminatedTexts(rest), [Join(last) + ";"]);
      JoinOne(Join(last) + ";");
    }
  }

  lemma JoinOne(text: string)
    ensures Join([text]) == text
  {
  }

  /** Main result: joining well-formed statements with semicolons and splitting gives them back. */
  lemma SplitUndoesJoin(statements: seq<seq<string>>)
    requires forall i :: 0 <= i < |statements| ==> WellFormed(statements[i])
    ensures Statements(Script(statements)) == Texts(statements)
  {
    var chunks := AllTerminated(statements);
    TerminatedChunks(statements);
    SplitUnique(chunks, []);
    EmitAllTerminated(statements);
    assert Flatten(chunks) + [] == Flatten(chunks);
    if statements == [] {
      assert SplitLines(Script(statements)) == [];
    } else {
      ScriptLines(statements);
      SplitJoin(Flatten(chunks));
    }
    assert EmitTail([]) == [];
  }

  // ---- no SQL is lost ----

  /** Characters the splitter may take off the end of a text: white space, and of a statement semicolons too. */
  predicate Trimmable(c: char, semis: bool) {
    IsSpace(c) || (semis && c == ';')
  }

  function RTrim(s: string, semis: bool): string {
    if s != "" && Trimmable(s[|s| - 1], semis) then RTrim(s[..|s| - 1], semis) else s
  }

  /** A line without surrounding white space and trailing semicolons. */
  function Core(line: string, semis: bool): string {
    RTrim(LStrip(line), semis)
  }

  datatype Line = Line(text: string, comment: bool)

  /** What some lines hold: the cores of those that are not blank, comments marked. */
  function Content(lines: seq<string>, semis: bool): seq<Line> {
    if lines == [] then []
    else (if Core(lines[0], semis) == "" then [] else [Line(Core(lines[0], semis), IsComment(lines[0]))])
         + Content(lines[1..], semis)
  }

  /** The SQL among them. */
  function Sql(content: seq<Line>): seq<Line> {
    if content == [] then [] else (if content[0].comment then [] else [content[0]]) + Sql(content[1..])
  }

  lemma Associative<T>(a: seq<T>, b: seq<T>, c: seq<T>)
    ensures a + (b + c) == a + b + c
  {
  }

  lemma SqlFirst(first: Line, rest: seq<Line>)
    ensures Sql([first] + rest) == (if first.comment then [] else [first]) + Sql(rest)
  {
    assert ([first] + rest)[1..] == rest;
  }

  lemma {:induction false} SqlAppend(a: seq<Line>, b: seq<Line>)
    ensures Sql(a + b) == Sql(a) + Sql(b)
  {
    if a == [] {
      assert a + b == b;
      assert Sql(a) == [];
    } else {
      var first, rest := a[0], a[1..];
      SqlAppend(rest, b);
      SqlFirst(first, rest);
      SqlFirst(first, rest + b);
      hide Sql;
      assert [first] + rest == a;
      Associative([first], rest, b);
      Associative(if first.comment then [] else [first], Sql(rest), Sql(b));
    }
  }

  function ContentOf(texts: seq<string>, semis: bool): seq<Line> {
    if texts == [] then [] else ContentOf(texts[..|texts| - 1], semis) + Content(SplitLines(texts[|texts| - 1]), semis)
  }

  lemma ContentFirst(first: string, rest: seq<string>, semis: bool)
    ensures Content([first] + rest, semis)
         == (if Core(first, semis) == "" then [] else [Line(Core(first, semis), IsComment(first))])
            + Content(rest, semis)
  {
    assert ([first] + rest)[1..] == rest;
    hide Core, IsComment;
  }

  lemma {:induction false} ContentAppend(a: seq<string>, b: seq<string>, semis: bool)
    ensures Content(a + b, semis) == Content(a, semis) + Content(b, semis)
  {
    if a == [] {
      assert a + b == b;
      assert Content(a, semis) == [];
    } else {
      var first, rest := a[0], a[1..];
      ContentAppend(rest, b, semis);
      ContentFirst(first, rest, semis);
      ContentFirst(first, rest + b, semis);
      hide Content, Core, IsComment;
      assert [first] + rest == a;
      Associative([first], rest, b);
      var kept := if Core(first, semis) == "" then [] else [Line(Core(first, semis), IsComment(first))];
      Associative(kept, Content(rest, semis), Content(b, semis));
    }
  }

  /** A trimmable character at the end of a line changes neither its core nor whether it is a comment. */
  lemma LineSnoc(line: string, c: char, semis: bool)
    requires Trimmable(c, semis)
    ensures Core(line + [c], semis) == Core(line, semis)
    ensures IsComment(line + [c]) <==> IsComment(line)
  {
    CommentIff(line);
    CommentIff(line + [c]);
    LStripAppend(line, [c]);
    LStripAppend([c], "");
    assert [c] + "" == [c];
    var x := LStrip(line);
    assert (x + [c])[..|x|] == x;
    if AllSpace(line) {
      assert LStrip([c]) == "" || LStrip([c]) == [c];
      assert [c][..0] == "";
    }
  }

  /** Blank and semicolon-only lines have no content. */
  lemma TrimmableLine(c: char, semis: bool)
    requires Trimmable(c, semis) && !IsBreak(c)
    ensures Content(SplitLines([c]), semis) == [] && Content([[c]], semis) == []
  {
    SplitOneLine([c]);
    LineSnoc("", c, semis);
    assert "" + [c] == [c];
  }

  /** Taking a trimmable character off the end of a text keeps its content. */
  lemma {:induction false} ContentSnoc(s: string, c: char, semis: bool)
    requires Trimmable(c, semis)
    ensures Content(SplitLines(s + [c]), semis) == Content(SplitLines(s), semis)
    decreases |s|, 1
  {
    if s == "" {
      EmptyOrOneChar(s, c, semis);
    } else {
      var i := LineEnd(s);
      LineEndAppend(s, [c]);
      if i == |s| {
        LastLineSnoc(s, c, semis);
      } else {
        EarlierLineSnoc(s, c, semis);
      }
    }
  }

  lemma EmptyOrOneChar(s: string, c: char, semis: bool)
    requires s == "" && Trimmable(c, semis)
    ensures Content(SplitLines(s + [c]), semis) == []
  {
    assert s + [c] == [c];
    if IsBreak(c) {
      assert LineEnd([c]) == 0 && [c][..0] == "" && [c][1..] == "";
      assert SplitLines([c]) == [""];
    } else {
      TrimmableLine(c, semis);
    }
  }

  lemma LastLineSnoc(s: string, c: char, semis: bool)
    requires s != "" && BreakFree(s) && Trimmable(c, semis)
    ensures Content(SplitLines(s + [c]), semis) == Content(SplitLines(s), semis)
  {
    SplitOneLine(s);
    if IsBreak(c) {
      BreakFreeLine(s);
      LineEndAppend(s, [c]);
      assert (s + [c])[..|s|] == s && (s + [c])[|s| + 1..] == "";
    } else {
      SplitOneLine(s + [c]);
      LineSnoc(s, c, semis);
      assert [s + [c]][1..] == [] && [s][1..] == [];
    }
  }

  lemma {:induction false} EarlierLineSnoc(s: string, c: char, semis: bool)
    requires s != "" && LineEnd(s) < |s| && Trimmable(c, semis)
    ensures Content(SplitLines(s + [c]), semis) == Content(SplitLines(s), semis)
    decreases |s|, 0
  {
    var i, n := LineEnd(s), NextLine(s);
    LineEndAppend(s, [c]);
    assert (s + [c])[..i] == s[..i];
    if s[i] == '\r' && i + 1 == |s| && c == '\n' {
      assert (s + [c])[i + 2..] == "" && s[n..] == "";
    } else {
      assert NextLine(s + [c]) == n && (s + [c])[n..] == s[n..] + [c];
      ContentSnoc(s[n..], c, semis);
      ContentAppend([s[..i]], SplitLines(s[n..]), semis);
      ContentAppend([s[..i]], SplitLines(s[n..] + [c]), semis);
    }
  }

  /** White space at the start of a line changes neither its core nor whether it is a comment. */
  lemma LineCons(c: char, line: string, semis: bool)
    requires IsSpace(c)
    ensures Core([c] + line, semis) == Core(line, semis) && (IsComment([c] + line) <==> IsComment(line))
  {
    LStripAppend([c], line);
    CommentIff(line);
    CommentIff([c] + line);
  }

  /** Taking white space off the start of a text keeps its content. */
  lemma ContentCons(c: char, s: string, semis: bool)
    requires IsSpace(c)
    ensures Content(SplitLines([c] + s), semis) == Content(SplitLines(s), semis)
  {
    var t := [c] + s;
    if s == "" {
      assert t == "" + [c];
      ContentSnoc("", c, semis);
    } else if IsBreak(c) {
      assert t[..0] == "";
      if c == '\r' && s[0] == '\n' {
        assert t[2..] == s[1..] && s[..0] == "";
      } else {
        assert t[1..] == s;
        ContentAppend([""], SplitLines(s), semis);
      }
    } else {
      var i := LineEnd(s);
      assert t[1..] == s && LineEnd(t) == i + 1 && t[..i + 1] == [c] + s[..i];
      assert NextLine(t) == NextLine(s) + 1 && t[NextLine(t)..] == s[NextLine(s)..];
      LineCons(c, s[..i], semis);
    }
  }

  lemma {:induction false} ContentLStrip(s: string, semis: bool)
    ensures Content(SplitLines(LStrip(s)), semis) == Content(SplitLines(s), semis)
  {
    if s != "" && IsSpace(s[0]) {
      ContentLStrip(s[1..], semis);
      ContentCons(s[0], s[1..], semis);
      assert [s[0]] + s[1..] == s;
    }
  }

  lemma {:induction false} ContentRStrip(s: string, semis: bool)
    ensures Content(SplitLines(RStrip(s)), semis) == Content(SplitLines(s), semis)
  {
    if s != "" && IsSpace(s[|s| - 1]) {
      var init, c := s[..|s| - 1], s[|s| - 1];
      assert init + [c] == s && RStrip(s) == RStrip(init);
      ContentRStrip(init, semis);
      ContentSnoc(init, c, semis);
    }
  }

  lemma {:induction false} ContentSemicolons(s: string)
    ensures Content(SplitLines(RStripSemicolons(s)), true) == Content(SplitLines(s), true)
  {
    hide Content, SplitLines;
    if s != "" && s[|s| - 1] == ';' {
      ContentSemicolons(s[..|s| - 1]);
      ContentSnoc(s[..|s| - 1], ';', true);
      assert s[..|s| - 1] + [';'] == s;
    }
  }

  lemma {:induction false} ContentJoin(lines: seq<string>, semis: bool)
    requires forall i :: 0 <= i < |lines| ==> BreakFree(lines[i])
    ensures Content(SplitLines(Join(lines)), semis) == Content(lines, semis)
  {
    if |lines| == 1 {
      if lines[0] != "" {
        SplitOneLine(lines[0]);
        assert lines == [lines[0]];
      }
    } else if |lines| > 1 {
      ContentJoin(lines[1..], semis);
      SplitFirstLine(lines[0], Join(lines[1..]));
      ContentAppend([lines[0]], lines[1..], semis);
      ContentAppend([lines[0]], SplitLines(Join(lines[1..])), semis);
      assert lines == [lines[0]] + lines[1..];
    }
  }

  /** Dropping comments leaves the SQL, and no comment. */
  lemma {:induction false} ContentDropComments(lines: seq<string>, semis: bool)
    requires forall i :: 0 <= i < |lines| ==> BreakFree(lines[i])
    ensures Content(DropComments(lines), semis) == Sql(Content(lines, semis))
    ensures forall i :: 0 <= i < |DropComments(lines)| ==>
      BreakFree(DropComments(lines)[i]) && !IsComment(DropComments(lines)[i])
  {
    if lines != [] {
      ContentDropComments(lines[1..], semis);
      var rest := DropComments(lines[1..]);
      var first := if Core(lines[0], semis) == "" then [] else [Line(Core(lines[0], semis), IsComment(lines[0]))];
      SqlAppend(first, Content(lines[1..], semis));
      assert Sql(first) == if IsComment(lines[0]) then [] else first;
      if IsComment(lines[0]) {
        assert DropComments(lines) == rest;
      } else {
        assert DropComments(lines) == [lines[0]] + rest && ([lines[0]] + rest)[1..] == rest;
      }
    }
  }

  /** A text of which nothing remains but comments and white space has no SQL. */
  lemma NoBodyNoContent(lines: seq<string>, semis: bool)
    requires forall i :: 0 <= i < |lines| ==> BreakFree(lines[i])
    requires Strip(Join(DropComments(lines))) == ""
    ensures Sql(Content(lines, semis)) == []
  {
    var kept := DropComments(lines);
    ContentDropComments(lines, semis);
    ContentJoin(kept, semis);
    ContentLStrip(Join(kept), semis);
    ContentRStrip(LStrip(Join(kept)), semis);
  }

  /** A statement holds all lines of its chunk, comments included; a chunk that is dropped holds no SQL. */
  lemma EmitContent(chunk: seq<string>)
    requires forall i :: 0 <= i < |chunk| ==> BreakFree(chunk[i])
    ensures if Emit(chunk) == [] then Sql(Content(chunk, true)) == []
            else ContentOf(Emit(chunk), true) == Content(chunk, true)
    ensures Sql(ContentOf(Emit(chunk), true)) == Sql(Content(chunk, true))
  {
    var stmt := Strip(Join(chunk));
    ContentJoin(chunk, true);
    ContentLStrip(Join(chunk), true);
    ContentRStrip(LStrip(Join(chunk)), true);
    assert Content(SplitLines(stmt), true) == Content(chunk, true);
    if Strip(Join(DropComments(SplitLines(stmt)))) == "" {
      SplitLinesBreakFree(stmt);
      NoBodyNoContent(SplitLines(stmt), true);
    } else {
      ContentSemicolons(stmt);
      OneText(RStripSemicolons(stmt), true);
    }
  }

  lemma OneText(text: string, semis: bool)
    ensures ContentOf([text], semis) == Content(SplitLines(text), semis)
  {
    assert [text][..0] == [];
  }

  /** The last statement, the one after the last semicolon, holds the SQL of its lines and no comment. */
  lemma EmitTailContent(buf: seq<string>)
    requires forall i :: 0 <= i < |buf| ==> BreakFree(buf[i])
    ensures ContentOf(EmitTail(buf), true) == Sql(Content(buf, true))
  {
    var kept := DropComments(buf);
    var tail := Strip(Join(kept));
    ContentDropComments(buf, true);
    ContentJoin(kept, true);
    ContentLStrip(Join(kept), true);
    ContentRStrip(LStrip(Join(kept)), true);
    ContentSemicolons(tail);
    OneText(RStripSemicolons(tail), true);
  }

  lemma {:induction false} ContentOfAppend(a: seq<string>, b: seq<string>, semis: bool)
    ensures ContentOf(a + b, semis) == ContentOf(a, semis) + ContentOf(b, semis)
  {
    hide Content, SplitLines;
    if b == [] {
      assert a + b == a;
    } else {
      ContentOfAppend(a, b[..|b| - 1], semis);
      assert (a + b)[..|a + b| - 1] == a + b[..|b| - 1];
    }
  }

  lemma {:induction false} EmitAllContent(chunks: seq<seq<string>>)
    requires forall i :: 0 <= i < |Flatten(chunks)| ==> BreakFree(Flatten(chunks)[i])
    ensures Sql(ContentOf(EmitAll(chunks), true)) == Sql(Content(Flatten(chunks), true))
  {
    if chunks != [] {
      var rest, last := chunks[..|chunks| - 1], chunks[|chunks| - 1];
      var lines := Flatten(chunks);
      forall i | 0 <= i < |Flatten(rest)| ensures BreakFree(Flatten(rest)[i]) { assert lines[i] == Flatten(rest)[i]; }
      forall i | 0 <= i < |last| ensures BreakFree(last[i]) { assert lines[|Flatten(rest)| + i] == last[i]; }
      EmitAllContent(rest);
      EmitContent(last);
      ContentAppend(Flatten(rest), last, true);
      ContentOfAppend(EmitAll(rest), Emit(last), true);
      SqlAppend(Content(Flatten(rest), true), Content(last, true));
      SqlAppend(ContentOf(EmitAll(rest), true), ContentOf(Emit(last), true));
    }
  }

  lemma {:induction false} SqlTwice(content: seq<Line>)
    ensures Sql(Sql(content)) == Sql(content)
  {
    if content != [] {
      SqlTwice(content[1..]);
      SqlAppend(if content[0].comment then [] else [content[0]], Sql(content[1..]));
    }
  }

  /**
   * Main result, on every script: the SQL lines of the statements are the SQL lines of the script, in
   * order; nothing but comments, blank lines, surrounding white space and semicolons is dropped.
   */
  lemma StatementsKeepContent(script: string)
    ensures Sql(ContentOf(Statements(script), true)) == Sql(Content(SplitLines(script), true))
  {
    var lines := SplitLines(script);
    var p := Split(lines);
    SplitLinesBreakFree(script);
    SplitConserves(lines);
    hide SplitLines, Split, IsChunk, Unfinished, OpenAfter, Flatten, BreakFree, Content, ContentOf, EmitAll, EmitTail;
    forall i | 0 <= i < |Flatten(p.chunks)| ensures BreakFree(Flatten(p.chunks)[i]) {
      assert lines[i] == Flatten(p.chunks)[i];
    }
    forall i | 0 <= i < |p.buf| ensures BreakFree(p.buf[i]) { assert lines[|Flatten(p.chunks)| + i] == p.buf[i]; }
    EmitAllContent(p.chunks);
    EmitTailContent(p.buf);
    ContentAppend(Flatten(p.chunks), p.buf, true);
    ContentOfAppend(EmitAll(p.chunks), EmitTail(p.buf), true);
    SqlAppend(Content(Flatten(p.chunks), true), Content(p.buf, true));
    SqlAppend(ContentOf(EmitAll(p.chunks), true), ContentOf(EmitTail(p.buf), true));
    SqlTwice(Content(p.buf, true));
  }
}
