/** What each piece of the splitter does to a text, in terms of its characters. */
module SplitterValues {
  import opened PyText
  import opened SplitterProofs
  import opened SqlSplitter

  // ---- characters ----

  /** Lines end at these code points, and white space is these. */
  lemma CodePoints(c: char)
    ensures IsBreak(c) <==> c as int in {10, 11, 12, 13, 28, 29, 30, 0x85, 0x2028, 0x2029}
    ensures IsSpace(c) <==>
      || c as int in {9, 10, 11, 12, 13, 28, 29, 30, 31, 32, 0x85, 0xA0, 0x1680}
      || c as int in {0x2000, 0x2001, 0x2002, 0x2003, 0x2004, 0x2005, 0x2006, 0x2007, 0x2008, 0x2009, 0x200A}
      || c as int in {0x2028, 0x2029, 0x202F, 0x205F, 0x3000}
  {
  }

  // ---- lines ----

  /** Nothing but white space and then two dashes. */
  predicate StartsComment(line: string) {
    exists n :: 0 <= n <= |line| - 2 && AllSpace(line[..n]) && line[n] == '-' && line[n + 1] == '-'
  }

  lemma SpaceBefore(s: string, n: nat)
    requires n <= |s|
    ensures AllSpace(s[..n]) <==> forall k :: 0 <= k < n ==> IsSpace(s[k])
  {
    assert forall k :: 0 <= k < n ==> s[..n][k] == s[k];
  }

  lemma SpaceAfter(s: string, n: nat)
    requires n <= |s|
    ensures AllSpace(s[n..]) <==> forall k :: n <= k < |s| ==> IsSpace(s[k])
  {
    assert forall k :: n <= k < |s| ==> s[n..][k - n] == s[k];
  }

  lemma LStripSplits(s: string) returns (n: nat)
    ensures n <= |s| && AllSpace(s[..n]) && LStrip(s) == s[n..] && (n < |s| ==> !IsSpace(s[n]))
  {
    n := 0;
    if s != "" && IsSpace(s[0]) {
      var m := LStripSplits(s[1..]);
      n := m + 1;
      assert s[..n] == [s[0]] + s[1..][..m] && s[n..] == s[1..][m..];
    }
  }

  lemma RStripSplits(s: string) returns (n: nat)
    ensures n <= |s| && AllSpace(s[n..]) && RStrip(s) == s[..n] && (n > 0 ==> !IsSpace(s[n - 1]))
  {
    n := |s|;
    if s != "" && IsSpace(s[|s| - 1]) {
      var init := s[..|s| - 1];
      n := RStripSplits(init);
      assert s[n..] == init[n..] + [s[|s| - 1]] && s[..n] == init[..n];
    } else {
      assert s[..|s|] == s;
    }
  }

  lemma IsCommentIff(line: string)
    ensures IsComment(line) <==> StartsComment(line)
  {
    CommentIff(line);
    var n := LStripSplits(line);
    if StartsComment(line) {
      var m :| 0 <= m <= |line| - 2 && AllSpace(line[..m]) && line[m] == '-' && line[m + 1] == '-';
      SpaceBefore(line, n);
      SpaceBefore(line, m);
      assert !IsSpace(line[m]);
    }
    if "--" <= LStrip(line) {
      assert line[n..][0] == '-' && line[n..][1] == '-';
    }
  }

  /** A line ends a statement when its last character, white space aside, is a semicolon. */
  lemma EndsStatementIff(line: string)
    ensures EndsStatement(line) <==> exists n :: 0 <= n < |line| && line[n] == ';' && AllSpace(line[n + 1..])
  {
    var n := RStripSplits(line);
    if m :| 0 <= m < |line| && line[m] == ';' && AllSpace(line[m + 1..]) {
      SpaceAfter(line, n);
      SpaceAfter(line, m + 1);
      assert !IsSpace(line[m]);
    }
    if EndsStatement(line) {
      assert line[n - 1] == ';' && line[n - 1 + 1..] == line[n..];
    }
  }

  predicate NoDollars(s: string) {
    forall i :: 0 <= i < |s| - 1 ==> !(s[i] == '$' && s[i + 1] == '$')
  }

  /** The count of dollar quotes: none where no two dollars meet, and one more for each found from the left. */
  lemma {:induction false} CountByOccurrence(a: string, b: string)
    requires NoDollars(a)
    ensures CountDollars(a) == 0
    ensures (a == "" || a[|a| - 1] != '$') ==> CountDollars(a + "$$" + b) == 1 + CountDollars(b)
    decreases |a|
  {
    var s := a + "$$" + b;
    if a == "" {
      assert s[2..] == b;
    } else {
      assert forall i :: 0 <= i < |a[1..]| ==> a[1..][i] == a[i + 1];
      CountByOccurrence(a[1..], b);
      assert s[1..] == a[1..] + "$$" + b;
      assert |a| == 1 ==> s[0] == a[0];
      assert |a| > 1 ==> s[0] == a[0] && s[1] == a[1];
    }
  }

  /** How many dollar quotes some lines hold. */
  function TotalDollars(lines: seq<string>): nat {
    if lines == [] then 0 else TotalDollars(lines[..|lines| - 1]) + CountDollars(lines[|lines| - 1])
  }

  /** A body is open after lines with an odd number of dollar quotes. */
  lemma {:induction false} OpenIffOdd(lines: seq<string>)
    ensures OpenAfter(lines) <==> TotalDollars(lines) % 2 == 1
  {
    if lines != [] {
      OpenIffOdd(lines[..|lines| - 1]);
    }
  }

  lemma FirstLine(line: string, ending: string, rest: string)
    requires BreakFree(line) && ending != "" && IsBreak(ending[0])
    requires if |ending| == 1 then !(ending[0] == '\r' && rest != "" && rest[0] == '\n') else ending == "\r\n"
    ensures SplitLines(line + (ending + rest)) == [line] + SplitLines(rest)
  {
    var s := line + (ending + rest);
    BreakFreeLine(line);
    LineEndAppend(line, ending + rest);
    assert LineEnd(ending + rest) == 0 && LineEnd(s) == |line|;
    assert s[|line|] == ending[0];
    assert |ending| == 1 && rest != "" ==> s[|line| + 1] == rest[0];
    assert |ending| == 2 ==> s[|line| + 1] == ending[1];
    assert NextLine(s) == |line| + |ending|;
    hide NextLine, LineEnd;
    assert s[..|line|] == line && s[|line| + |ending|..] == rest;
  }

  /** A line ends at a break; a carriage return takes a following line feed with it. */
  lemma LinesByBreak(line: string, c: char, rest: string)
    requires BreakFree(line) && IsBreak(c)
    ensures !(c == '\r' && rest != "" && rest[0] == '\n')
            ==> SplitLines(line + ([c] + rest)) == [line] + SplitLines(rest)
    ensures SplitLines(line + ("\r\n" + rest)) == [line] + SplitLines(rest)
    ensures SplitLines(line) == if line == "" then [] else [line]
  {
    if !(c == '\r' && rest != "" && rest[0] == '\n') {
      FirstLine(line, [c], rest);
    }
    FirstLine(line, "\r\n", rest);
    if line != "" {
      SplitOneLine(line);
    }
  }

  // ---- what a chunk and the tail contribute ----

  /** `t` is the text without white space around it, and then without the semicolons it ends with. */
  predicate IsTextOf(text: string, t: string) {
    exists i, j, k ::
      && 0 <= i <= j <= k <= |text| && AllSpace(text[..i]) && AllSpace(text[k..])
      && (forall n :: j <= n < k ==> text[n] == ';') && t == text[i..j]
      && (i < k ==> !IsSpace(text[i]) && !IsSpace(text[k - 1])) && (i < j ==> text[j - 1] != ';')
  }

  lemma SemicolonsSplit(s: string) returns (n: nat)
    ensures n <= |s| && (forall i :: n <= i < |s| ==> s[i] == ';') && RStripSemicolons(s) == s[..n]
    ensures n > 0 ==> s[n - 1] != ';'
  {
    n := |s|;
    if s != "" && s[|s| - 1] == ';' {
      n := SemicolonsSplit(s[..|s| - 1]);
      assert s[..n] == s[..|s| - 1][..n];
    } else {
      assert s[..|s|] == s;
    }
  }

  lemma StatementText(text: string)
    ensures IsTextOf(text, RStripSemicolons(Strip(text)))
  {
    var i := LStripSplits(text);
    var x := text[i..];
    var m := RStripSplits(x);
    var n := SemicolonsSplit(x[..m]);
    SpaceAfter(x, m);
    SpaceAfter(text, i + m);
    assert forall k :: 0 <= k < |x| ==> x[k] == text[i + k];
    forall k | i + n <= k < i + m ensures text[k] == ';' {
      assert x[..m][k - i] == ';';
    }
    assert n > 0 ==> x[..m][n - 1] == x[n - 1];
    assert x[..m][..n] == text[i..i + n];
    TextBounds(text, i, i + n, i + m);
  }

  lemma TextBounds(text: string, i: nat, j: nat, k: nat)
    requires i <= j <= k <= |text| && AllSpace(text[..i]) && AllSpace(text[k..])
    requires forall n :: j <= n < k ==> text[n] == ';'
    requires i < k ==> !IsSpace(text[i]) && !IsSpace(text[k - 1])
    requires i < j ==> text[j - 1] != ';'
    ensures IsTextOf(text, text[i..j])
  {
  }

  /** Some line is neither blank nor a comment. */
  predicate HasSql(lines: seq<string>) {
    exists i :: 0 <= i < |lines| && !AllSpace(lines[i]) && !StartsComment(lines[i])
  }

  lemma CoreEmptyIff(line: string)
    ensures Core(line, false) == "" <==> AllSpace(line)
  {
    var n := LStripSplits(line);
    var x := LStrip(line);
    RTrimEmptyIff(x);
    SpaceBefore(line, n);
    assert line == line[..n] + line[n..];
  }

  lemma {:induction false} RTrimEmptyIff(s: string)
    ensures RTrim(s, false) == "" <==> AllSpace(s)
  {
    if s != "" {
      RTrimEmptyIff(s[..|s| - 1]);
      assert s == s[..|s| - 1] + [s[|s| - 1]];
    }
  }

  lemma {:induction false} SqlIff(lines: seq<string>)
    ensures Sql(Content(lines, false)) != [] <==> HasSql(lines)
  {
    if lines != [] {
      var rest := lines[1..];
      SqlIff(rest);
      CoreEmptyIff(lines[0]);
      IsCommentIff(lines[0]);
      var first := if Core(lines[0], false) == "" then [] else [Line(Core(lines[0], false), IsComment(lines[0]))];
      SqlAppend(first, Content(rest, false));
      hide Core, IsComment, AllSpace, StartsComment;
      if HasSql(rest) {
        var i :| 0 <= i < |rest| && !AllSpace(rest[i]) && !StartsComment(rest[i]);
        assert lines[i + 1] == rest[i];
      }
      if HasSql(lines) {
        var i :| 0 <= i < |lines| && !AllSpace(lines[i]) && !StartsComment(lines[i]);
        assert i > 0 ==> lines[i] == rest[i - 1];
      }
    }
  }

  lemma {:induction false} JoinOfBlanks(lines: seq<string>)
    requires forall i :: 0 <= i < |lines| ==> AllSpace(lines[i])
    ensures AllSpace(Join(lines))
  {
    if |lines| > 1 {
      JoinOfBlanks(lines[1..]);
      assert IsSpace('\n');
    }
  }

  lemma {:induction false} KeptLine(lines: seq<string>, i: nat)
    requires i < |DropComments(lines)|
    ensures exists j :: 0 <= j < |lines| && lines[j] == DropComments(lines)[i] && !IsComment(lines[j])
  {
    if lines != [] {
      var rest := lines[1..];
      if IsComment(lines[0]) {
        KeptLine(rest, i);
        var j :| 0 <= j < |rest| && rest[j] == DropComments(rest)[i] && !IsComment(rest[j]);
        assert lines[j + 1] == rest[j];
      } else if i > 0 {
        KeptLine(rest, i - 1);
        var j :| 0 <= j < |rest| && rest[j] == DropComments(rest)[i - 1] && !IsComment(rest[j]);
        assert lines[j + 1] == rest[j];
      }
    }
  }

  /** Nothing is left once comments are dropped exactly when no line has SQL. */
  lemma BodyEmptyIff(lines: seq<string>)
    ensures Strip(Join(DropComments(lines))) == "" <==> !HasSql(lines)
  {
    var kept := DropComments(lines);
    StripEmptyIffAllSpace(Join(kept));
    forall i | 0 <= i < |lines| ensures IsComment(lines[i]) <==> StartsComment(lines[i]) {
      IsCommentIff(lines[i]);
    }
    if AllSpace(Join(kept)) {
      forall i | 0 <= i < |lines| && !StartsComment(lines[i]) ensures AllSpace(lines[i]) {
        DropCommentsKeeps(lines, i);
        var j :| 0 <= j < |kept| && kept[j] == lines[i];
        JoinAllSpace(kept, j);
      }
    }
    if !HasSql(lines) {
      forall i | 0 <= i < |kept| ensures AllSpace(kept[i]) {
        KeptLine(lines, i);
      }
      JoinOfBlanks(kept);
    }
  }

  /**
   * Main result: a chunk contributes one statement, its text trimmed, unless all its lines are blank or
   * comments; then it contributes nothing.
   */
  lemma EmitMeans(chunk: seq<string>)
    requires forall i :: 0 <= i < |chunk| ==> BreakFree(chunk[i])
    ensures Emit(chunk) == [] <==> !HasSql(chunk)
    ensures Emit(chunk) != [] ==> |Emit(chunk)| == 1 && IsTextOf(Join(chunk), Emit(chunk)[0])
  {
    var stmt := Strip(Join(chunk));
    StatementText(Join(chunk));
    ContentJoin(chunk, false);
    ContentLStrip(Join(chunk), false);
    ContentRStrip(LStrip(Join(chunk)), false);
    SqlIff(chunk);
    SqlIff(SplitLines(stmt));
    BodyEmptyIff(SplitLines(stmt));
    hide HasSql, IsTextOf, Content, Sql, SplitLines, DropComments, Join;
  }

  /** The lines after the last semicolon contribute the same without their comments, and so hold none. */
  lemma TailMeans(buf: seq<string>)
    requires forall i :: 0 <= i < |buf| ==> BreakFree(buf[i])
    ensures EmitTail(buf) == [] <==> !HasSql(buf)
    ensures EmitTail(buf) != [] ==> |EmitTail(buf)| == 1 && IsTextOf(Join(DropComments(buf)), EmitTail(buf)[0])
    ensures forall line :: line in ContentOf(EmitTail(buf), true) ==> !line.comment
  {
    StatementText(Join(DropComments(buf)));
    BodyEmptyIff(buf);
    EmitTailContent(buf);
    SqlHasNoComment(Content(buf, true));
    hide HasSql, IsTextOf, Content, ContentOf, Sql, DropComments, Join;
  }

  lemma {:induction false} SqlHasNoComment(content: seq<Line>)
    ensures forall line :: line in Sql(content) ==> !line.comment
  {
    if content != [] {
      SqlHasNoComment(content[1..]);
    }
  }

  /** Dropping comments goes line by line. */
  lemma {:induction false} DropCommentsByLine(a: seq<string>, line: string, b: seq<string>)
    ensures DropComments([line]) == if StartsComment(line) then [] else [line]
    ensures DropComments(a + b) == DropComments(a) + DropComments(b)
    decreases |a|
  {
    IsCommentIff(line);
    assert [line][1..] == [];
    if a == [] {
      assert a + b == b;
    } else {
      DropCommentsByLine(a[1..], line, b);
      assert (a + b)[1..] == a[1..] + b;
    }
  }

  const COMMENT_ALONE := ["-- c", ";"]

  lemma CommentAloneText()
    ensures Join(COMMENT_ALONE) == "-- c\n;"
  {
    assert COMMENT_ALONE[1..] == [";"];
  }

  lemma CommentAloneStripped()
    ensures Strip("-- c\n;") == "-- c\n;" && RStripSemicolons("-- c\n;") == "-- c\n"
  {
    var text := "-- c\n;";
    assert LStrip(text) == text && RStrip(text) == text;
    assert text[..5] == "-- c\n" && RStripSemicolons(text) == RStripSemicolons(text[..5]);
  }

  lemma CommentAloneHasSql()
    ensures HasSql(COMMENT_ALONE)
  {
    assert |COMMENT_ALONE[1]| == 1 && !IsSpace(COMMENT_ALONE[1][0]);
  }

  /** A comment before a lone semicolon is a statement of its own: the chunk has a line besides the comment. */
  lemma CommentAloneRemains()
    ensures Emit(COMMENT_ALONE) == ["-- c\n"]
  {
    CommentAloneText();
    CommentAloneStripped();
    CommentAloneHasSql();
    BreaklessChunk();
    hide DropComments, SplitLines, Join, HasSql, IsTextOf, Strip, RStripSemicolons;
    EmitMeans(COMMENT_ALONE);
  }

  lemma BreaklessChunk()
    ensures forall i :: 0 <= i < |COMMENT_ALONE| ==> BreakFree(COMMENT_ALONE[i])
  {
  }

  const BODY := ["AS $$", "x;", "$$"]

  lemma BodyDollars()
    ensures TogglesBody(BODY[0]) && !TogglesBody(BODY[1]) && TogglesBody(BODY[2])
  {
    assert NoDollars("AS ") && "AS " + "$$" + "" == "AS $$" && NoDollars("x;") && NoDollars("");
    CountByOccurrence("AS ", "");
    CountByOccurrence("x;", "");
    CountByOccurrence("", "");
    assert "" + "$$" + "" == "$$";
  }

  lemma BodyText()
    ensures Join(BODY) == "AS $$\nx;\n$$"
  {
    assert BODY[1..] == ["x;", "$$"] && BODY[1..][1..] == ["$$"];
    assert Join(["$$"]) == "$$" && Join(["x;", "$$"]) == "x;\n$$";
  }

  lemma BodyStripped()
    ensures Strip("AS $$\nx;\n$$") == "AS $$\nx;\n$$" && !EndsWithSemicolon("AS $$\nx;\n$$")
  {
    var text := "AS $$\nx;\n$$";
    assert LStrip(text) == text && RStrip(text) == text;
  }

  /** Statements with a semicolon at the end of a line of their body are among those the splitter recovers. */
  lemma BodyIsWellFormed()
    ensures WellFormed(BODY)
  {
    BodyDollars();
    BodyText();
    BodyStripped();
    assert BODY[..2] == ["AS $$", "x;"] && BODY[..2][..1] == ["AS $$"] && BODY[..2][..1][..0] == [];
    assert OpenAfter(["AS $$"]) && OpenAfter(["AS $$", "x;"]) && !OpenAfter(BODY);
    assert Unfinished(["AS $$"]) && Unfinished(["AS $$", "x;"]);
    assert !IsComment(BODY[2]) by {
      IsCommentIff(BODY[2]);
      assert forall n :: 0 <= n <= |BODY[2]| - 2 ==> BODY[2][n] == '$';
    }
    assert !IsSpace(BODY[2][0]);
    hide IsComment, TogglesBody, EndsStatement, OpenAfter, Unfinished, Strip, Join, EndsWithSemicolon;
  }
}
