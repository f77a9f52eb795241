/** The Python string operations the splitter uses, on sequences of characters. */
module PyText {

  /** `str.isspace` for one character. */
  predicate IsSpace(c: char) {
    || '\U{9}' <= c <= '\U{D}' || '\U{1C}' <= c <= ' ' || c == '\U{85}' || c == '\U{A0}' || c == '\U{1680}'
    || '\U{2000}' <= c <= '\U{200A}' || c == '\U{2028}' || c == '\U{2029}' || c == '\U{202F}' || c == '\U{205F}'
    || c == '\U{3000}'
  }

  /** The characters `str.splitlines` breaks at; a carriage return swallows a following line feed. */
  predicate IsBreak(c: char) {
    || '\U{A}' <= c <= '\U{D}' || '\U{1C}' <= c <= '\U{1E}' || c == '\U{85}' || c == '\U{2028}' || c == '\U{2029}'
  }

  predicate BreakFree(s: string) {
    forall i :: 0 <= i < |s| ==> !IsBreak(s[i])
  }

  /** The length of the first line. */
  function LineEnd(s: string): (n: nat)
    ensures n <= |s| && BreakFree(s[..n]) && (n < |s| ==> IsBreak(s[n]))
  {
    if s == "" || IsBreak(s[0]) then 0
    else
      var n := LineEnd(s[1..]);
      assert s[..n + 1] == [s[0]] + s[1..][..n];
      n + 1
  }

  /** Where the line after the first one starts. */
  function NextLine(s: string): (n: nat)
    requires s != ""
    ensures 0 < n <= |s|
  {
    var i := LineEnd(s);
    if i == |s| then i
    else if s[i] == '\r' && i + 1 < |s| && s[i + 1] == '\n' then i + 2
    else i + 1
  }

  function SplitLines(s: string): seq<string>
    decreases |s|
  {
    if s == "" then [] else [s[..LineEnd(s)]] + SplitLines(s[NextLine(s)..])
  }

  /** `"\n".join(lines)` */
  function Join(lines: seq<string>): string {
    if lines == [] then ""
    else if |lines| == 1 then lines[0]
    else lines[0] + "\n" + Join(lines[1..])
  }

  function LStrip(s: string): string {
    if s != "" && IsSpace(s[0]) then LStrip(s[1..]) else s
  }

  function RStrip(s: string): string {
    if s != "" && IsSpace(s[|s| - 1]) then RStrip(s[..|s| - 1]) else s
  }

  function Strip(s: string): string {
    RStrip(LStrip(s))
  }

  /** `rstrip(";")` */
  function RStripSemicolons(s: string): string {
    if s != "" && s[|s| - 1] == ';' then RStripSemicolons(s[..|s| - 1]) else s
  }

  predicate EndsWithSemicolon(s: string) {
    s != "" && s[|s| - 1] == ';'
  }

  /** `line.count("$$")`: occurrences that do not overlap, from the left. */
  function CountDollars(s: string): nat {
    if |s| < 2 then 0
    else if s[0] == '$' && s[1] == '$' then 1 + CountDollars(s[2..])
    else CountDollars(s[1..])
  }

  // ---- lines ----

  lemma BreakFreeLine(s: string)
    requires BreakFree(s)
    ensures LineEnd(s) == |s|
  {
  }

  lemma {:induction false} LineEndAppend(s: string, t: string)
    ensures LineEnd(s) < |s| ==> LineEnd(s + t) == LineEnd(s)
    ensures LineEnd(s) == |s| ==> LineEnd(s + t) == |s| + LineEnd(t)
  {
    if s == "" {
      assert s + t == t;
    } else if !IsBreak(s[0]) {
      assert (s + t)[1..] == s[1..] + t;
      LineEndAppend(s[1..], t);
    }
  }

  lemma SplitOneLine(s: string)
    requires s != "" && BreakFree(s)
    ensures SplitLines(s) == [s]
  {
    BreakFreeLine(s);
    assert s[..|s|] == s && s[|s|..] == "";
  }

  /** A break-free line, a line feed and the rest. */
  lemma SplitFirstLine(line: string, rest: string)
    requires BreakFree(line)
    ensures SplitLines(line + "\n" + rest) == [line] + SplitLines(rest)
  {
    var s := line + "\n" + rest;
    assert s == line + ("\n" + rest);
    BreakFreeLine(line);
    LineEndAppend(line, "\n" + rest);
    assert LineEnd("\n" + rest) == 0;
    assert s[..|line|] == line && s[|line| + 1..] == rest;
  }

  lemma {:induction false} SplitLinesBreakFree(s: string)
    ensures forall i :: 0 <= i < |SplitLines(s)| ==> BreakFree(SplitLines(s)[i])
    decreases |s|
  {
    if s != "" {
      SplitLinesBreakFree(s[NextLine(s)..]);
    }
  }

  /** Joining break-free lines and splitting again gives the lines back, unless the last one is empty. */
  lemma {:induction false} SplitJoin(lines: seq<string>)
    requires lines != [] && forall i :: 0 <= i < |lines| ==> BreakFree(lines[i])
    requires lines[|lines| - 1] != ""
    ensures SplitLines(Join(lines)) == lines
  {
    if |lines| == 1 {
      SplitOneLine(lines[0]);
    } else {
      SplitJoin(lines[1..]);
      SplitFirstLine(lines[0], Join(lines[1..]));
    }
  }

  lemma {:induction false} JoinAppend(a: seq<string>, b: seq<string>)
    requires a != [] && b != []
    ensures Join(a + b) == Join(a) + "\n" + Join(b)
  {
    assert (a + b)[1..] == a[1..] + b;
    if |a| > 1 {
      JoinAppend(a[1..], b);
      assert Join(a + b) == a[0] + "\n" + (Join(a[1..]) + "\n" + Join(b));
    }
  }

  /** Text appended to the last line is text appended to the joined lines. */
  lemma {:induction false} JoinLast(lines: seq<string>, t: string)
    requires lines != []
    ensures Join(lines[|lines| - 1 := lines[|lines| - 1] + t]) == Join(lines) + t
  {
    var changed := lines[|lines| - 1 := lines[|lines| - 1] + t];
    if |lines| > 1 {
      JoinLast(lines[1..], t);
      assert changed[1..] == lines[1..][|lines| - 2 := lines[1..][|lines| - 2] + t];
    }
  }

  // ---- stripping ----

  predicate AllSpace(s: string) {
    forall i :: 0 <= i < |s| ==> IsSpace(s[i])
  }

  lemma {:induction false} LStripAppend(s: string, t: string)
    ensures AllSpace(s) ==> LStrip(s) == "" && LStrip(s + t) == LStrip(t)
    ensures !AllSpace(s) ==> LStrip(s) != "" && LStrip(s + t) == LStrip(s) + t
  {
    if s == "" {
      assert s + t == t;
    } else {
      LStripAppend(s[1..], t);
      assert (s + t)[1..] == s[1..] + t;
      assert s == [s[0]] + s[1..];
      assert AllSpace(s) <==> IsSpace(s[0]) && AllSpace(s[1..]);
    }
  }

  lemma LStripFirst(s: string)
    ensures LStrip(s) != "" ==> !IsSpace(LStrip(s)[0])
  {
  }

  lemma RStripSnoc(s: string, c: char)
    ensures IsSpace(c) ==> RStrip(s + [c]) == RStrip(s)
    ensures !IsSpace(c) ==> RStrip(s + [c]) == s + [c]
  {
    assert (s + [c])[..|s|] == s;
  }

  lemma {:induction false} RStripPrefix(s: string)
    ensures RStrip(s) <= s
    ensures s != "" && !IsSpace(s[0]) ==> RStrip(s) != "" && RStrip(s)[0] == s[0]
  {
    if s != "" && IsSpace(s[|s| - 1]) {
      RStripPrefix(s[..|s| - 1]);
    }
  }

  lemma {:induction false} StripEmptyIffAllSpace(s: string)
    ensures Strip(s) == "" <==> AllSpace(s)
  {
    LStripAppend(s, "");
    LStripFirst(s);
    RStripPrefix(LStrip(s));
  }

  lemma {:induction false} JoinAllSpace(lines: seq<string>, i: nat)
    requires i < |lines| && AllSpace(Join(lines))
    ensures AllSpace(lines[i])
  {
    if |lines| > 1 {
      var tail := Join(lines[1..]);
      var s := lines[0] + "\n" + tail;
      forall k | 0 <= k < |lines[0]| ensures IsSpace(lines[0][k]) { assert s[k] == lines[0][k]; }
      forall k | 0 <= k < |tail| ensures IsSpace(tail[k]) { assert s[|lines[0]| + 1 + k] == tail[k]; }
      if i > 0 {
        JoinAllSpace(lines[1..], i - 1);
      }
    }
  }

  lemma {:induction false} CountDollarsSnoc(s: string, c: char)
    requires c != '$'
    ensures CountDollars(s + [c]) == CountDollars(s)
  {
    if |s| >= 2 {
      if s[0] == '$' && s[1] == '$' {
        assert (s + [c])[2..] == s[2..] + [c];
        CountDollarsSnoc(s[2..], c);
      } else {
        assert (s + [c])[1..] == s[1..] + [c];
        CountDollarsSnoc(s[1..], c);
      }
    } else if |s| == 1 {
      assert (s + [c])[1..] == [c];
    }
  }

  /** `rstrip` removes white space only. */
  lemma {:induction false} RStripKeeps(s: string, k: nat)
    requires k < |s| && !IsSpace(s[k])
    ensures k < |RStrip(s)|
  {
    if IsSpace(s[|s| - 1]) {
      RStripKeeps(s[..|s| - 1], k);
    }
  }

  lemma {:induction false} LStripSuffix(s: string)
    ensures |LStrip(s)| <= |s| && LStrip(s) == s[|s| - |LStrip(s)|..]
  {
    if s != "" && IsSpace(s[0]) {
      LStripSuffix(s[1..]);
    }
  }
}
