/** The markdown body of a support issue: user text inside code fences longer than any it contains, and a
    reader of such bodies that follows the fence rule of section 4.5 of the CommonMark specification. */
module IssueBody {
  import opened Common

  // ----- fences ------------------------------------------------------------------------------

  /** n times the character c. */
  function Repeat(c: char, n: nat): (s: string)
    ensures |s| == n && forall i :: 0 <= i < n ==> s[i] == c
  {
    seq(n, _ => c)
  }

  /** How many c the string begins with. */
  function LeadingRun(s: string, c: char): (n: nat)
    ensures n <= |s| && (forall i :: 0 <= i < n ==> s[i] == c) && (n < |s| ==> s[n] != c)
  {
    if s != [] && s[0] == c then 1 + LeadingRun(s[1..], c) else 0
  }

  /** The lengths of the matches of /`+/g. */
  function BacktickRuns(s: string): seq<nat>
    decreases |s|
  {
    if s == [] then []
    else if s[0] == '`' then [LeadingRun(s, '`')] + BacktickRuns(s[LeadingRun(s, '`')..])
    else BacktickRuns(s[1..])
  }

  /** n backticks in a row stand somewhere in s. */
  ghost predicate HasRun(s: string, n: nat) {
    exists i :: IsRunAt(s, i, n)
  }

  ghost predicate IsRunAt(s: string, i: int, n: nat) {
    0 <= i && i + n <= |s| && forall k :: i <= k < i + n ==> s[k] == '`'
  }

  lemma {:induction false} RunIsMatched(s: string, i: nat, n: nat) returns (m: nat)
    requires n >= 1 && IsRunAt(s, i, n)
    ensures m < |BacktickRuns(s)| && BacktickRuns(s)[m] >= n
    decreases |s|
  {
    if s[0] == '`' {
      var r := LeadingRun(s, '`');
      if i < r {
        assert r < |s| ==> s[r] != '`';
        m := 0;
      } else {
        assert forall k :: i - r <= k < i - r + n ==> s[r..][k] == s[k + r];
        m := RunIsMatched(s[r..], i - r, n);
        m := m + 1;
      }
    } else {
      assert forall k :: i - 1 <= k < i - 1 + n ==> s[1..][k] == s[k + 1];
      m := RunIsMatched(s[1..], i - 1, n);
    }
  }

  /** The length of the fence around a text. */
  function FenceLength(content: string): nat {
    var longest := Longest(BacktickRuns(content));
    if longest + 1 > 3 then longest + 1 else 3
  }

  function Longest(runs: seq<nat>): (n: nat)
    ensures forall i :: 0 <= i < |runs| ==> runs[i] <= n
    ensures n == 0 || n in runs
  {
    if runs == [] then 0
    else
      var n := Longest(runs[..|runs| - 1]);
      if runs[|runs| - 1] > n then runs[|runs| - 1] else n
  }

  /** No text contains as many backticks in a row as its fence has. */
  lemma FenceOutlastsContent(content: string)
    ensures FenceLength(content) >= 3 && !HasRun(content, FenceLength(content))
  {
    var n := FenceLength(content);
    if HasRun(content, n) {
      var i :| IsRunAt(content, i, n);
      var m := RunIsMatched(content, i, n);
    }
  }

  lemma {:induction false} MatchIsRun(s: string, m: nat) returns (i: nat)
    requires m < |BacktickRuns(s)|
    ensures IsRunAt(s, i, BacktickRuns(s)[m])
    decreases |s|
  {
    if s[0] == '`' {
      var r := LeadingRun(s, '`');
      if m == 0 {
        i := 0;
      } else {
        i := MatchIsRun(s[r..], m - 1);
        i := i + r;
        assert forall k :: i <= k < i + BacktickRuns(s)[m] ==> s[k] == s[r..][k - r];
      }
    } else {
      i := MatchIsRun(s[1..], m);
      i := i + 1;
      assert forall k :: i <= k < i + BacktickRuns(s)[m] ==> s[k] == s[1..][k - 1];
    }
  }

  /** And no fence is longer than it must be: it has three backticks, or the text has one fewer in a row. */
  lemma FenceIsShortest(content: string)
    ensures FenceLength(content) == 3 || HasRun(content, FenceLength(content) - 1)
  {
    var runs := BacktickRuns(content);
    var longest := Longest(runs);
    if longest + 1 > 3 {
      var m :| 0 <= m < |runs| && runs[m] == longest;
      var i := MatchIsRun(content, m);
    }
  }

  const TAG := "untrusted-user-text"

  datatype CodeFence = CodeFence(open: string, close: string)

  method CreateDynamicCodeFence(content: string, tag: string) returns (fence: CodeFence)
    ensures fence.close == Repeat('`', FenceLength(content))
    ensures fence.open == fence.close + tag
  {
    var matches := BacktickRuns(content);
    var maxBackticks := 0;
    var i := 0;
    while i < |matches|
      invariant 0 <= i <= |matches|
      invariant maxBackticks == Longest(matches[..i])
    {
      if matches[i] > maxBackticks {
        maxBackticks := matches[i];
      }
      i := i + 1;
      assert matches[..i][..i - 1] == matches[..i - 1];
    }
    assert matches[..i] == matches;
    var fenceLength := if maxBackticks + 1 > 3 then maxBackticks + 1 else 3;
    var close := Repeat('`', fenceLength);
    return CodeFence(if tag != [] then close + tag else close, close);
  }

  function Bounded(content: string, maxLength: nat): string {
    if |content| <= maxLength then content else content[..maxLength]
  }

  function Wrapped(bounded: string): string {
    var close := Repeat('`', FenceLength(bounded));
    close + TAG + "\n" + bounded + "\n" + close
  }

  method WrapUntrustedContent(content: string, maxLength: nat) returns (wrapped: string)
    ensures wrapped == Wrapped(Bounded(content, maxLength))
  {
    var bounded := Bounded(content, maxLength);
    var fence := CreateDynamicCodeFence(bounded, TAG);
    return fence.open + "\n" + bounded + "\n" + fence.close;
  }

  // ----- reading a body ----------------------------------------------------------------------

  predicate IsLineEnding(c: char) {
    c == '\n' || c == '\r'
  }

  /** The length of the first line. */
  function LineLength(s: string): (n: nat)
    ensures n <= |s| && (forall i :: 0 <= i < n ==> !IsLineEnding(s[i])) && (n < |s| ==> IsLineEnding(s[n]))
  {
    if s == [] || IsLineEnding(s[0]) then 0 else 1 + LineLength(s[1..])
  }

  function FirstLine(s: string): string {
    s[..LineLength(s)]
  }

  /** Where the second line starts: after \n, \r or \r\n. */
  function NextLine(s: string): (n: nat)
    requires LineLength(s) < |s|
    ensures LineLength(s) < n <= |s|
  {
    var n := LineLength(s);
    if s[n] == '\r' && n + 1 < |s| && s[n + 1] == '\n' then n + 2 else n + 1
  }

  /** Up to three spaces of indentation are allowed before a fence. */
  function Indentation(line: string): nat {
    var n := LeadingRun(line, ' ');
    if n > 3 then 3 else n
  }

  datatype Opening = NoFence | Opens(mark: char, length: nat, info: string)

  function OpeningOf(line: string): Opening {
    var rest := line[Indentation(line)..];
    if rest == [] || !(rest[0] == '`' || rest[0] == '~') then NoFence
    else
      var n := LeadingRun(rest, rest[0]);
      if n < 3 || (rest[0] == '`' && '`' in rest[n..]) then NoFence else Opens(rest[0], n, rest[n..])
  }

  /** A closing fence is at least as long as the opening one and has only blanks after it. */
  predicate Closes(line: string, mark: char, length: nat) {
    var rest := line[Indentation(line)..];
    var n := LeadingRun(rest, mark);
    n >= length && forall i :: n <= i < |rest| ==> rest[i] == ' ' || rest[i] == '\t'
  }

  /** The start of the line that closes a fence opened before s. */
  function FindCloser(s: string, mark: char, length: nat): (k: Option<nat>)
    ensures k.Some? ==> k.value <= |s|
    decreases |s|
  {
    if Closes(FirstLine(s), mark, length) then Some(0)
    else if LineLength(s) == |s| then None
    else
      var rest := FindCloser(s[NextLine(s)..], mark, length);
      if rest.None? then None else Some(NextLine(s) + rest.value)
  }

  datatype Block = Line(text: string) | Fence(info: string, content: string)

  /** The lines outside fences, and the fences with the text between their first and last line. A fence that
      is never closed runs to the end. */
  function Scan(s: string): seq<Block>
    decreases |s|
  {
    if s == [] then []
    else
      var opening := OpeningOf(FirstLine(s));
      if LineLength(s) == |s| then
        [if opening.NoFence? then Line(s) else Fence(opening.info, "")]
      else if opening.NoFence? then [Line(FirstLine(s))] + Scan(s[NextLine(s)..])
      else
        var body := s[NextLine(s)..];
        var closer := FindCloser(body, opening.mark, opening.length);
        if closer.None? then [Fence(opening.info, body)]
        else
          var after := body[closer.value..];
          var content := if closer.value == 0 then "" else body[..closer.value - 1];
          [Fence(opening.info, content)] + if LineLength(after) == |after| then [] else Scan(after[NextLine(after)..])
  }

  // ----- the round trip ----------------------------------------------------------------------

  /** A line that is one line and opens no fence. */
  ghost predicate IsPlain(line: string) {
    (forall i :: 0 <= i < |line| ==> !IsLineEnding(line[i])) && OpeningOf(line).NoFence?
  }

  lemma {:induction false} LineLengthOf(line: string, rest: string)
    requires forall i :: 0 <= i < |line| ==> !IsLineEnding(line[i])
    requires rest == [] || IsLineEnding(rest[0])
    ensures LineLength(line + rest) == |line| && FirstLine(line + rest) == line
  {
    if line == [] {
      assert line + rest == rest;
    } else {
      assert (line + rest)[1..] == line[1..] + rest;
      LineLengthOf(line[1..], rest);
    }
  }

  lemma LineThenRest(line: string, rest: string)
    requires forall i :: 0 <= i < |line| ==> !IsLineEnding(line[i])
    ensures var s := line + "\n" + rest;
            && LineLength(s) == |line| < |s| && FirstLine(s) == line
            && NextLine(s) == |line| + 1 && s[NextLine(s)..] == rest
  {
    var s := line + "\n" + rest;
    assert s == line + ("\n" + rest);
    LineLengthOf(line, "\n" + rest);
  }

  lemma ScanLine(line: string, rest: string)
    requires IsPlain(line)
    ensures Scan(line + "\n" + rest) == [Line(line)] + Scan(rest)
  {
    hide OpeningOf, LineLength, NextLine, FirstLine;
    LineThenRest(line, rest);
  }

  lemma ScanLastLine(line: string)
    requires IsPlain(line) && line != []
    ensures Scan(line) == [Line(line)]
  {
    assert line + "" == line;
    LineLengthOf(line, "");
  }

  lemma {:induction false} LeadingRunOf(c: char, n: nat, rest: string)
    requires rest == [] || rest[0] != c
    ensures LeadingRun(Repeat(c, n) + rest, c) == n
  {
    var s := Repeat(c, n) + rest;
    assert forall k :: 0 <= k < n ==> s[k] == c;
    assert n < |s| ==> s[n] == rest[0];
  }

  lemma OpeningOfFence(n: nat)
    requires n >= 3
    ensures OpeningOf(Repeat('`', n) + TAG) == Opens('`', n, TAG)
  {
    var line := Repeat('`', n) + TAG;
    assert line[0] == '`' && LeadingRun(line, ' ') == 0;
    assert line[0..] == line;
    LeadingRunOf('`', n, TAG);
    assert line[n..] == TAG;
  }

  lemma ClosingFence(n: nat)
    requires n >= 3
    ensures Closes(Repeat('`', n), '`', n)
  {
    var line := Repeat('`', n);
    assert line[0] == '`' && LeadingRun(line, ' ') == 0;
    assert line[0..] == line && line + "" == line;
    LeadingRunOf('`', n, "");
  }

  /** Which lines open a code fence and which close it, by the reader's rule: at most three spaces, then at least
      three backticks and an info text without any; and at most three spaces, at least as many backticks as
      the opening line has, and only blanks. */
  lemma FenceRule(indent: nat, n: nat, info: string, length: nat, blanks: nat)
    requires n >= 1 && '`' !in info && length >= 3
    ensures var line := Repeat(' ', indent) + (Repeat('`', n) + info);
            OpeningOf(line) == if indent <= 3 && n >= 3 then Opens('`', n, info) else NoFence
    ensures var line := Repeat(' ', indent) + (Repeat('`', n) + Repeat(' ', blanks));
            Closes(line, '`', length) <==> indent <= 3 && n >= length
  {
    hide OpeningOf, Closes;
    Indented(indent, n, info);
    Indented(indent, n, Repeat(' ', blanks));
    OpeningRule(indent, n, info);
    ClosingRule(indent, n, blanks, length);
  }

  lemma Indented(indent: nat, n: nat, tail: string)
    requires n >= 1 && '`' !in tail
    ensures var rest := Repeat('`', n) + tail;
            var line := Repeat(' ', indent) + rest;
            && LeadingRun(line, ' ') == indent && LeadingRun(rest, '`') == n && rest[n..] == tail
            && Indentation(line) == (if indent > 3 then 3 else indent)
            && (indent <= 3 ==> line[Indentation(line)..] == rest)
            && (indent > 3 ==> line[Indentation(line)..][0] == ' ')
  {
    var rest := Repeat('`', n) + tail;
    var line := Repeat(' ', indent) + rest;
    LeadingRunOf(' ', indent, rest);
    assert tail != [] ==> tail[0] in tail;
    LeadingRunOf('`', n, tail);
    if indent > 3 { assert line[3..][0] == line[3]; }
  }

  lemma OpeningRule(indent: nat, n: nat, info: string)
    requires n >= 1 && '`' !in info
    ensures var line := Repeat(' ', indent) + (Repeat('`', n) + info);
            OpeningOf(line) == if indent <= 3 && n >= 3 then Opens('`', n, info) else NoFence
  {
    hide LeadingRun, Indentation;
    Indented(indent, n, info);
    assert (Repeat('`', n) + info)[0] == '`';
  }

  lemma ClosingRule(indent: nat, n: nat, blanks: nat, length: nat)
    requires n >= 1 && length >= 3
    ensures var line := Repeat(' ', indent) + (Repeat('`', n) + Repeat(' ', blanks));
            Closes(line, '`', length) <==> indent <= 3 && n >= length
  {
    hide Indentation;
    Indented(indent, n, Repeat(' ', blanks));
    var rest := Repeat('`', n) + Repeat(' ', blanks);
    assert forall i :: n <= i < |rest| ==> rest[i] == ' ';
  }

  lemma ShortRunsDoNotClose(line: string, n: nat)
    requires !HasRun(line, n) && n >= 1
    ensures !Closes(line, '`', n)
  {
    if Closes(line, '`', n) {
      var d := Indentation(line);
      assert forall k :: d <= k < d + n ==> line[k] == line[d..][k - d];
      assert IsRunAt(line, d, n);
    }
  }

  lemma PartsHaveNoRun(s: string, i: nat, j: nat, n: nat)
    requires i <= j <= |s| && !HasRun(s, n)
    ensures !HasRun(s[i..j], n)
  {
    if HasRun(s[i..j], n) {
      var k :| IsRunAt(s[i..j], k, n);
      assert forall m :: i + k <= m < i + k + n ==> s[m] == s[i..j][m - i];
      assert IsRunAt(s, i + k, n);
    }
  }

  /** The first line of a text is the first line of anything that continues it after a line break. */
  lemma FirstLineOfContent(content: string, rest: string)
    ensures var s := content + "\n" + rest;
            && LineLength(s) == LineLength(content) && FirstLine(s) == content[..LineLength(content)]
            && LineLength(s) < |s| && NextLine(s) <= |content| + 1
  {
    var s := content + "\n" + rest;
    var p := LineLength(content);
    assert s == content[..p] + (content[p..] + "\n" + rest);
    LineLengthOf(content[..p], content[p..] + "\n" + rest);
  }

  lemma AfterNextLine(content: string, rest: string, next: nat)
    requires next <= |content| + 1
    ensures (content + "\n" + rest)[next..] == if next <= |content| then content[next..] + "\n" + rest else rest
  {
  }

  lemma FindOnNextLine(s: string, mark: char, length: nat)
    requires LineLength(s) < |s| && !Closes(FirstLine(s), mark, length)
    ensures var rest := FindCloser(s[NextLine(s)..], mark, length);
            FindCloser(s, mark, length) == if rest.None? then None else Some(NextLine(s) + rest.value)
  {
    hide Closes, NextLine, FirstLine, LineLength;
  }

  /** Inside a fence nothing closes before the fence's own last line, whatever line endings the text has. */
  lemma {:induction false} CloserAfterContent(content: string, n: nat, tail: string)
    requires n >= 3 && !HasRun(content, n) && (tail == [] || tail[0] == '\n')
    ensures FindCloser(content + "\n" + (Repeat('`', n) + tail), '`', n) == Some(|content| + 1)
    decreases |content|
  {
    hide Closes, FindCloser, HasRun, NextLine, LineLength, FirstLine, Repeat;
    var close := Repeat('`', n) + tail;
    var s := content + "\n" + close;
    CloserAtStart(n, tail);
    FirstLineOfContent(content, close);
    PartsHaveNoRun(content, 0, LineLength(content), n);
    assert content[0..LineLength(content)] == content[..LineLength(content)];
    ShortRunsDoNotClose(content[..LineLength(content)], n);
    FindOnNextLine(s, '`', n);
    var next := NextLine(s);
    AfterNextLine(content, close, next);
    if next <= |content| {
      PartsHaveNoRun(content, next, |content|, n);
      assert content[next..|content|] == content[next..];
      CloserAfterContent(content[next..], n, tail);
    }
  }

  lemma CloserAtStart(n: nat, tail: string)
    requires n >= 3 && (tail == [] || tail[0] == '\n')
    ensures FindCloser(Repeat('`', n) + tail, '`', n) == Some(0)
    ensures FirstLine(Repeat('`', n) + tail) == Repeat('`', n) && LineLength(Repeat('`', n) + tail) == n
  {
    hide Closes;
    LineLengthOf(Repeat('`', n), tail);
    ClosingFence(n);
  }

  lemma ScanFence(s: string, open: string, body: string, mark: char, length: nat, info: string, k: nat)
    requires LineLength(s) == |open| < |s| && FirstLine(s) == open && s[NextLine(s)..] == body
    requires OpeningOf(open) == Opens(mark, length, info)
    requires FindCloser(body, mark, length) == Some(k) && 0 < k <= |body| && LineLength(body[k..]) < |body[k..]|
    ensures Scan(s) == [Fence(info, body[..k - 1])] + Scan(body[k..][NextLine(body[k..])..])
  {
    hide OpeningOf, FindCloser;
  }

  lemma ScanWrapped(content: string, rest: string)
    ensures Scan(Wrapped(content) + "\n" + rest) == [Fence(TAG, content)] + Scan(rest)
  {
    hide Closes, OpeningOf, FenceLength, HasRun, FindCloser, Scan, TAG, LineLength, NextLine, FirstLine, Repeat;
    var n := FenceLength(content);
    FenceOutlastsContent(content);
    var fence := Repeat('`', n);
    var open, after := fence + TAG, fence + "\n" + rest;
    assert after == fence + ("\n" + rest);
    var body := content + "\n" + after;
    var s := Wrapped(content) + "\n" + rest;
    assert s == open + "\n" + body;
    OpenIsOneLine(n);
    LineThenRest(open, body);
    OpeningOfFence(n);
    CloserAfterContent(content, n, "\n" + rest);
    assert body[|content| + 1..] == after && body[..|content|] == content;
    LineThenRest(fence, rest);
    ScanFence(s, open, body, '`', n, TAG, |content| + 1);
  }

  lemma OpenIsOneLine(n: nat)
    ensures forall i :: 0 <= i < |Repeat('`', n) + TAG| ==> !IsLineEnding((Repeat('`', n) + TAG)[i])
  {
    var line := Repeat('`', n) + TAG;
    forall i | 0 <= i < |line|
      ensures !IsLineEnding(line[i])
    {
      assert line[i] == if i < n then '`' else TAG[i - n];
    }
  }

  // ----- the body ----------------------------------------------------------------------------

  /** \p{Cc} */
  predicate IsControl(c: char) {
    var n := c as int;
    n <= 0x1F || 0x7F <= n <= 0x9F
  }

  function ReplaceControls(s: string): string {
    seq(|s|, i requires 0 <= i < |s| => if IsControl(s[i]) then ' ' else s[i])
  }

  /** .replace(/\s+/g, " ") */
  function CollapseSpaces(s: string, inRun: bool): string {
    if s == [] then []
    else if IsSpace(s[0]) then (if inRun then [] else " ") + CollapseSpaces(s[1..], true)
    else [s[0]] + CollapseSpaces(s[1..], false)
  }

  function SanitizeMetadataValue(value: string): string {
    Trim(CollapseSpaces(ReplaceControls(value), false))
  }

  /** No control characters, no white space but single spaces. */
  ghost predicate IsOneLine(s: string) {
    && (forall i :: 0 <= i < |s| ==> !IsControl(s[i]) && (IsSpace(s[i]) ==> s[i] == ' '))
    && (forall i :: 0 <= i < |s| - 1 ==> !(s[i] == ' ' && s[i + 1] == ' '))
  }

  lemma {:induction false} CollapseIsOneLine(s: string, inRun: bool)
    requires forall i :: 0 <= i < |s| ==> !IsControl(s[i])
    ensures IsOneLine(CollapseSpaces(s, inRun))
    ensures inRun && CollapseSpaces(s, inRun) != [] ==> CollapseSpaces(s, inRun)[0] != ' '
  {
    if s != [] {
      CollapseIsOneLine(s[1..], IsSpace(s[0]));
    }
  }

  lemma {:induction false} TrimStartKeepsOneLine(s: string)
    requires IsOneLine(s)
    ensures IsOneLine(TrimStart(s)) && (TrimStart(s) != [] ==> !IsSpace(TrimStart(s)[0]))
  {
    if s != [] && IsSpace(s[0]) {
      TrimStartKeepsOneLine(s[1..]);
    }
  }

  lemma {:induction false} TrimEndKeepsOneLine(s: string)
    requires IsOneLine(s)
    ensures IsOneLine(TrimEnd(s)) && TrimEnd(s) <= s
    ensures TrimEnd(s) != [] ==> !IsSpace(TrimEnd(s)[|TrimEnd(s)| - 1])
  {
    if s != [] && IsSpace(s[|s| - 1]) {
      TrimEndKeepsOneLine(s[..|s| - 1]);
    }
  }

  /** A metadata value is one line of words with single spaces between them. */
  lemma SanitizedIsOneLine(value: string)
    ensures var v := SanitizeMetadataValue(value);
            IsOneLine(v) && (v != [] ==> !IsSpace(v[0]) && !IsSpace(v[|v| - 1]))
  {
    var clean := ReplaceControls(value);
    CollapseIsOneLine(clean, false);
    TrimStartKeepsOneLine(CollapseSpaces(clean, false));
    TrimEndKeepsOneLine(TrimStart(CollapseSpaces(clean, false)));
  }

  /** The characters of a text that are neither white space nor control characters, in order. */
  function Visible(s: string): string {
    if s == [] then [] else (if IsSpace(s[0]) || IsControl(s[0]) then [] else [s[0]]) + Visible(s[1..])
  }

  lemma {:induction false} VisibleConcat(a: string, b: string)
    ensures Visible(a + b) == Visible(a) + Visible(b)
  {
    hide IsSpace, IsControl;
    if a == [] {
      assert a + b == b;
    } else {
      assert (a + b)[0] == a[0] && (a + b)[1..] == a[1..] + b;
      VisibleConcat(a[1..], b);
      var first := if IsSpace(a[0]) || IsControl(a[0]) then [] else [a[0]];
      assert Visible(a + b) == first + (Visible(a[1..]) + Visible(b));
    }
  }

  lemma {:induction false} ReplaceKeepsVisible(s: string)
    ensures Visible(ReplaceControls(s)) == Visible(s)
  {
    if s != [] {
      ReplaceKeepsVisible(s[1..]);
      assert ReplaceControls(s)[1..] == ReplaceControls(s[1..]);
    }
  }

  lemma {:induction false} CollapseKeepsVisible(s: string, inRun: bool)
    ensures Visible(CollapseSpaces(s, inRun)) == Visible(s)
  {
    hide IsControl;
    if s != [] {
      CollapseKeepsVisible(s[1..], IsSpace(s[0]));
      var first := if !IsSpace(s[0]) then [s[0]] else if inRun then [] else " ";
      assert CollapseSpaces(s, inRun) == first + CollapseSpaces(s[1..], IsSpace(s[0]));
      VisibleConcat(first, CollapseSpaces(s[1..], IsSpace(s[0])));
    }
  }

  lemma {:induction false} TrimKeepsVisible(s: string)
    ensures Visible(TrimStart(s)) == Visible(s) && Visible(TrimEnd(s)) == Visible(s)
    decreases |s|
  {
    hide IsSpace, IsControl;
    if s != [] && IsSpace(s[0]) {
      TrimKeepsVisible(s[1..]);
    }
    if s != [] && IsSpace(s[|s| - 1]) {
      TrimKeepsVisible(s[..|s| - 1]);
      VisibleConcat(s[..|s| - 1], s[|s| - 1..]);
      assert s == s[..|s| - 1] + s[|s| - 1..];
    }
  }

  /** And no other character of the value is lost, added or moved. */
  lemma SanitizeKeepsVisible(value: string)
    ensures Visible(SanitizeMetadataValue(value)) == Visible(value)
  {
    hide IsSpace, IsControl, Visible, CollapseSpaces, ReplaceControls, TrimStart, TrimEnd;
    var clean := CollapseSpaces(ReplaceControls(value), false);
    ReplaceKeepsVisible(value);
    CollapseKeepsVisible(ReplaceControls(value), false);
    TrimKeepsVisible(clean);
    TrimKeepsVisible(TrimStart(clean));
  }

  datatype Category = Support | Feedback
  datatype Priority = Low | Normal | High

  datatype IssueInput = IssueInput(
    category: Category,
    priority: Priority,
    clerkOrgId: Option<string>,
    organisationId: Option<string>,
    userId: Option<string>,
    currentRoute: Option<string>,
    pageUrl: string,
    environment: Option<string>,
    appVersion: Option<string>,
    subject: string,
    message: string,
    reproductionSteps: Option<string>,
    expectedOutcome: Option<string>,
    actualOutcome: Option<string>
  )

  datatype MetadataRow = MetadataRow(name: string, value: Option<string>)

  function CategoryLabel(c: Category): string {
    match c case Support => "Support" case Feedback => "Feedback"
  }

  function PriorityLabel(p: Priority): string {
    match p case Low => "Low" case Normal => "Normal" case High => "High"
  }

  function MetadataRows(input: IssueInput): seq<MetadataRow> {
    [ MetadataRow("Category", Some(CategoryLabel(input.category))),
      MetadataRow("Priority", Some(PriorityLabel(input.priority))),
      MetadataRow("Clerk organisation ID", input.clerkOrgId),
      MetadataRow("Organisation ID", input.organisationId),
      MetadataRow("User ID", input.userId),
      MetadataRow("Current route", input.currentRoute),
      MetadataRow("Page URL", Some(input.pageUrl)),
      MetadataRow("Environment", input.environment),
      MetadataRow("App version", input.appVersion) ]
  }

  function MetadataLine(row: MetadataRow): string
    requires row.value.Some?
  {
    "- " + row.name + ": " + SanitizeMetadataValue(row.value.value)
  }

  /** The rows that have a value, one line each. */
  function MetadataLines(rows: seq<MetadataRow>): seq<string> {
    if rows == [] then []
    else if rows[0].value.Some? && Trim(rows[0].value.value) != [] then [MetadataLine(rows[0])] + MetadataLines(rows[1..])
    else MetadataLines(rows[1..])
  }

  /** sections.join("\n") */
  function Join(sections: seq<string>): string {
    if sections == [] then "" else if |sections| == 1 then sections[0] else sections[0] + "\n" + Join(sections[1..])
  }

  const MAX_SUBJECT_LENGTH := 256
  const MAX_MESSAGE_LENGTH := 10_000
  const MAX_REPRODUCTION_STEPS_LENGTH := 10_000
  const MAX_EXPECTED_OUTCOME_LENGTH := 5000
  const MAX_ACTUAL_OUTCOME_LENGTH := 5000

  /** What a body is made of: plain lines and fenced texts. */
  datatype Part = Text(line: string) | Untrusted(content: string)

  function Lines(lines: seq<string>): seq<Part> {
    seq(|lines|, i requires 0 <= i < |lines| => Text(lines[i]))
  }

  function OptionalParts(value: Option<string>, heading: string, maxLength: nat): seq<Part> {
    if value.Some? && value.value != [] then [Text(""), Text(heading), Untrusted(Bounded(value.value, maxLength))] else []
  }

  const NOTES := [
    Text(""), Text("## Internal notes"), Text("Submitted from Team Calendar support form."),
    Text(""), Text("Complete triage notes here.")
  ]

  function Parts(input: IssueInput): seq<Part> {
    [Text("## Metadata")] + Lines(MetadataLines(MetadataRows(input)))
    + [Text(""), Text("## Untrusted user content"), Text(""),
       Text("### Subject (untrusted)"), Untrusted(Bounded(input.subject, MAX_SUBJECT_LENGTH)), Text(""),
       Text("### Message (untrusted)"), Untrusted(Bounded(input.message, MAX_MESSAGE_LENGTH))]
    + OptionalParts(input.reproductionSteps, "### Reproduction steps (untrusted)", MAX_REPRODUCTION_STEPS_LENGTH)
    + OptionalParts(input.expectedOutcome, "### Expected outcome (untrusted)", MAX_EXPECTED_OUTCOME_LENGTH)
    + OptionalParts(input.actualOutcome, "### Actual outcome (untrusted)", MAX_ACTUAL_OUTCOME_LENGTH)
    + NOTES
  }

  function RenderPart(part: Part): string {
    match part case Text(line) => line case Untrusted(content) => Wrapped(content)
  }

  function Render(parts: seq<Part>): seq<string> {
    seq(|parts|, i requires 0 <= i < |parts| => RenderPart(parts[i]))
  }

  function BlockOf(part: Part): Block {
    match part case Text(line) => Line(line) case Untrusted(content) => Fence(TAG, content)
  }

  function Blocks(parts: seq<Part>): seq<Block> {
    seq(|parts|, i requires 0 <= i < |parts| => BlockOf(parts[i]))
  }

  ghost predicate IsReadable(parts: seq<Part>) {
    && (forall i :: 0 <= i < |parts| && parts[i].Text? ==> IsPlain(parts[i].line))
    && parts != [] && parts[|parts| - 1].Text? && parts[|parts| - 1].line != []
  }

  /** Reading a rendered body gives its parts back. */
  lemma {:induction false} ScanRendered(parts: seq<Part>)
    requires IsReadable(parts)
    ensures Scan(Join(Render(parts))) == Blocks(parts)
  {
    hide Scan, IsPlain, Wrapped;
    var rendered := Render(parts);
    if |parts| == 1 {
      ScanLastLine(parts[0].line);
    } else {
      ScanRendered(parts[1..]);
      assert rendered[1..] == Render(parts[1..]);
      assert Blocks(parts) == [BlockOf(parts[0])] + Blocks(parts[1..]);
      match parts[0]
      case Text(line) => ScanLine(line, Join(rendered[1..]));
      case Untrusted(content) => ScanWrapped(content, Join(rendered[1..]));
    }
  }

  lemma PlainLine(line: string)
    requires forall i :: 0 <= i < |line| ==> !IsLineEnding(line[i])
    requires line != [] ==> line[0] !in {' ', '`', '~'}
    ensures IsPlain(line)
  {
    assert LeadingRun(line, ' ') == 0 && line[0..] == line;
  }

  predicate IsSingleLine(s: string) {
    forall i :: 0 <= i < |s| ==> !IsLineEnding(s[i])
  }

  /** Every metadata row is one line that opens no fence, whatever its value holds. */
  lemma MetadataLineIsPlain(row: MetadataRow)
    requires row.value.Some? && IsSingleLine(row.name)
    ensures IsPlain(MetadataLine(row))
  {
    hide SanitizeMetadataValue;
    var value := SanitizeMetadataValue(row.value.value);
    SanitizedIsOneLine(row.value.value);
    var line := "- " + row.name + ": " + value;
    forall i | 0 <= i < |line|
      ensures !IsLineEnding(line[i])
    {
      if i >= 4 + |row.name| {
        assert line[i] == value[i - 4 - |row.name|];
      } else if i >= 2 + |row.name| {
        assert line[i] == ": "[i - 2 - |row.name|];
      } else if i >= 2 {
        assert line[i] == row.name[i - 2];
      } else {
        assert line[i] == "- "[i];
      }
    }
    PlainLine(line);
  }

  lemma {:induction false} MetadataLinesArePlain(rows: seq<MetadataRow>)
    requires forall r :: 0 <= r < |rows| ==> IsSingleLine(rows[r].name)
    ensures forall l :: 0 <= l < |MetadataLines(rows)| ==> IsPlain(MetadataLines(rows)[l])
  {
    hide MetadataLine, IsPlain, IsSingleLine;
    if rows != [] {
      MetadataLinesArePlain(rows[1..]);
      if rows[0].value.Some? { MetadataLineIsPlain(rows[0]); }
    }
  }

  lemma RowNames(input: IssueInput)
    ensures var rows := MetadataRows(input); forall r :: 0 <= r < |rows| ==> IsSingleLine(rows[r].name)
  {
    hide IsSingleLine;
    NamesAreSingleLines();
  }

  lemma NamesAreSingleLines()
    ensures IsSingleLine("Category") && IsSingleLine("Priority") && IsSingleLine("Clerk organisation ID")
    ensures IsSingleLine("Organisation ID") && IsSingleLine("User ID") && IsSingleLine("Current route")
    ensures IsSingleLine("Page URL") && IsSingleLine("Environment") && IsSingleLine("App version")
  {
  }

  ghost predicate AllPlain(parts: seq<Part>) {
    forall i :: 0 <= i < |parts| && parts[i].Text? ==> IsPlain(parts[i].line)
  }

  lemma HeadingsArePlain()
    ensures IsPlain("## Metadata") && IsPlain("") && IsPlain("## Untrusted user content")
    ensures IsPlain("### Subject (untrusted)") && IsPlain("### Message (untrusted)")
    ensures IsPlain("### Reproduction steps (untrusted)")
    ensures IsPlain("### Expected outcome (untrusted)") && IsPlain("### Actual outcome (untrusted)")
  {
    hide IsPlain;
    PlainLine("## Metadata");
    PlainLine("");
    PlainLine("## Untrusted user content");
    PlainLine("### Subject (untrusted)");
    PlainLine("### Message (untrusted)");
    PlainLine("### Reproduction steps (untrusted)");
    PlainLine("### Expected outcome (untrusted)");
    PlainLine("### Actual outcome (untrusted)");
  }

  lemma NotesArePlain()
    ensures IsPlain("") && AllPlain(NOTES)
  {
    hide IsPlain;
    PlainLine("");
    PlainLine("## Internal notes");
    PlainLine("Submitted from Team Calendar support form.");
    PlainLine("Complete triage notes here.");
  }

  lemma PlainConcat(a: seq<Part>, b: seq<Part>)
    requires AllPlain(a) && AllPlain(b)
    ensures AllPlain(a + b)
  {
    hide IsPlain;
  }

  lemma PartsAreReadable(input: IssueInput)
    ensures IsReadable(Parts(input))
  {
    hide IsPlain, MetadataLines, MetadataRows, Bounded;
    var metadata := Lines(MetadataLines(MetadataRows(input)));
    RowNames(input);
    MetadataLinesArePlain(MetadataRows(input));
    HeadingsArePlain();
    NotesArePlain();
    var fixed := [Text(""), Text("## Untrusted user content"), Text(""),
      Text("### Subject (untrusted)"), Untrusted(Bounded(input.subject, MAX_SUBJECT_LENGTH)), Text(""),
      Text("### Message (untrusted)"), Untrusted(Bounded(input.message, MAX_MESSAGE_LENGTH))];
    var steps := OptionalParts(input.reproductionSteps, "### Reproduction steps (untrusted)", MAX_REPRODUCTION_STEPS_LENGTH);
    var expected := OptionalParts(input.expectedOutcome, "### Expected outcome (untrusted)", MAX_EXPECTED_OUTCOME_LENGTH);
    var actual := OptionalParts(input.actualOutcome, "### Actual outcome (untrusted)", MAX_ACTUAL_OUTCOME_LENGTH);
    var all := [Text("## Metadata")] + metadata + fixed + steps + expected + actual + NOTES;
    assert AllPlain([Text("## Metadata")]) && AllPlain(metadata) && AllPlain(fixed);
    assert AllPlain(steps) && AllPlain(expected) && AllPlain(actual);
    PlainConcat([Text("## Metadata")], metadata);
    PlainConcat([Text("## Metadata")] + metadata, fixed);
    PlainConcat([Text("## Metadata")] + metadata + fixed, steps);
    PlainConcat([Text("## Metadata")] + metadata + fixed + steps, expected);
    PlainConcat([Text("## Metadata")] + metadata + fixed + steps + expected, actual);
    PlainConcat([Text("## Metadata")] + metadata + fixed + steps + expected + actual, NOTES);
    assert Parts(input) == all;
    assert all[|all| - 1] == NOTES[4];
  }

  lemma RenderConcat(a: seq<Part>, b: seq<Part>)
    ensures Render(a + b) == Render(a) + Render(b)
  {
    hide RenderPart;
  }

  lemma {:induction false} JoinNested(a: seq<string>, x: string, y: string, z: string)
    ensures Join(a + [x + "\n" + y + "\n" + z]) == Join(a + [x, y, z])
  {
    var one, three := a + [x + "\n" + y + "\n" + z], a + [x, y, z];
    if a == [] {
      assert one == [x + "\n" + y + "\n" + z] && three == [x, y, z];
      assert three[1..] == [y, z] && three[1..][1..] == [z];
      assert Join([y, z]) == y + "\n" + z;
    } else {
      JoinNested(a[1..], x, y, z);
      assert one[1..] == a[1..] + [x + "\n" + y + "\n" + z] && three[1..] == a[1..] + [x, y, z];
    }
  }

  const INTERNAL_NOTES_PLACEHOLDER := "Submitted from Team Calendar support form." + "\n" + "" + "\n" + "Complete triage notes here."

  /** One optional section, or nothing when the value is absent or empty. */
  method PushOptional(sections: seq<string>, value: Option<string>, heading: string, maxLength: nat) returns (more: seq<string>)
    ensures more == sections + Render(OptionalParts(value, heading, maxLength))
  {
    hide Wrapped, Bounded;
    more := sections;
    if value.Some? && value.value != [] {
      var wrapped := WrapUntrustedContent(value.value, maxLength);
      more := more + ["", heading, wrapped];
      assert Render(OptionalParts(value, heading, maxLength)) == ["", heading, wrapped];
    } else {
      assert Render(OptionalParts(value, heading, maxLength)) == [];
    }
  }

  method BuildSupportIssueMarkdownBody(input: IssueInput) returns (body: string)
    ensures body == Join(Render(Parts(input)))
  {
    hide Wrapped, Bounded, MetadataLines, MetadataRows, OptionalParts, Render, Join, Parts, FixedParts;
    var metadata := MetadataLines(MetadataRows(input));
    var subject := WrapUntrustedContent(input.subject, MAX_SUBJECT_LENGTH);
    var message := WrapUntrustedContent(input.message, MAX_MESSAGE_LENGTH);
    var sections := ["## Metadata"] + metadata
      + ["", "## Untrusted user content", "", "### Subject (untrusted)", subject, "", "### Message (untrusted)", message];
    RenderFixed(input);
    sections := PushOptional(sections, input.reproductionSteps, "### Reproduction steps (untrusted)", MAX_REPRODUCTION_STEPS_LENGTH);
    sections := PushOptional(sections, input.expectedOutcome, "### Expected outcome (untrusted)", MAX_EXPECTED_OUTCOME_LENGTH);
    sections := PushOptional(sections, input.actualOutcome, "### Actual outcome (untrusted)", MAX_ACTUAL_OUTCOME_LENGTH);
    RenderParts(input);
    JoinNested(sections + ["", "## Internal notes"], "Submitted from Team Calendar support form.", "", "Complete triage notes here.");
    var x, z := "Submitted from Team Calendar support form.", "Complete triage notes here.";
    assert sections + ["", "## Internal notes"] + [x, "", z] == sections + ["", "## Internal notes", x, "", z];
    sections := sections + ["", "## Internal notes"] + [INTERNAL_NOTES_PLACEHOLDER];
    body := Join(sections);
  }

  ghost function FixedParts(input: IssueInput): seq<Part> {
    [Text("## Metadata")] + Lines(MetadataLines(MetadataRows(input)))
    + [Text(""), Text("## Untrusted user content"), Text(""),
       Text("### Subject (untrusted)"), Untrusted(Bounded(input.subject, MAX_SUBJECT_LENGTH)), Text(""),
       Text("### Message (untrusted)"), Untrusted(Bounded(input.message, MAX_MESSAGE_LENGTH))]
  }

  lemma RenderLines(lines: seq<string>)
    ensures Render(Lines(lines)) == lines
  {
  }

  lemma RenderFixed(input: IssueInput)
    ensures Render(FixedParts(input)) == ["## Metadata"] + MetadataLines(MetadataRows(input))
      + ["", "## Untrusted user content", "", "### Subject (untrusted)", Wrapped(Bounded(input.subject, MAX_SUBJECT_LENGTH)), "",
         "### Message (untrusted)", Wrapped(Bounded(input.message, MAX_MESSAGE_LENGTH))]
  {
    hide Wrapped, Bounded, MetadataLines, MetadataRows;
    RenderLines(MetadataLines(MetadataRows(input)));
  }

  lemma RenderParts(input: IssueInput)
    ensures Render(Parts(input)) ==
      Render(FixedParts(input))
      + Render(OptionalParts(input.reproductionSteps, "### Reproduction steps (untrusted)", MAX_REPRODUCTION_STEPS_LENGTH))
      + Render(OptionalParts(input.expectedOutcome, "### Expected outcome (untrusted)", MAX_EXPECTED_OUTCOME_LENGTH))
      + Render(OptionalParts(input.actualOutcome, "### Actual outcome (untrusted)", MAX_ACTUAL_OUTCOME_LENGTH))
      + ["", "## Internal notes", "Submitted from Team Calendar support form.", "", "Complete triage notes here."]
  {
    hide Wrapped, Bounded, MetadataLines, MetadataRows, OptionalParts, Render;
    var a := FixedParts(input);
    var b := OptionalParts(input.reproductionSteps, "### Reproduction steps (untrusted)", MAX_REPRODUCTION_STEPS_LENGTH);
    var c := OptionalParts(input.expectedOutcome, "### Expected outcome (untrusted)", MAX_EXPECTED_OUTCOME_LENGTH);
    var d := OptionalParts(input.actualOutcome, "### Actual outcome (untrusted)", MAX_ACTUAL_OUTCOME_LENGTH);
    RenderConcat(a, b);
    RenderConcat(a + b, c);
    RenderConcat(a + b + c, d);
    RenderConcat(a + b + c + d, NOTES);
    RenderNotes();
  }

  lemma RenderNotes()
    ensures Render(NOTES) == ["", "## Internal notes", "Submitted from Team Calendar support form.", "", "Complete triage notes here."]
  {
  }

  /** Reading the body of any submission gives back every heading and metadata row as a line of its own, and
      in order exactly the bounded subject, message and optional texts as the contents of its fences. */
  lemma BodyRoundTrip(input: IssueInput)
    ensures Scan(Join(Render(Parts(input)))) == Blocks(Parts(input))
  {
    hide Scan, Parts, IsReadable;
    PartsAreReadable(input);
    ScanRendered(Parts(input));
  }

  // ----- the body, block by block ------------------------------------------------------------

  /** One metadata row, or nothing where the value is missing or blank. */
  function RowBlocks(name: string, value: Option<string>): seq<Block> {
    if value.Some? && Trim(value.value) != [] then [Line("- " + name + ": " + SanitizeMetadataValue(value.value))] else []
  }

  /** One optional section, cut to its length, or nothing where the text is missing or empty. */
  function SectionBlocks(heading: string, value: Option<string>, maxLength: nat): seq<Block> {
    if value.Some? && value.value != "" then
      [Line(""), Line(heading), Fence("untrusted-user-text", value.value[..if |value.value| < maxLength then |value.value| else maxLength])]
    else []
  }

  lemma BlocksConcat(a: seq<Part>, b: seq<Part>)
    ensures Blocks(a + b) == Blocks(a) + Blocks(b)
  {
    hide BlockOf;
  }

  lemma MetadataStep(row: MetadataRow, rows: seq<MetadataRow>)
    ensures Blocks(Lines(MetadataLines([row] + rows))) == RowBlocks(row.name, row.value) + Blocks(Lines(MetadataLines(rows)))
  {
    hide SanitizeMetadataValue, Trim;
    assert ([row] + rows)[1..] == rows;
  }

  /** Which value stands under which name, in which order. */
  lemma MetadataMeaning(input: IssueInput)
    ensures Blocks(Lines(MetadataLines(MetadataRows(input)))) ==
              RowBlocks("Category", Some(match input.category case Support => "Support" case Feedback => "Feedback"))
              + RowBlocks("Priority", Some(match input.priority case Low => "Low" case Normal => "Normal" case High => "High"))
              + RowBlocks("Clerk organisation ID", input.clerkOrgId)
              + RowBlocks("Organisation ID", input.organisationId)
              + RowBlocks("User ID", input.userId)
              + RowBlocks("Current route", input.currentRoute)
              + RowBlocks("Page URL", Some(input.pageUrl))
              + RowBlocks("Environment", input.environment)
              + RowBlocks("App version", input.appVersion)
  {
    hide RowBlocks, MetadataLines, Blocks, Lines;
    var rows := MetadataRows(input);
    assert rows[0..] == rows && rows[9..] == [];
    var done: seq<Block> := [];
    for i := 0 to 9
      invariant Blocks(Lines(MetadataLines(rows))) == done + Blocks(Lines(MetadataLines(rows[i..])))
      invariant done == RowsUpTo(rows, i)
    {
      assert rows[i..] == [rows[i]] + rows[i + 1..];
      MetadataStep(rows[i], rows[i + 1..]);
      Regroup(done, RowBlocks(rows[i].name, rows[i].value), Blocks(Lines(MetadataLines(rows[i + 1..]))));
      done := done + RowBlocks(rows[i].name, rows[i].value);
    }
    NoRows();
    NineRows(rows);
  }

  lemma Regroup(a: seq<Block>, b: seq<Block>, c: seq<Block>)
    ensures a + (b + c) == (a + b) + c
  {
  }

  function RowsUpTo(rows: seq<MetadataRow>, n: nat): seq<Block>
    requires n <= |rows|
  {
    if n == 0 then [] else RowsUpTo(rows, n - 1) + RowBlocks(rows[n - 1].name, rows[n - 1].value)
  }

  lemma NineRows(rows: seq<MetadataRow>)
    requires |rows| == 9
    ensures RowsUpTo(rows, 9) ==
              RowBlocks(rows[0].name, rows[0].value) + RowBlocks(rows[1].name, rows[1].value)
              + RowBlocks(rows[2].name, rows[2].value) + RowBlocks(rows[3].name, rows[3].value)
              + RowBlocks(rows[4].name, rows[4].value) + RowBlocks(rows[5].name, rows[5].value)
              + RowBlocks(rows[6].name, rows[6].value) + RowBlocks(rows[7].name, rows[7].value)
              + RowBlocks(rows[8].name, rows[8].value)
  {
    hide RowBlocks;
    assert RowsUpTo(rows, 1) == [] + RowBlocks(rows[0].name, rows[0].value) == RowBlocks(rows[0].name, rows[0].value);
    assert RowsUpTo(rows, 3) == RowsUpTo(rows, 2) + RowBlocks(rows[2].name, rows[2].value);
    assert RowsUpTo(rows, 5) == RowsUpTo(rows, 4) + RowBlocks(rows[4].name, rows[4].value);
    assert RowsUpTo(rows, 7) == RowsUpTo(rows, 6) + RowBlocks(rows[6].name, rows[6].value);
  }

  lemma NoRows()
    ensures Blocks(Lines(MetadataLines([]))) == []
  {
  }

  lemma SectionMeaning(heading: string, value: Option<string>, maxLength: nat)
    ensures Blocks(OptionalParts(value, heading, maxLength)) == SectionBlocks(heading, value, maxLength)
  {
    if value.Some? { BoundedMeaning(value.value, maxLength); }
  }

  lemma BoundedMeaning(s: string, n: nat)
    ensures Bounded(s, n) == s[..if |s| < n then |s| else n]
  {
    assert s[..|s|] == s;
  }

  /** What a reader finds in the body of any submission, block by block: the metadata rows, the subject, the
      message and the optional texts, each text in a fence of its own right under its heading, and the notes. */
  lemma BodyContents(input: IssueInput)
    ensures Scan(Join(Render(Parts(input)))) ==
              [Line("## Metadata")] + Blocks(Lines(MetadataLines(MetadataRows(input))))
              + [Line(""), Line("## Untrusted user content"), Line(""),
                 Line("### Subject (untrusted)"),
                 Fence("untrusted-user-text", input.subject[..if |input.subject| < 256 then |input.subject| else 256]), Line(""),
                 Line("### Message (untrusted)"),
                 Fence("untrusted-user-text", input.message[..if |input.message| < 10_000 then |input.message| else 10_000])]
              + SectionBlocks("### Reproduction steps (untrusted)", input.reproductionSteps, 10_000)
              + SectionBlocks("### Expected outcome (untrusted)", input.expectedOutcome, 5000)
              + SectionBlocks("### Actual outcome (untrusted)", input.actualOutcome, 5000)
              + [Line(""), Line("## Internal notes"), Line("Submitted from Team Calendar support form."),
                 Line(""), Line("Complete triage notes here.")]
  {
    hide Scan, Render, Join, MetadataLines, MetadataRows, OptionalParts, SectionBlocks, Lines, Blocks;
    BodyRoundTrip(input);
    var metadata := Lines(MetadataLines(MetadataRows(input)));
    var fixed := [Text(""), Text("## Untrusted user content"), Text(""),
      Text("### Subject (untrusted)"), Untrusted(Bounded(input.subject, MAX_SUBJECT_LENGTH)), Text(""),
      Text("### Message (untrusted)"), Untrusted(Bounded(input.message, MAX_MESSAGE_LENGTH))];
    var steps := OptionalParts(input.reproductionSteps, "### Reproduction steps (untrusted)", MAX_REPRODUCTION_STEPS_LENGTH);
    var expected := OptionalParts(input.expectedOutcome, "### Expected outcome (untrusted)", MAX_EXPECTED_OUTCOME_LENGTH);
    var actual := OptionalParts(input.actualOutcome, "### Actual outcome (untrusted)", MAX_ACTUAL_OUTCOME_LENGTH);
    var head := [Text("## Metadata")];
    BlocksConcat(head, metadata);
    BlocksConcat(head + metadata, fixed);
    BlocksConcat(head + metadata + fixed, steps);
    BlocksConcat(head + metadata + fixed + steps, expected);
    BlocksConcat(head + metadata + fixed + steps + expected, actual);
    BlocksConcat(head + metadata + fixed + steps + expected + actual, NOTES);
    SectionMeaning("### Reproduction steps (untrusted)", input.reproductionSteps, 10_000);
    SectionMeaning("### Expected outcome (untrusted)", input.expectedOutcome, 5000);
    SectionMeaning("### Actual outcome (untrusted)", input.actualOutcome, 5000);
    FixedBlocks(input);
  }

  lemma FixedBlocks(input: IssueInput)
    ensures Blocks([Text("## Metadata")]) == [Line("## Metadata")]
    ensures Blocks([Text(""), Text("## Untrusted user content"), Text(""),
              Text("### Subject (untrusted)"), Untrusted(Bounded(input.subject, MAX_SUBJECT_LENGTH)), Text(""),
              Text("### Message (untrusted)"), Untrusted(Bounded(input.message, MAX_MESSAGE_LENGTH))])
            == [Line(""), Line("## Untrusted user content"), Line(""),
                Line("### Subject (untrusted)"),
                Fence("untrusted-user-text", input.subject[..if |input.subject| < 256 then |input.subject| else 256]), Line(""),
                Line("### Message (untrusted)"),
                Fence("untrusted-user-text", input.message[..if |input.message| < 10_000 then |input.message| else 10_000])]
    ensures Blocks(NOTES) == [Line(""), Line("## Internal notes"), Line("Submitted from Team Calendar support form."),
                              Line(""), Line("Complete triage notes here.")]
  {
    BoundedMeaning(input.subject, 256);
    BoundedMeaning(input.message, 10_000);
  }
}
