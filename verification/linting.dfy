/** The theme editor's CSS linter: turning the linter's 1-based
    (line, column) warnings into offset ranges of the document, and
    stripping the rule name off their messages. The linter itself is an
    input: its warnings, or the error it threw.
 */
module Linting {
  import opened Wrappers
  import Text
  import Seqs

  function Lines(code: string): seq<string> {
    Text.Split(code, '\n')
  }

  /** `getPosition(line, column)`: the offset of the lines before `line`,
      one newline each, plus `column - 1`. Reading a line past the last
      one throws; that is `None`. */
  function GetPosition(code: string, line: int, column: int): (r: Option<int>)
    ensures r.None? <==> line - 1 > |Lines(code)|
    ensures line <= 1 ==> r == Some(column - 1)
    ensures r.Some? && line >= 1 ==> r.value == Text.PartOffset(Lines(code), line - 1) + column - 1
  {
    var lines := Lines(code);
    if line - 1 > |lines| then None
    else Some(Text.PartOffset(lines, if line < 1 then 0 else line - 1) + column - 1)
  }

  /** A position inside a line is the offset of that very character of the
      document. */
  lemma PositionIsCharacter(code: string, line: int, column: int)
    requires 1 <= line <= |Lines(code)|
    requires 1 <= column <= |Lines(code)[line - 1]|
    ensures GetPosition(code, line, column).Some?
    ensures var p := GetPosition(code, line, column).value;
            0 <= p < |code| && code[p] == Lines(code)[line - 1][column - 1]
  {
    Text.JoinSplit(code, '\n');
    Text.JoinIndex(Lines(code), '\n', line - 1, column - 1);
  }

  /** The column just past a line, where an exclusive end column lands, is
      the offset of the newline that ends it, or the end of the document
      on the last line. */
  lemma PositionAtLineEnd(code: string, line: int)
    requires 1 <= line <= |Lines(code)|
    ensures GetPosition(code, line, |Lines(code)[line - 1]| + 1).Some?
    ensures var p := GetPosition(code, line, |Lines(code)[line - 1]| + 1).value;
            && (line == |Lines(code)| ==> p == |code|)
            && (line < |Lines(code)| ==> 0 <= p < |code| && code[p] == '\n')
  {
    Text.JoinSplit(code, '\n');
    Text.JoinPartEnd(Lines(code), '\n', line - 1);
  }

  /** One line past the last, positions continue as if a newline followed
      the document. */
  lemma PositionPastLastLine(code: string, column: int)
    ensures GetPosition(code, |Lines(code)| + 1, column) == Some(|code| + column)
  {
    Text.JoinSplit(code, '\n');
    Text.PartOffsetPastEnd(Lines(code), '\n');
  }

  // ---------------------------------------------------------------------
  // Message cleaning.

  /** The pattern `\s*\([^)]+\)\s*$` matches from `i`: whitespace, an
      opening parenthesis, at least one character other than `)`, a
      closing parenthesis, and only whitespace after it. */
  predicate MatchesAt(s: string, i: nat) {
    exists j, k :: i <= j && j + 1 < k < |s|
      && Text.AllWhitespace(s[i..j]) && s[j] == '(' && ')' !in s[j + 1..k] && s[k] == ')'
      && Text.AllWhitespace(s[k + 1..])
  }

  /** The leftmost position from `i` on where the pattern matches. */
  function FirstMatch(s: string, i: nat): (r: Option<nat>)
    requires i <= |s|
    ensures r.Some? ==> i <= r.value <= |s| && MatchesAt(s, r.value)
    ensures forall p :: i <= p <= |s| && (r.None? || p < r.value) ==> !MatchesAt(s, p)
    decreases |s| - i
  {
    if MatchesAt(s, i) then Some(i)
    else if i == |s| then None
    else FirstMatch(s, i + 1)
  }

  /** `text.replace(/\s*\([^)]+\)\s*$/, "").trim()`. The pattern runs to
      the end of the text, so replacing its leftmost match cuts the text
      where that match starts. */
  function CleanMessage(text: string): (r: string)
    ensures Text.IsTrimmed(r)
    ensures (exists i :: 0 <= i <= |text| && MatchesAt(text, i)) ==>
              exists i :: 0 <= i <= |text| && MatchesAt(text, i) && r == Text.Trim(text[..i])
                && forall p :: 0 <= p < i ==> !MatchesAt(text, p)
    ensures (forall i :: 0 <= i <= |text| ==> !MatchesAt(text, i)) ==> r == Text.Trim(text)
  {
    match FirstMatch(text, 0)
    case Some(i) => Text.Trim(text[..i])
    case None => Text.Trim(text)
  }

  /** A linter message with its rule appended in parentheses cleans back
      to the message. */
  lemma CleanRuleSuffix(m: string, rule: string)
    requires Text.IsTrimmed(m) && '(' !in m
    requires rule != [] && ')' !in rule
    ensures CleanMessage(m + " (" + rule + ")") == m
  {
    var s := m + " (" + rule + ")";
    SuffixMatches(m, rule);
    forall p | 0 <= p < |m|
      ensures !MatchesAt(s, p)
    {
      NoMatchInside(s, m, p);
    }
    FirstMatchAt(s, |m|);
    assert s[..|m|] == m;
    Text.TrimOfTrimmed(m);
  }

  /** The pattern matches a rule suffix where it starts. */
  lemma SuffixMatches(m: string, rule: string)
    requires rule != [] && ')' !in rule
    ensures MatchesAt(m + " (" + rule + ")", |m|)
  {
    var s := m + " (" + rule + ")";
    var j, k := |m| + 1, |s| - 1;
    assert s[j + 1..k] == rule;
    assert s[|m|] == ' ' && s[j] == '(' && s[k] == ')';
    assert s[|m|..j] == [' '];
    assert s[k + 1..] == [];
    assert Text.AllWhitespace(s[|m|..j]) && Text.AllWhitespace(s[k + 1..]);
  }

  /** A match with none before it is the leftmost one. */
  lemma FirstMatchAt(s: string, i: nat)
    requires i <= |s| && MatchesAt(s, i)
    requires forall p :: 0 <= p < i ==> !MatchesAt(s, p)
    ensures FirstMatch(s, 0) == Some(i)
  {
    var r := FirstMatch(s, 0);
    assert r.Some?;
  }

  /** The pattern cannot start inside a trimmed prefix free of `(`: the
      white space it would begin with runs into the prefix's last
      character. */
  lemma NoMatchInside(s: string, m: string, p: nat)
    requires m <= s && Text.IsTrimmed(m) && '(' !in m && p < |m|
    ensures !MatchesAt(s, p)
  {
    assert forall i :: 0 <= i < |m| ==> s[i] == m[i];
    forall j | p <= j < |s| && s[j] == '('
      ensures !Text.AllWhitespace(s[p..j])
    {
      assert s[p..j][|m| - 1 - p] == m[|m| - 1];
    }
  }

  /** A message without a trailing parenthesised group is only trimmed. */
  lemma CleanWithoutGroup(text: string)
    requires ')' !in text
    ensures CleanMessage(text) == Text.Trim(text)
  {
  }

  // ---------------------------------------------------------------------
  // Diagnostics.

  /** A linter warning; the end position may be absent. */
  datatype Warning = Warning(line: int, column: int, endLine: Option<int>, endColumn: Option<int>,
                             text: string, severity: string)

  datatype Diagnostic = Diagnostic(from: int, to: int, severity: string, message: string)

  /** A JavaScript number in a condition: absent and zero are false. */
  predicate Truthy(n: Option<int>) {
    n.Some? && n.value != 0
  }

  function Max(a: int, b: int): int {
    if a < b then b else a
  }

  /** The diagnostic of one warning, or `None` when computing a position
      throws. The range starts at the clamped start and ends no earlier
      than one past the unclamped start. */
  function ToDiagnostic(code: string, w: Warning): (r: Option<Diagnostic>)
    ensures r.Some? ==> r.value.from >= 0
    ensures r.None? <==> GetPosition(code, w.line, w.column).None?
                         || (Truthy(w.endLine) && Truthy(w.endColumn)
                             && GetPosition(code, w.endLine.value, w.endColumn.value).None?)
    ensures r.Some? ==> var from := GetPosition(code, w.line, w.column).value;
                        && r.value.from == Max(0, from)
                        && r.value.to >= from + 1
                        && (from >= 0 ==> r.value.from == from && r.value.to > r.value.from)
                        && (!(Truthy(w.endLine) && Truthy(w.endColumn)) ==> r.value.to == from + 1)
                        && (Truthy(w.endLine) && Truthy(w.endColumn) ==>
                              r.value.to == Max(from + 1, GetPosition(code, w.endLine.value, w.endColumn.value).value))
    ensures r.Some? ==> r.value.severity == w.severity && r.value.message == CleanMessage(w.text)
  {
    var start := GetPosition(code, w.line, w.column);
    if start.None? then None
    else
      var from := start.value;
      var end := if Truthy(w.endLine) && Truthy(w.endColumn)
                 then GetPosition(code, w.endLine.value, w.endColumn.value)
                 else Some(from + 1);
      if end.None? then None
      else Some(Diagnostic(Max(0, from), Max(from + 1, end.value), w.severity, CleanMessage(w.text)))
  }

  /** A warning at a character of the document yields a diagnostic that
      starts at that very character and covers it. */
  lemma DiagnosticCoversWarnedCharacter(code: string, w: Warning)
    requires 1 <= w.line <= |Lines(code)|
    requires 1 <= w.column <= |Lines(code)[w.line - 1]|
    requires Truthy(w.endLine) && Truthy(w.endColumn) ==> w.endLine.value - 1 <= |Lines(code)|
    ensures ToDiagnostic(code, w).Some?
    ensures var d := ToDiagnostic(code, w).value;
            && 0 <= d.from < d.to && d.from < |code|
            && code[d.from] == Lines(code)[w.line - 1][w.column - 1]
  {
    PositionIsCharacter(code, w.line, w.column);
  }

  /** `warnings.forEach(...)` inside the `try`: one diagnostic per warning,
      in order, until a warning throws; the diagnostics pushed before it
      are kept. */
  function Convert(code: string, warnings: seq<Warning>): (r: seq<Diagnostic>)
    ensures |r| <= |warnings|
    ensures forall i :: 0 <= i < |r| ==> ToDiagnostic(code, warnings[i]) == Some(r[i])
    ensures |r| < |warnings| ==> ToDiagnostic(code, warnings[|r|]).None?
    ensures (forall i :: 0 <= i < |warnings| ==> ToDiagnostic(code, warnings[i]).Some?) ==> |r| == |warnings|
  {
    Seqs.MapUntilNone(warnings, (w: Warning) => ToDiagnostic(code, w))
  }

  /** `cssLinter`: the linter's result per file, or what it threw. Only
      the first file's warnings count; a throwing linter gives none. */
  function CssLinter(code: string, lint: Attempt<seq<seq<Warning>>>): (r: seq<Diagnostic>)
    ensures lint.Throws? || lint.value == [] ==> r == []
    ensures lint.Done? && lint.value != [] ==>
              |r| <= |lint.value[0]|
              && (forall i :: 0 <= i < |r| ==> ToDiagnostic(code, lint.value[0][i]) == Some(r[i]))
              && (|r| < |lint.value[0]| ==> ToDiagnostic(code, lint.value[0][|r|]).None?)
              && ((forall i :: 0 <= i < |lint.value[0]| ==> ToDiagnostic(code, lint.value[0][i]).Some?)
                    ==> |r| == |lint.value[0]|)
  {
    match lint
    case Throws(_) => []
    case Done(results) => if results == [] then [] else Convert(code, results[0])
  }

  /** Results after the first are ignored. */
  lemma LaterResultsIgnored(code: string, first: seq<Warning>, rest: seq<seq<Warning>>)
    ensures CssLinter(code, Done([first] + rest)) == CssLinter(code, Done([first]))
  {
  }
}
