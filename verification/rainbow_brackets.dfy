/** Rainbow brackets in the theme editor. One pass over the document keeps
    a stack of open brackets; a closing bracket pops the top opener and,
    when the two match, marks both positions with the pair's nesting
    level. The marks are then put in position order. A mark stands for a
    CodeMirror decoration `rainbow-bracket-level-<level>` over one
    character.
 */
module RainbowBrackets {
  import opened Wrappers
  import Text
  import EditorConfig

  predicate IsOpener(c: char) {
    c == '(' || c == '[' || c == '{'
  }

  predicate IsCloser(c: char) {
    c == ')' || c == ']' || c == '}'
  }

  /** `getMatchingBracket`: the opener a closer pairs with; null for any
      other character. */
  function MatchingBracket(c: char): (r: Option<char>)
    ensures r.Some? <==> IsCloser(c)
    ensures r.Some? ==> IsOpener(r.value)
  {
    match c
    case ')' => Some('(')
    case ']' => Some('[')
    case '}' => Some('{')
    case _ => None
  }

  /** The closer of an opener, the inverse of `MatchingBracket`. */
  function ClosingBracket(o: char): (c: char)
    requires IsOpener(o)
    ensures IsCloser(c)
  {
    if o == '(' then ')' else if o == '[' then ']' else '}'
  }

  /** `MatchingBracket` is a bijection from closers onto openers. */
  lemma MatchingBracketInverse(o: char, c: char)
    ensures IsOpener(o) ==> MatchingBracket(ClosingBracket(o)) == Some(o)
    ensures IsCloser(c) ==> ClosingBracket(MatchingBracket(c).value) == c
  {
  }

  /** A stack entry: the opener's character and position. */
  datatype Open = Open(kind: char, from: nat)

  /** A mark: the position of one bracket and its level. */
  datatype Mark = Mark(pos: nat, level: nat)

  /** The state of the walk: the open brackets, innermost last, and the
      marks pushed so far. */
  datatype Walk = Walk(stack: seq<Open>, marks: seq<Mark>)

  /** One character of the walk at position `pos`. A closer always pops,
      and pushes two marks only when the popped opener is its match; the
      level is the number of brackets left open, modulo the number of
      levels. */
  function Step(w: Walk, pos: nat, c: char): (r: Walk)
    ensures w.marks <= r.marks
    ensures IsOpener(c) ==> r == Walk(w.stack + [Open(c, pos)], w.marks)
    ensures IsCloser(c) && w.stack != [] ==> r.stack == w.stack[..|w.stack| - 1]
    ensures |r.marks| > |w.marks| <==>
              IsCloser(c) && w.stack != [] && MatchingBracket(c) == Some(w.stack[|w.stack| - 1].kind)
    ensures |r.marks| > |w.marks| ==>
              var level := |r.stack| % EditorConfig.BracketNestingLevels;
              r.marks == w.marks + [Mark(w.stack[|w.stack| - 1].from, level), Mark(pos, level)]
    ensures !IsOpener(c) && !(IsCloser(c) && w.stack != []) ==> r == w
  {
    if IsOpener(c) then Walk(w.stack + [Open(c, pos)], w.marks)
    else if IsCloser(c) then
      if w.stack == [] then w
      else
        var open := w.stack[|w.stack| - 1];
        var rest := w.stack[..|w.stack| - 1];
        if MatchingBracket(c) == Some(open.kind) then
          var level := |rest| % EditorConfig.BracketNestingLevels;
          Walk(rest, w.marks + [Mark(open.from, level), Mark(pos, level)])
        else Walk(rest, w.marks)
    else w
  }

  /** The walk over the first `n` characters of `doc`. */
  function Scan(doc: string, n: nat): (w: Walk)
    requires n <= |doc|
    ensures |w.marks| % 2 == 0
    ensures |w.stack| + |w.marks| <= n
  {
    if n == 0 then Walk([], []) else Step(Scan(doc, n - 1), n - 1, doc[n - 1])
  }

  /** `o` and `c` are the marks of one matched pair: an opener and its
      matching closer, with the opener on top of the stack when the closer
      is reached, both at the level given by the number of brackets that
      were open just before the opener (and are still open after the
      closer). */
  predicate IsPair(doc: string, o: Mark, c: Mark) {
    && o.pos < c.pos < |doc|
    && IsOpener(doc[o.pos])
    && MatchingBracket(doc[c.pos]) == Some(doc[o.pos])
    && (var st := Scan(doc, c.pos).stack;
        |st| > 0 && st[|st| - 1] == Open(doc[o.pos], o.pos))
    && o.level == c.level == |Scan(doc, o.pos).stack| % EditorConfig.BracketNestingLevels
  }

  /** Stack entry `i` is an opener of the document, pushed when `i`
      brackets were open. */
  predicate EntryOk(doc: string, stack: seq<Open>, i: nat)
    requires i < |stack|
  {
    var e := stack[i];
    e.from < |doc| && doc[e.from] == e.kind && IsOpener(e.kind) && |Scan(doc, e.from).stack| == i
  }

  predicate DistinctPositions(marks: seq<Mark>) {
    forall j, k :: 0 <= j < k < |marks| ==> marks[j].pos != marks[k].pos
  }

  /** The stack holds openers of the first `n` characters, in position
      order, each pushed when the entries below it were open. */
  predicate StackOk(doc: string, n: nat, stack: seq<Open>) {
    && (forall i :: 0 <= i < |stack| ==> EntryOk(doc, stack, i) && stack[i].from < n)
    && (forall i, j :: 0 <= i < j < |stack| ==> stack[i].from < stack[j].from)
  }

  /** The marks come two by two, one matched pair each. */
  predicate PairsOk(doc: string, marks: seq<Mark>) {
    && |marks| % 2 == 0
    && (forall j :: 0 <= j < |marks| && j % 2 == 0 ==> IsPair(doc, marks[j], marks[j + 1]))
  }

  predicate MarksBelow(marks: seq<Mark>, n: nat) {
    forall j :: 0 <= j < |marks| ==> marks[j].pos < n
  }

  predicate Unmarked(stack: seq<Open>, marks: seq<Mark>) {
    forall i, j :: 0 <= i < |stack| && 0 <= j < |marks| ==> stack[i].from != marks[j].pos
  }

  /** What the walk keeps after `n` characters. */
  predicate WellFormed(doc: string, n: nat, w: Walk) {
    && StackOk(doc, n, w.stack)
    && PairsOk(doc, w.marks)
    && MarksBelow(w.marks, n)
    && DistinctPositions(w.marks)
    && Unmarked(w.stack, w.marks)
  }

  lemma PushKeeps(doc: string, pos: nat, w: Walk)
    requires pos < |doc| && IsOpener(doc[pos])
    requires w == Scan(doc, pos) && WellFormed(doc, pos, w)
    ensures WellFormed(doc, pos + 1, Walk(w.stack + [Open(doc[pos], pos)], w.marks))
  {
    var st := w.stack + [Open(doc[pos], pos)];
    assert EntryOk(doc, st, |w.stack|);
    forall i | 0 <= i < |w.stack|
      ensures EntryOk(doc, st, i)
    {
      assert st[i] == w.stack[i];
    }
  }

  lemma PopKeeps(doc: string, pos: nat, w: Walk)
    requires pos < |doc| && w.stack != []
    requires w == Scan(doc, pos) && WellFormed(doc, pos, w)
    ensures WellFormed(doc, pos + 1, Walk(w.stack[..|w.stack| - 1], w.marks))
  {
    PopStackOk(doc, pos, w.stack);
    var rest := w.stack[..|w.stack| - 1];
    assert Unmarked(rest, w.marks) by {
      forall i, j | 0 <= i < |rest| && 0 <= j < |w.marks|
        ensures rest[i].from != w.marks[j].pos
      {
        assert rest[i] == w.stack[i];
      }
    }
  }

  /** Popping keeps the stack in order. */
  lemma PopStackOk(doc: string, pos: nat, stack: seq<Open>)
    requires stack != [] && StackOk(doc, pos, stack)
    ensures StackOk(doc, pos + 1, stack[..|stack| - 1])
  {
    var rest := stack[..|stack| - 1];
    forall i | 0 <= i < |rest|
      ensures EntryOk(doc, rest, i) && rest[i].from < pos + 1
    {
      assert EntryOk(doc, stack, i);
      assert rest[i] == stack[i];
    }
    forall i, j | 0 <= i < j < |rest|
      ensures rest[i].from < rest[j].from
    {
      assert rest[i] == stack[i] && rest[j] == stack[j];
    }
  }

  lemma PairKeeps(doc: string, pos: nat, w: Walk)
    requires pos < |doc| && w.stack != []
    requires MatchingBracket(doc[pos]) == Some(w.stack[|w.stack| - 1].kind)
    requires w == Scan(doc, pos) && WellFormed(doc, pos, w)
    ensures var open := w.stack[|w.stack| - 1];
            var level := (|w.stack| - 1) % EditorConfig.BracketNestingLevels;
            WellFormed(doc, pos + 1, Walk(w.stack[..|w.stack| - 1],
                                          w.marks + [Mark(open.from, level), Mark(pos, level)]))
  {
    var open := w.stack[|w.stack| - 1];
    var level := (|w.stack| - 1) % EditorConfig.BracketNestingLevels;
    var added := [Mark(open.from, level), Mark(pos, level)];
    PopStackOk(doc, pos, w.stack);
    NewPair(doc, pos, w.stack);
    PairsAppend(doc, w.marks, added);
    MarksBelowAppend(w.marks, pos, open.from, level);
    DistinctAppend(w.stack, w.marks, pos, level);
    UnmarkedAppend(w.stack, w.marks, pos, level);
  }

  /** A closer meeting its opener on top of the stack closes a pair. */
  lemma NewPair(doc: string, pos: nat, stack: seq<Open>)
    requires pos < |doc| && stack != [] && stack == Scan(doc, pos).stack
    requires MatchingBracket(doc[pos]) == Some(stack[|stack| - 1].kind)
    requires StackOk(doc, pos, stack)
    ensures var open := stack[|stack| - 1];
            var level := (|stack| - 1) % EditorConfig.BracketNestingLevels;
            IsPair(doc, Mark(open.from, level), Mark(pos, level))
  {
    assert EntryOk(doc, stack, |stack| - 1);
  }

  lemma MarksBelowAppend(marks: seq<Mark>, pos: nat, from: nat, level: nat)
    requires MarksBelow(marks, pos) && from < pos
    ensures MarksBelow(marks + [Mark(from, level), Mark(pos, level)], pos + 1)
  {
    var all := marks + [Mark(from, level), Mark(pos, level)];
    forall j | 0 <= j < |all|
      ensures all[j].pos < pos + 1
    {
      if j < |marks| {
        assert all[j] == marks[j];
      }
    }
  }

  lemma PairsAppend(doc: string, marks: seq<Mark>, added: seq<Mark>)
    requires PairsOk(doc, marks) && |added| == 2 && IsPair(doc, added[0], added[1])
    ensures PairsOk(doc, marks + added)
  {
    var all := marks + added;
    forall j | 0 <= j < |all| && j % 2 == 0
      ensures IsPair(doc, all[j], all[j + 1])
    {
      if j < |marks| {
        assert all[j] == marks[j] && all[j + 1] == marks[j + 1];
      }
    }
  }

  lemma DistinctAppend(stack: seq<Open>, marks: seq<Mark>, pos: nat, level: nat)
    requires stack != [] && DistinctPositions(marks) && Unmarked(stack, marks) && MarksBelow(marks, pos)
    requires stack[|stack| - 1].from < pos
    ensures DistinctPositions(marks + [Mark(stack[|stack| - 1].from, level), Mark(pos, level)])
  {
    var all := marks + [Mark(stack[|stack| - 1].from, level), Mark(pos, level)];
    forall j, k | 0 <= j < k < |all|
      ensures all[j].pos != all[k].pos
    {
      if j < |marks| {
        assert all[j] == marks[j];
        if k < |marks| {
          assert all[k] == marks[k];
        }
      }
    }
  }

  lemma UnmarkedAppend(stack: seq<Open>, marks: seq<Mark>, pos: nat, level: nat)
    requires stack != [] && Unmarked(stack, marks)
    requires forall i, j :: 0 <= i < j < |stack| ==> stack[i].from < stack[j].from
    requires forall i :: 0 <= i < |stack| ==> stack[i].from < pos
    ensures Unmarked(stack[..|stack| - 1], marks + [Mark(stack[|stack| - 1].from, level), Mark(pos, level)])
  {
    var rest := stack[..|stack| - 1];
    var all := marks + [Mark(stack[|stack| - 1].from, level), Mark(pos, level)];
    forall i, j | 0 <= i < |rest| && 0 <= j < |all|
      ensures rest[i].from != all[j].pos
    {
      assert rest[i] == stack[i];
      if j < |marks| {
        assert all[j] == marks[j];
      }
    }
  }

  lemma {:induction false} ScanWellFormed(doc: string, n: nat)
    requires n <= |doc|
    ensures WellFormed(doc, n, Scan(doc, n))
  {
    if n > 0 {
      ScanWellFormed(doc, n - 1);
      StepKeeps(doc, n - 1, Scan(doc, n - 1));
    }
  }

  /** One step of the walk keeps it well formed. */
  lemma StepKeeps(doc: string, pos: nat, w: Walk)
    requires pos < |doc| && w == Scan(doc, pos) && WellFormed(doc, pos, w)
    ensures WellFormed(doc, pos + 1, Step(w, pos, doc[pos]))
  {
    var c := doc[pos];
    if IsOpener(c) {
      PushKeeps(doc, pos, w);
    } else if IsCloser(c) && w.stack != [] {
      if MatchingBracket(c) == Some(w.stack[|w.stack| - 1].kind) {
        PairKeeps(doc, pos, w);
      } else {
        PopKeeps(doc, pos, w);
      }
    }
  }

  lemma ScanPairs(doc: string, n: nat)
    requires n <= |doc|
    ensures PairsOk(doc, Scan(doc, n).marks)
  {
    ScanWellFormed(doc, n);
  }

  lemma ScanDistinct(doc: string, n: nat)
    requires n <= |doc|
    ensures DistinctPositions(Scan(doc, n).marks) && MarksBelow(Scan(doc, n).marks, n)
  {
    ScanWellFormed(doc, n);
  }

  /** Every mark belongs to a pair: the one starting at it when its index
      is even, the one ending at it when odd. */
  lemma PairOfMark(doc: string, n: nat, j: nat)
    requires n <= |doc| && j < |Scan(doc, n).marks|
    ensures var marks := Scan(doc, n).marks;
            if j % 2 == 0 then j + 1 < |marks| && IsPair(doc, marks[j], marks[j + 1])
            else IsPair(doc, marks[j - 1], marks[j])
  {
    var marks := Scan(doc, n).marks;
    ScanPairs(doc, n);
    PairIndex(doc, marks, j);
  }

  lemma PairIndex(doc: string, marks: seq<Mark>, j: nat)
    requires PairsOk(doc, marks) && j < |marks|
    ensures if j % 2 == 0 then j + 1 < |marks| && IsPair(doc, marks[j], marks[j + 1])
            else IsPair(doc, marks[j - 1], marks[j])
  {
    Parity(j, |marks|);
    if j % 2 == 0 {
      assert IsPair(doc, marks[j], marks[j + 1]);
    } else {
      var i := j - 1;
      assert i % 2 == 0 && i < |marks|;
      assert IsPair(doc, marks[i], marks[i + 1]);
    }
  }

  lemma Parity(j: nat, len: nat)
    requires len % 2 == 0 && j < len
    ensures j % 2 == 0 ==> j + 1 < len
    ensures j % 2 != 0 ==> j >= 1 && (j - 1) % 2 == 0
  {
  }

  /** Marks only accumulate. */
  lemma {:induction false} ScanMarksGrow(doc: string, a: nat, b: nat)
    requires a <= b <= |doc|
    ensures Scan(doc, a).marks <= Scan(doc, b).marks
    decreases b - a
  {
    if a < b {
      ScanMarksGrow(doc, a, b - 1);
    }
  }

  /** Every level is below the number of levels. */
  lemma MarkLevels(doc: string, n: nat)
    requires n <= |doc|
    ensures forall m :: m in Scan(doc, n).marks ==> m.level < EditorConfig.BracketNestingLevels
  {
    var marks := Scan(doc, n).marks;
    forall m | m in marks
      ensures m.level < EditorConfig.BracketNestingLevels
    {
      var j :| 0 <= j < |marks| && marks[j] == m;
      PairOfMark(doc, n, j);
    }
  }

  /** A closer whose popped opener matches yields the pair's two marks. */
  lemma MatchedCloserMarked(doc: string, p: nat)
    requires p < |doc| && IsCloser(doc[p])
    requires var st := Scan(doc, p).stack;
             |st| > 0 && MatchingBracket(doc[p]) == Some(st[|st| - 1].kind)
    ensures var st := Scan(doc, p).stack;
            var level := (|st| - 1) % EditorConfig.BracketNestingLevels;
            && Mark(st[|st| - 1].from, level) in Scan(doc, |doc|).marks
            && Mark(p, level) in Scan(doc, |doc|).marks
  {
    var st := Scan(doc, p).stack;
    var level := (|st| - 1) % EditorConfig.BracketNestingLevels;
    var before := Scan(doc, p).marks;
    var after := Scan(doc, p + 1).marks;
    assert after == before + [Mark(st[|st| - 1].from, level), Mark(p, level)];
    ScanMarksGrow(doc, p + 1, |doc|);
    var all := Scan(doc, |doc|).marks;
    assert all[|before|] == after[|before|];
    assert all[|before| + 1] == after[|before| + 1];
  }

  /** The marks at position `p`, if any, belong to one matched pair: so a
      character that is not a bracket is never marked, and neither is a
      closer that meets an empty stack or a different opener. */
  lemma MarkedPositions(doc: string, p: nat)
    requires p < |doc|
    requires (exists m :: m in Scan(doc, |doc|).marks && m.pos == p)
    ensures IsOpener(doc[p]) || IsCloser(doc[p])
    ensures IsCloser(doc[p]) ==>
              var st := Scan(doc, p).stack;
              |st| > 0 && MatchingBracket(doc[p]) == Some(st[|st| - 1].kind)
  {
    var marks := Scan(doc, |doc|).marks;
    var m :| m in marks && m.pos == p;
    var j :| 0 <= j < |marks| && marks[j] == m;
    PairOfMark(doc, |doc|, j);
  }

  /** Brackets left open at the end get no marks. */
  lemma LeftoverOpenersUnmarked(doc: string)
    ensures Unmarked(Scan(doc, |doc|).stack, Scan(doc, |doc|).marks)
  {
    ScanWellFormed(doc, |doc|);
  }

  /** A pair opened with nothing else open is at level 0. */
  lemma OutermostLevelZero(doc: string, j: nat)
    requires var marks := Scan(doc, |doc|).marks;
             && j + 1 < |marks| && j % 2 == 0
             && marks[j].pos <= |doc| && Scan(doc, marks[j].pos).stack == []
    ensures Scan(doc, |doc|).marks[j].level == 0 && Scan(doc, |doc|).marks[j + 1].level == 0
  {
    PairOfMark(doc, |doc|, j);
  }

  // ---------------------------------------------------------------------
  // Ordering the marks.

  predicate Increasing(marks: seq<Mark>) {
    forall j, k :: 0 <= j < k < |marks| ==> marks[j].pos < marks[k].pos
  }

  /** A sequence without repeated positions has as many distinct elements
      as it is long. */
  lemma {:induction false} DistinctCard(s: seq<Mark>)
    requires DistinctPositions(s)
    ensures |(set m | m in s)| == |s|
  {
    if s != [] {
      var t := s[..|s| - 1];
      DistinctCard(t);
      assert (set m | m in s) == (set m | m in t) + {s[|s| - 1]};
      assert s[|s| - 1] !in (set m | m in t);
    }
  }

  /** The position-to-level table of some marks. */
  method LevelTable(raw: seq<Mark>) returns (levelAt: map<nat, nat>)
    requires DistinctPositions(raw)
    ensures forall p :: p in levelAt ==> Mark(p, levelAt[p]) in raw
    ensures forall k :: 0 <= k < |raw| ==> raw[k].pos in levelAt && levelAt[raw[k].pos] == raw[k].level
  {
    levelAt := map[];
    var i := 0;
    while i < |raw|
      invariant i <= |raw|
      invariant forall p :: p in levelAt ==> Mark(p, levelAt[p]) in raw
      invariant forall k :: 0 <= k < i ==> raw[k].pos in levelAt && levelAt[raw[k].pos] == raw[k].level
    {
      levelAt := levelAt[raw[i].pos := raw[i].level];
      i := i + 1;
    }
  }

  /** Sorts marks with distinct positions below `bound` by position: one
      sweep over the positions, looking each up in a position-to-level
      table. With distinct positions the order is unique, so it is the
      order the stable comparison sort of the editor produces. */
  method SortByPosition(raw: seq<Mark>, bound: nat) returns (sorted: seq<Mark>)
    requires forall j :: 0 <= j < |raw| ==> raw[j].pos < bound
    requires DistinctPositions(raw)
    ensures Increasing(sorted)
    ensures forall m :: m in sorted <==> m in raw
    ensures |sorted| == |raw|
  {
    var levelAt := LevelTable(raw);
    sorted := [];
    var p := 0;
    while p < bound
      invariant p <= bound
      invariant forall j :: 0 <= j < |sorted| ==> sorted[j].pos < p
      invariant Increasing(sorted)
      invariant forall m :: m in sorted ==> m in raw
      invariant forall k :: 0 <= k < |raw| && raw[k].pos < p ==> raw[k] in sorted
    {
      if p in levelAt {
        sorted := sorted + [Mark(p, levelAt[p])];
      }
      p := p + 1;
    }
    SameLength(sorted, raw);
  }

  /** Two duplicate-free sequences with the same elements have the same
      length. */
  lemma SameLength(a: seq<Mark>, b: seq<Mark>)
    requires Increasing(a) && DistinctPositions(b)
    requires forall m :: m in a <==> m in b
    ensures |a| == |b|
  {
    DistinctCard(a);
    DistinctCard(b);
    assert (set m | m in a) == (set m | m in b);
  }

  /** The stack walk of `getBracketDecorations`, before sorting. */
  method WalkDocument(doc: string) returns (raw: seq<Mark>)
    ensures raw == Scan(doc, |doc|).marks
  {
    var stack: seq<Open> := [];
    raw := [];
    var pos := 0;
    while pos < |doc|
      invariant pos <= |doc|
      invariant Walk(stack, raw) == Scan(doc, pos)
    {
      var c := doc[pos];
      if IsOpener(c) {
        stack := stack + [Open(c, pos)];
      } else if IsCloser(c) && stack != [] {
        var open := stack[|stack| - 1];
        stack := stack[..|stack| - 1];
        if MatchingBracket(c) == Some(open.kind) {
          var level := |stack| % EditorConfig.BracketNestingLevels;
          raw := raw + [Mark(open.from, level), Mark(pos, level)];
        }
      }
      pos := pos + 1;
    }
  }

  /** `getBracketDecorations`: the stack walk over the whole document,
      then the marks in position order. */
  method GetBracketDecorations(doc: string) returns (marks: seq<Mark>)
    ensures Increasing(marks)
    ensures forall m :: m in marks <==> m in Scan(doc, |doc|).marks
    ensures |marks| == |Scan(doc, |doc|).marks|
    ensures forall j :: 0 <= j < |marks| ==> marks[j].level < EditorConfig.BracketNestingLevels
  {
    var raw := WalkDocument(doc);
    ScanDistinct(doc, |doc|);
    MarkLevels(doc, |doc|);
    marks := SortByPosition(raw, |doc|);
  }

  // ---------------------------------------------------------------------
  // Colours.

  const BracketColors: seq<string> :=
    ["#7186f0", "#56c8d8", "#cf6edf", "#6abf69", "#ffad42", "#ff6e40", "#ff5f52"]

  /** The selector of a level's class, and of the spans inside it. */
  function LevelSelector(level: nat): string {
    ".rainbow-bracket-level-" + Text.NatToString(level)
  }

  function SpanSelector(level: nat): string {
    LevelSelector(level) + " > span"
  }

  lemma SelectorsDistinct(a: nat, b: nat)
    ensures LevelSelector(a) == LevelSelector(b) ==> a == b
    ensures SpanSelector(a) == SpanSelector(b) ==> a == b
    ensures LevelSelector(a) != SpanSelector(b)
  {
    var prefix := ".rainbow-bracket-level-";
    if LevelSelector(a) == LevelSelector(b) || SpanSelector(a) == SpanSelector(b) {
      assert LevelSelector(a) == SpanSelector(a)[..|SpanSelector(a)| - 7];
      assert LevelSelector(b) == SpanSelector(b)[..|SpanSelector(b)| - 7];
      assert Text.NatToString(a) == LevelSelector(a)[|prefix|..];
      assert Text.NatToString(b) == LevelSelector(b)[|prefix|..];
      Text.NatToStringValue(a);
      Text.NatToStringValue(b);
    }
    var s := LevelSelector(a);
    assert s[|s| - 1] == Text.NatToString(a)[|Text.NatToString(a)| - 1];
    assert Text.IsDigit(s[|s| - 1]);
    assert SpanSelector(b)[|SpanSelector(b)| - 1] == 'n';
  }

  /** The colour of level `l`. */
  function Color(l: nat): string {
    BracketColors[l % |BracketColors|]
  }

  /** The theme rules for levels `0 .. n - 1`, a selector-to-colour map. */
  function ThemeStyles(n: nat): (styles: map<string, string>)
    ensures forall k :: k in styles ==> styles[k] in BracketColors
  {
    if n == 0 then map[]
    else ThemeStyles(n - 1)[LevelSelector(n - 1) := Color(n - 1)][SpanSelector(n - 1) := Color(n - 1)]
  }

  /** Level `l` and its inner spans take colour `l % 7` of the table, and
      later levels do not overwrite earlier rules. */
  lemma {:induction false} ThemeStylesColour(n: nat, l: nat)
    requires l < n
    ensures LevelSelector(l) in ThemeStyles(n) && ThemeStyles(n)[LevelSelector(l)] == Color(l)
    ensures SpanSelector(l) in ThemeStyles(n) && ThemeStyles(n)[SpanSelector(l)] == Color(l)
  {
    var prev := ThemeStyles(n - 1);
    var k1, k2, v := LevelSelector(n - 1), SpanSelector(n - 1), Color(n - 1);
    assert ThemeStyles(n) == prev[k1 := v][k2 := v];
    if l < n - 1 {
      ThemeStylesColour(n - 1, l);
      SelectorsDistinct(l, n - 1);
      SelectorsDistinct(n - 1, l);
      LookupPast(prev, k1, k2, v, LevelSelector(l));
      LookupPast(prev, k1, k2, v, SpanSelector(l));
    } else {
      SelectorsDistinct(l, l);
    }
  }

  /** Two updates at other keys leave a lookup unchanged. */
  lemma LookupPast(m: map<string, string>, k1: string, k2: string, v: string, k: string)
    requires k in m && k != k1 && k != k2
    ensures k in m[k1 := v][k2 := v] && m[k1 := v][k2 := v][k] == m[k]
  {
  }

  /** The theme has no other rules. */
  lemma {:induction false} ThemeStylesKeys(n: nat, k: string)
    requires k in ThemeStyles(n)
    ensures exists l: nat :: l < n && (k == LevelSelector(l) || k == SpanSelector(l))
  {
    if n > 0 && k != LevelSelector(n - 1) && k != SpanSelector(n - 1) {
      ThemeStylesKeys(n - 1, k);
    }
  }

  /** `rainbowBrackets`' theme: one rule per level. */
  function RainbowTheme(): map<string, string> {
    ThemeStyles(EditorConfig.BracketNestingLevels)
  }

  /** Every mark's class has a rule, coloured by its level. */
  lemma {:induction false} MarksAreColoured(doc: string, m: Mark)
    requires m in Scan(doc, |doc|).marks
    ensures LevelSelector(m.level) in RainbowTheme()
    ensures RainbowTheme()[LevelSelector(m.level)] == Color(m.level)
  {
    MarkLevels(doc, |doc|);
    ThemeStylesColour(EditorConfig.BracketNestingLevels, m.level);
  }
}
