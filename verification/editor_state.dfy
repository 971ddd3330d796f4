/** The theme editor's shared state: the editor handle, the current theme
    name, two flags, the count of saves in flight and two timer handles.
    Each setter is an operation on an immutable state.
 */
module EditorState {
  import opened Wrappers

  /** An editor view or timer, known only by identity. */
  type Handle = nat

  datatype State = State(
    editor: Option<Handle>,
    currentThemeName: Option<string>,
    isUserTyping: bool,
    isCustomTheme: bool,
    saveCount: int,
    saveTimeout: Option<Handle>,
    saveCustomThemeTimeout: Option<Handle>)

  /** The module's initial values; the editor and the timers start unset. */
  const Initial: State := State(None, None, false, false, 0, None, None)

  datatype Field =
    | EditorField | ThemeNameField | TypingField | CustomThemeField
    | SaveCountField | SaveTimeoutField | CustomThemeTimeoutField

  /** The exported setters. */
  datatype Op =
    | SetEditor(editor: Handle)
    | SetCurrentThemeName(name: Option<string>)
    | SetIsUserTyping(typing: bool)
    | SetIsCustomTheme(custom: bool)
    | IncrementSaveCount
    | DecrementSaveCount
    | SetSaveTimeout(timeout: Handle)
    | SetSaveCustomThemeTimeout(timeout: Handle)

  /** The one variable an operation writes. */
  function Target(op: Op): Field {
    match op
    case SetEditor(_) => EditorField
    case SetCurrentThemeName(_) => ThemeNameField
    case SetIsUserTyping(_) => TypingField
    case SetIsCustomTheme(_) => CustomThemeField
    case IncrementSaveCount => SaveCountField
    case DecrementSaveCount => SaveCountField
    case SetSaveTimeout(_) => SaveTimeoutField
    case SetSaveCustomThemeTimeout(_) => CustomThemeTimeoutField
  }

  /** `s` and `t` hold the same value in variable `f`. */
  predicate SameOn(s: State, t: State, f: Field) {
    match f
    case EditorField => s.editor == t.editor
    case ThemeNameField => s.currentThemeName == t.currentThemeName
    case TypingField => s.isUserTyping == t.isUserTyping
    case CustomThemeField => s.isCustomTheme == t.isCustomTheme
    case SaveCountField => s.saveCount == t.saveCount
    case SaveTimeoutField => s.saveTimeout == t.saveTimeout
    case CustomThemeTimeoutField => s.saveCustomThemeTimeout == t.saveCustomThemeTimeout
  }

  /** `s` and `t` agree on every variable except possibly `f`. */
  predicate AgreeExcept(s: State, t: State, f: Field) {
    forall g: Field :: g != f ==> SameOn(s, t, g)
  }

  /** Runs one setter: it stores its argument in its target, the counter
      moves by one (never below zero), and nothing but the target
      changes. */
  function Apply(s: State, op: Op): (t: State)
    ensures AgreeExcept(s, t, Target(op))
    ensures s.saveCount >= 0 ==> t.saveCount >= 0
    ensures op.SetEditor? ==> t.editor == Some(op.editor)
    ensures op.SetCurrentThemeName? ==> t.currentThemeName == op.name
    ensures op.SetIsUserTyping? ==> t.isUserTyping == op.typing
    ensures op.SetIsCustomTheme? ==> t.isCustomTheme == op.custom
    ensures op.SetSaveTimeout? ==> t.saveTimeout == Some(op.timeout)
    ensures op.SetSaveCustomThemeTimeout? ==> t.saveCustomThemeTimeout == Some(op.timeout)
    ensures op.IncrementSaveCount? ==> t.saveCount == s.saveCount + 1
    ensures op.DecrementSaveCount? ==> t.saveCount == (if s.saveCount >= 1 then s.saveCount - 1 else 0)
    ensures op.DecrementSaveCount? ==> t.saveCount <= s.saveCount || s.saveCount < 0
  {
    match op
    case SetEditor(e) => s.(editor := Some(e))
    case SetCurrentThemeName(n) => s.(currentThemeName := n)
    case SetIsUserTyping(b) => s.(isUserTyping := b)
    case SetIsCustomTheme(b) => s.(isCustomTheme := b)
    case IncrementSaveCount => s.(saveCount := s.saveCount + 1)
    case DecrementSaveCount => s.(saveCount := if s.saveCount - 1 < 0 then 0 else s.saveCount - 1)
    case SetSaveTimeout(h) => s.(saveTimeout := Some(h))
    case SetSaveCustomThemeTimeout(h) => s.(saveCustomThemeTimeout := Some(h))
  }

  /** Runs operations in order. */
  function Run(s: State, ops: seq<Op>): State
    decreases |ops|
  {
    if ops == [] then s else Run(Apply(s, ops[0]), ops[1..])
  }

  /** From a non-negative count, no run of setters makes it negative. */
  lemma {:induction false} NeverNegative(s: State, ops: seq<Op>)
    requires s.saveCount >= 0
    ensures Run(s, ops).saveCount >= 0
    decreases |ops|
  {
    if ops != [] {
      NeverNegative(Apply(s, ops[0]), ops[1..]);
    }
  }

  /** From the initial state, the save count is never negative. */
  lemma InitialNeverNegative(ops: seq<Op>)
    ensures Run(Initial, ops).saveCount >= 0
  {
    NeverNegative(Initial, ops);
  }

  /** A decrement right after an increment restores the state. */
  lemma DecrementUndoesIncrement(s: State)
    requires s.saveCount >= 0
    ensures Apply(Apply(s, IncrementSaveCount), DecrementSaveCount) == s
  {
  }

  /** Decrementing at zero stays at zero; otherwise it removes one. */
  lemma DecrementSaturates(s: State)
    ensures s.saveCount <= 0 ==> Apply(s, DecrementSaveCount).saveCount == 0
    ensures s.saveCount > 0 ==> Apply(s, DecrementSaveCount).saveCount == s.saveCount - 1
  {
  }

  function Repeat(op: Op, n: nat): (ops: seq<Op>)
    ensures |ops| == n && forall i :: 0 <= i < n ==> ops[i] == op
  {
    if n == 0 then [] else [op] + Repeat(op, n - 1)
  }

  /** `n` increments add `n`. */
  lemma {:induction false} Increments(s: State, n: nat)
    ensures Run(s, Repeat(IncrementSaveCount, n)).saveCount == s.saveCount + n
    decreases n
  {
    if n > 0 {
      Increments(Apply(s, IncrementSaveCount), n - 1);
    }
  }

  /** `n` decrements from a non-negative count remove `n`, but stop at
      zero. */
  lemma {:induction false} Decrements(s: State, n: nat)
    requires s.saveCount >= 0
    ensures Run(s, Repeat(DecrementSaveCount, n)).saveCount == if s.saveCount >= n then s.saveCount - n else 0
    decreases n
  {
    if n > 0 {
      Decrements(Apply(s, DecrementSaveCount), n - 1);
    }
  }

  /** A variable that no operation of a run targets keeps its value. */
  lemma {:induction false} RunFrame(s: State, ops: seq<Op>, f: Field)
    requires forall i :: 0 <= i < |ops| ==> Target(ops[i]) != f
    ensures SameOn(s, Run(s, ops), f)
    decreases |ops|
  {
    if ops != [] {
      var t := Apply(s, ops[0]);
      assert SameOn(s, t, f);
      RunFrame(t, ops[1..], f);
    }
  }
}
