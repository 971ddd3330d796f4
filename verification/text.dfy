/** String helpers that the modelled TypeScript takes from the JavaScript
    runtime: the `\s` character class and `String.prototype.trim`,
    `includes`, `split` on one character, and `String(n)` for integers.
 */
module Text {

  /** The characters JavaScript's `\s` and `trim` treat as white space
      (WhiteSpace and LineTerminator of ECMA-262). */
  const Whitespace: set<char> :=
    {'\t', '\n', '\U{000B}', '\U{000C}', '\r', ' ', '\U{00A0}', '\U{1680}',
     '\U{2000}', '\U{2001}', '\U{2002}', '\U{2003}', '\U{2004}', '\U{2005}',
     '\U{2006}', '\U{2007}', '\U{2008}', '\U{2009}', '\U{200A}',
     '\U{2028}', '\U{2029}', '\U{202F}', '\U{205F}', '\U{3000}', '\U{FEFF}'}

  predicate IsWhitespace(c: char) {
    c in Whitespace
  }

  predicate AllWhitespace(s: string) {
    forall i :: 0 <= i < |s| ==> IsWhitespace(s[i])
  }

  /** `s` neither starts nor ends with white space. */
  predicate IsTrimmed(s: string) {
    s == [] || (!IsWhitespace(s[0]) && !IsWhitespace(s[|s| - 1]))
  }

  /** The index of the first character at or after `i` that is not white
      space, or `|s|`. */
  function SkipStart(s: string, i: nat): (k: nat)
    requires i <= |s|
    ensures i <= k <= |s|
    ensures forall j :: i <= j < k ==> IsWhitespace(s[j])
    ensures k < |s| ==> !IsWhitespace(s[k])
    decreases |s| - i
  {
    if i < |s| && IsWhitespace(s[i]) then SkipStart(s, i + 1) else i
  }

  /** The end of `s[lo..e]` once its trailing white space is dropped. */
  function SkipEnd(s: string, lo: nat, e: nat): (k: nat)
    requires lo <= e <= |s|
    ensures lo <= k <= e
    ensures forall j :: k <= j < e ==> IsWhitespace(s[j])
    ensures k > lo ==> !IsWhitespace(s[k - 1])
    decreases e
  {
    if e > lo && IsWhitespace(s[e - 1]) then SkipEnd(s, lo, e - 1) else e
  }

  /** `String.prototype.trim`: what is left of `s` once the white space at
      both ends is removed, and nothing else. */
  function Trim(s: string): (r: string)
    ensures IsTrimmed(r)
    ensures exists lo, hi :: 0 <= lo <= hi <= |s| && r == s[lo..hi]
              && (forall j :: 0 <= j < lo ==> IsWhitespace(s[j]))
              && (forall j :: hi <= j < |s| ==> IsWhitespace(s[j]))
  {
    var lo := SkipStart(s, 0);
    var hi := SkipEnd(s, lo, |s|);
    assert hi > lo ==> s[lo..hi][0] == s[lo] && s[lo..hi][hi - lo - 1] == s[hi - 1];
    s[lo..hi]
  }

  lemma TrimOfTrimmed(s: string)
    requires IsTrimmed(s)
    ensures Trim(s) == s
  {
  }

  lemma TrimIdempotent(s: string)
    ensures Trim(Trim(s)) == Trim(s)
  {
    TrimOfTrimmed(Trim(s));
  }

  /** `sub` occurs in `s` starting at offset `i`. */
  predicate OccursAt(s: string, sub: string, i: nat) {
    i + |sub| <= |s| && s[i..i + |sub|] == sub
  }

  /** `s.includes(sub)`: `sub` occurs in `s` at some offset. */
  function Contains(s: string, sub: string): (r: bool)
    ensures r <==> exists i: nat :: OccursAt(s, sub, i)
  {
    ContainsFrom(s, sub, 0)
  }

  function ContainsFrom(s: string, sub: string, from: nat): (r: bool)
    ensures r <==> exists i: nat :: from <= i && OccursAt(s, sub, i)
    decreases |s| - from
  {
    if from + |sub| > |s| then false
    else OccursAt(s, sub, from) || ContainsFrom(s, sub, from + 1)
  }

  /** `parts.join(sep)`. */
  function Join(parts: seq<string>, sep: char): string
    requires |parts| >= 1
  {
    if |parts| == 1 then parts[0] else parts[0] + [sep] + Join(parts[1..], sep)
  }

  /** `s.split(sep)` for a one-character separator: the maximal runs of
      characters other than `sep`, empty runs included. */
  function Split(s: string, sep: char): (parts: seq<string>)
    ensures |parts| >= 1
    ensures forall i :: 0 <= i < |parts| ==> sep !in parts[i]
  {
    if |s| == 0 then [""]
    else
      var rest := Split(s[1..], sep);
      if s[0] == sep then [""] + rest
      else [[s[0]] + rest[0]] + rest[1..]
  }

  /** Splitting and re-joining on the same separator gives back the
      original string. */
  lemma {:induction false} JoinSplit(s: string, sep: char)
    ensures Join(Split(s, sep), sep) == s
    decreases |s|
  {
    if |s| > 0 {
      var rest := Split(s[1..], sep);
      JoinSplit(s[1..], sep);
      if s[0] == sep {
        assert ([""] + rest)[1..] == rest;
      } else {
        JoinConsFirst(s[0], rest, sep);
      }
    }
  }

  lemma JoinConsFirst(c: char, parts: seq<string>, sep: char)
    requires |parts| >= 1
    ensures Join([[c] + parts[0]] + parts[1..], sep) == [c] + Join(parts, sep)
  {
    var q := [[c] + parts[0]] + parts[1..];
    if |parts| > 1 {
      assert q[1..] == parts[1..];
    }
  }

  /** The offset in `Join(parts, sep)` at which part `l` starts: the lengths
      of the parts before it, one separator each. */
  function PartOffset(parts: seq<string>, l: nat): (offset: nat)
    requires l <= |parts|
    ensures l > 0 ==> offset >= l
  {
    if l == 0 then 0 else PartOffset(parts, l - 1) + |parts[l - 1]| + 1
  }

  /** Part `l` of a joined string sits at `PartOffset(parts, l)`. */
  lemma {:induction false} JoinIndex(parts: seq<string>, sep: char, l: nat, c: nat)
    requires l < |parts| && c < |parts[l]|
    ensures PartOffset(parts, l) + c < |Join(parts, sep)|
    ensures Join(parts, sep)[PartOffset(parts, l) + c] == parts[l][c]
    decreases l
  {
    if l > 0 {
      JoinIndex(parts[1..], sep, l - 1, c);
      PartOffsetTail(parts, l);
    }
  }

  /** The end of part `l` of a joined string: the end of the string for
      the last part, a separator for every other part. */
  lemma {:induction false} JoinPartEnd(parts: seq<string>, sep: char, l: nat)
    requires l < |parts|
    ensures l == |parts| - 1 ==> PartOffset(parts, l) + |parts[l]| == |Join(parts, sep)|
    ensures l < |parts| - 1 ==> PartOffset(parts, l) + |parts[l]| < |Join(parts, sep)|
                                && Join(parts, sep)[PartOffset(parts, l) + |parts[l]|] == sep
    decreases l
  {
    if l > 0 {
      JoinPartEnd(parts[1..], sep, l - 1);
      PartOffsetTail(parts, l);
    }
  }

  /** Past the last part, the offset is one more than the joined length,
      as if a separator followed the last part. */
  lemma {:induction false} PartOffsetPastEnd(parts: seq<string>, sep: char)
    requires |parts| >= 1
    ensures PartOffset(parts, |parts|) == |Join(parts, sep)| + 1
  {
    JoinPartEnd(parts, sep, |parts| - 1);
  }

  lemma {:induction false} PartOffsetTail(parts: seq<string>, l: nat)
    requires 0 < l <= |parts|
    ensures PartOffset(parts, l) == |parts[0]| + 1 + PartOffset(parts[1..], l - 1)
    decreases l
  {
    if l > 1 {
      PartOffsetTail(parts, l - 1);
    }
  }

  // ---------------------------------------------------------------------
  // Decimal rendering of integers, as `String(n)` does for safe integers.

  function DigitChar(d: nat): (c: char)
    requires d < 10
    ensures '0' <= c <= '9' && c as int - '0' as int == d
  {
    ('0' as int + d) as char
  }

  predicate IsDigit(c: char) {
    '0' <= c <= '9'
  }

  /** The value of a string of decimal digits (0 for the empty string). */
  function DigitsValue(s: string): nat
    requires forall i :: 0 <= i < |s| ==> IsDigit(s[i])
  {
    if s == [] then 0
    else
      assert IsDigit(s[|s| - 1]);
      10 * DigitsValue(s[..|s| - 1]) + (s[|s| - 1] as int - '0' as int)
  }

  function NatToString(n: nat): (s: string)
    ensures |s| >= 1
    ensures forall i :: 0 <= i < |s| ==> IsDigit(s[i])
  {
    if n < 10 then [DigitChar(n)] else NatToString(n / 10) + [DigitChar(n % 10)]
  }

  /** `String(n)` for an integer `n`: an optional minus sign, then digits. */
  function IntToString(n: int): (s: string)
    ensures |s| >= 1
  {
    if n < 0 then "-" + NatToString(-n) else NatToString(n)
  }

  /** Decimal rendering is exact: reading the digits back gives `n`, and
      there is no superfluous leading zero. */
  lemma {:induction false} NatToStringValue(n: nat)
    ensures DigitsValue(NatToString(n)) == n
    ensures |NatToString(n)| > 1 ==> NatToString(n)[0] != '0'
  {
    if n >= 10 {
      var t := NatToString(n / 10);
      var s := t + [DigitChar(n % 10)];
      NatToStringValue(n / 10);
      assert s[..|s| - 1] == t;
      assert DigitsValue(s) == 10 * DigitsValue(t) + n % 10;
    }
  }

  /** Only negative numbers render with a leading minus sign. */
  lemma IntToStringSign(n: int)
    ensures IntToString(n)[0] == '-' <==> n < 0
  {
    if n >= 0 {
      assert IsDigit(NatToString(n)[0]);
    }
  }

  /** Distinct natural numbers render differently. */
  lemma NatToStringInjective(a: nat, b: nat)
    requires NatToString(a) == NatToString(b)
    ensures a == b
  {
    NatToStringValue(a);
    NatToStringValue(b);
  }

  /** Distinct integers render differently. */
  lemma IntToStringInjective(a: int, b: int)
    requires IntToString(a) == IntToString(b)
    ensures a == b
  {
    IntToStringSign(a);
    IntToStringSign(b);
    if a < 0 {
      assert ("-" + NatToString(-a))[1..] == NatToString(-a);
      assert ("-" + NatToString(-b))[1..] == NatToString(-b);
      NatToStringInjective(-a, -b);
    } else {
      NatToStringInjective(a, b);
    }
  }
}
