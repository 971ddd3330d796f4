/** The default file name for exporting a theme: `blyrics-theme-`, the
    current time as an ISO-8601 string with `:` and `.` turned into `-`
    and its last five characters (milliseconds and zone) cut off, then
    `.css`. The clock is an input: the ISO string itself.
 */
module FileOperations {

  predicate IsSeparator(c: char) {
    c == ':' || c == '.'
  }

  /** `s.replace(/[:.]/g, "-")`. */
  function ReplaceSeparators(s: string): (r: string)
    ensures |r| == |s|
    ensures forall i :: 0 <= i < |s| ==> r[i] == if IsSeparator(s[i]) then '-' else s[i]
  {
    seq(|s|, i requires 0 <= i < |s| => if IsSeparator(s[i]) then '-' else s[i])
  }

  /** `s.slice(0, -5)`: all but the last five characters, or nothing. */
  function DropLastFive(s: string): (r: string)
    ensures |s| >= 5 ==> |r| == |s| - 5
    ensures |s| < 5 ==> r == []
    ensures r <= s
  {
    if |s| >= 5 then s[..|s| - 5] else []
  }

  const Prefix: string := "blyrics-theme-"
  const Suffix: string := ".css"

  /** `generateDefaultFilename`, given `date.toISOString()`. */
  function DefaultFilename(iso: string): (name: string)
    ensures Prefix <= name
    ensures |name| >= |Suffix| && name[|name| - |Suffix|..] == Suffix
  {
    var stamp := DropLastFive(ReplaceSeparators(iso));
    assert (Prefix + stamp + Suffix)[..|Prefix|] == Prefix;
    Prefix + stamp + Suffix
  }

  /** The time stamp part of the name. */
  function Stamp(name: string): string
    requires |name| >= |Prefix| + |Suffix|
  {
    name[|Prefix|..|name| - |Suffix|]
  }

  /** The stamp keeps every character of the ISO string but the last five
      in place, with each `:` and `.` turned into `-`; so it holds no `:`
      or `.`. */
  lemma StampShape(iso: string)
    ensures var name := DefaultFilename(iso);
            && |name| == |Prefix| + (if |iso| >= 5 then |iso| - 5 else 0) + |Suffix|
            && (forall i :: 0 <= i < |Stamp(name)| ==> !IsSeparator(Stamp(name)[i]))
            && (forall i :: 0 <= i < |Stamp(name)| && IsSeparator(iso[i]) ==> Stamp(name)[i] == '-')
            && (forall i :: 0 <= i < |Stamp(name)| && !IsSeparator(iso[i]) ==> Stamp(name)[i] == iso[i])
  {
    var stamp := DropLastFive(ReplaceSeparators(iso));
    var name := DefaultFilename(iso);
    assert Stamp(name) == stamp;
    forall i | 0 <= i < |stamp|
      ensures stamp[i] == ReplaceSeparators(iso)[i]
    {
    }
  }

  /** A full ISO string of 24 characters gives a 19-character stamp and a
      37-character name. */
  lemma IsoLength(iso: string)
    requires |iso| == 24
    ensures |Stamp(DefaultFilename(iso))| == 19
    ensures |DefaultFilename(iso)| == 37
  {
    StampShape(iso);
  }

  /** The name for 15 January 2024, 10:30:45.123 UTC. */
  lemma Example()
    ensures DefaultFilename("2024-01-15T10:30:45.123Z") == Prefix + "2024-01-15T10-30-45" + Suffix
  {
    var iso := "2024-01-15T10:30:45.123Z";
    var replaced := ReplaceSeparators(iso);
    var expected := "2024-01-15T10-30-45-123Z";
    forall i | 0 <= i < |iso|
      ensures replaced[i] == expected[i]
    {
    }
    assert replaced == expected;
    assert DropLastFive(replaced) == "2024-01-15T10-30-45";
  }
}
