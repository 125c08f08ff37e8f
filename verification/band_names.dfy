/** Recognising norm-table file names of the form `idade_Y-M-Y-M.csv` (age.py, the
    regular expression `^idade_(\d+)-(\d+)-(\d+)-(\d+)\.csv$` compiled case-insensitively). */
module BandNames {
  import opened Results

  /** The four captured digit groups: lower years, lower months, upper years, upper months. */
  datatype BandGroups = BandGroups(y1: string, m1: string, y2: string, m2: string)

  const Prefix: string := "idade_"
  const Extension: string := ".csv"

  predicate IsDigit(c: char) {
    '0' <= c <= '9'
  }

  /** A non-empty run of decimal digits, what `\d+` captures. */
  predicate DigitRun(s: string) {
    |s| > 0 && forall i :: 0 <= i < |s| ==> IsDigit(s[i])
  }

  function ToLower(c: char): char {
    if 'A' <= c <= 'Z' then (c as int + 32) as char else c
  }

  /** `s` equals the literal `lit` up to letter case. */
  predicate SameIgnoringCase(s: string, lit: string) {
    |s| == |lit| && forall i :: 0 <= i < |s| ==> ToLower(s[i]) == ToLower(lit[i])
  }

  function Body(g: BandGroups): string {
    g.y1 + "-" + g.m1 + "-" + g.y2 + "-" + g.m2
  }

  /** Reference reading of the pattern: `name` is the prefix, the four digit groups joined
      by dashes and the extension, optionally followed by one newline (Python's `$` also
      matches just before a final newline). */
  predicate Spells(name: string, g: BandGroups) {
    var n := |Body(g)|;
    && DigitRun(g.y1) && DigitRun(g.m1) && DigitRun(g.y2) && DigitRun(g.m2)
    && (|name| == n + 10 || (|name| == n + 11 && name[n + 10] == '\n'))
    && SameIgnoringCase(name[..6], Prefix)
    && name[6..n + 6] == Body(g)
    && SameIgnoringCase(name[n + 6..n + 10], Extension)
  }

  /** `parts` joined with `sep` between consecutive parts. */
  function Join(parts: seq<string>, sep: char): string
    requires |parts| >= 1
  {
    if |parts| == 1 then parts[0] else parts[0] + [sep] + Join(parts[1..], sep)
  }

  /** `s` cut at every occurrence of `sep`, like Python's `str.split(sep)`. */
  function Split(s: string, sep: char): (parts: seq<string>)
    ensures |parts| >= 1
    ensures forall i :: 0 <= i < |parts| ==> sep !in parts[i]
    ensures Join(parts, sep) == s
    decreases |s|
  {
    if |s| == 0 then [""]
    else
      var rest := Split(s[1..], sep);
      if s[0] == sep then
        assert s == [] + [sep] + Join(rest, sep);
        [""] + rest
      else
        var parts := [[s[0]] + rest[0]] + rest[1..];
        assert parts[1..] == rest[1..];
        assert s == [s[0]] + s[1..];
        parts
  }

  lemma {:induction false} SplitNoSeparator(a: string, sep: char)
    requires sep !in a
    ensures Split(a, sep) == [a]
    decreases |a|
  {
    if |a| > 0 {
      SplitNoSeparator(a[1..], sep);
      assert [a[0]] + a[1..] == a;
    }
  }

  lemma {:induction false} SplitAtFirstSeparator(a: string, sep: char, b: string)
    requires sep !in a
    ensures Split(a + [sep] + b, sep) == [a] + Split(b, sep)
    decreases |a|
  {
    var s := a + [sep] + b;
    if |a| == 0 {
      assert s[1..] == b;
    } else {
      assert s[1..] == a[1..] + [sep] + b;
      SplitAtFirstSeparator(a[1..], sep, b);
      assert [a[0]] + a[1..] == a;
    }
  }

  /** Splitting undoes joining of separator-free parts. */
  lemma {:induction false} SplitJoin(parts: seq<string>, sep: char)
    requires |parts| >= 1
    requires forall i :: 0 <= i < |parts| ==> sep !in parts[i]
    ensures Split(Join(parts, sep), sep) == parts
    decreases |parts|
  {
    if |parts| == 1 {
      SplitNoSeparator(parts[0], sep);
    } else {
      SplitJoin(parts[1..], sep);
      SplitAtFirstSeparator(parts[0], sep, Join(parts[1..], sep));
      assert [parts[0]] + parts[1..] == parts;
    }
  }

  /** The matcher: strip one final newline, check prefix and extension up to case, and
      require the middle to be exactly four digit runs separated by dashes. */
  function MatchName(name: string): Option<BandGroups> {
    var core := if |name| > 0 && name[|name| - 1] == '\n' then name[..|name| - 1] else name;
    if |core| < 10 then None
    else if !SameIgnoringCase(core[..6], Prefix) then None
    else if !SameIgnoringCase(core[|core| - 4..], Extension) then None
    else
      var parts := Split(core[6..|core| - 4], '-');
      if |parts| == 4 && DigitRun(parts[0]) && DigitRun(parts[1])
         && DigitRun(parts[2]) && DigitRun(parts[3])
      then Some(BandGroups(parts[0], parts[1], parts[2], parts[3]))
      else None
  }

  lemma BodyIsJoin(g: BandGroups)
    ensures Body(g) == Join([g.y1, g.m1, g.y2, g.m2], '-')
  {
    var ps := [g.y1, g.m1, g.y2, g.m2];
    assert ps[1..][1..][1..] == [g.m2];
    assert ps[1..][1..] == [g.y2, g.m2];
    assert ps[1..] == [g.m1, g.y2, g.m2];
    assert Join(ps[1..][1..], '-') == g.y2 + "-" + g.m2;
    assert Join(ps[1..], '-') == g.m1 + "-" + (g.y2 + "-" + g.m2);
    assert Join(ps, '-') == g.y1 + "-" + (g.m1 + "-" + (g.y2 + "-" + g.m2));
  }

  lemma DigitRunHasNoDash(s: string)
    requires DigitRun(s)
    ensures '-' !in s
  {
  }

  lemma SliceOfPrefix(s: string, k: int, i: int, j: int)
    requires 0 <= i <= j <= k <= |s|
    ensures s[..k][i..j] == s[i..j]
  {
  }

  /** Every name the matcher accepts spells the pattern with the groups it returns. */
  lemma {:induction false} MatchNameSound(name: string)
    requires MatchName(name).Some?
    ensures Spells(name, MatchName(name).value)
  {
    var core := if |name| > 0 && name[|name| - 1] == '\n' then name[..|name| - 1] else name;
    var mid := core[6..|core| - 4];
    var parts := Split(mid, '-');
    var g := MatchName(name).value;
    assert g == BandGroups(parts[0], parts[1], parts[2], parts[3]);
    BodyIsJoin(g);
    assert [g.y1, g.m1, g.y2, g.m2] == parts;
    assert Body(g) == mid;
    var n := |Body(g)|;
    assert |core| == n + 10;
    assert name[..|core|] == core;
    assert |name| == n + 10 || (|name| == n + 11 && name[n + 10] == '\n');
    SliceOfPrefix(name, |core|, 0, 6);
    assert mid == core[6..n + 6];
    SliceOfPrefix(name, |core|, 6, n + 6);
    SliceOfPrefix(name, |core|, n + 6, n + 10);
    assert DigitRun(g.y1) && DigitRun(g.m1) && DigitRun(g.y2) && DigitRun(g.m2);
  }

  /** Every name that spells the pattern is accepted, with exactly its groups. */
  lemma {:induction false} MatchNameComplete(name: string, g: BandGroups)
    requires Spells(name, g)
    ensures MatchName(name) == Some(g)
  {
    var n := |Body(g)|;
    var core := if |name| > 0 && name[|name| - 1] == '\n' then name[..|name| - 1] else name;
    SpelledCore(name, g);
    assert core == name[..n + 10];
    SliceOfPrefix(name, n + 10, 0, 6);
    SliceOfPrefix(name, n + 10, 6, n + 6);
    SliceOfPrefix(name, n + 10, n + 6, n + 10);
    assert core[..6] == name[..6];
    assert core[6..|core| - 4] == Body(g);
    assert core[|core| - 4..] == name[n + 6..n + 10];
    BodyIsJoin(g);
    DigitRunHasNoDash(g.y1);
    DigitRunHasNoDash(g.m1);
    DigitRunHasNoDash(g.y2);
    DigitRunHasNoDash(g.m2);
    SplitJoin([g.y1, g.m1, g.y2, g.m2], '-');
  }

  /** A spelled name without its optional final newline is its first `n + 10` characters: the
      extension ends in a letter, never in a newline. */
  lemma SpelledCore(name: string, g: BandGroups)
    requires Spells(name, g)
    ensures var core := if |name| > 0 && name[|name| - 1] == '\n' then name[..|name| - 1] else name;
      core == name[..|Body(g)| + 10]
  {
    var n := |Body(g)|;
    if |name| == n + 10 {
      assert name[n + 6..n + 10][3] == name[n + 9];
      assert ToLower(name[n + 9]) == 'v';
      assert name[..n + 10] == name;
    }
  }

  /** Decimal value of a digit run (Python's `int` on the captured group). */
  function DigitsValue(s: string): (v: nat)
    requires forall i :: 0 <= i < |s| ==> IsDigit(s[i])
    decreases |s|
  {
    if |s| == 0 then 0
    else
      assert IsDigit(s[|s| - 1]);
      DigitsValue(s[..|s| - 1]) * 10 + (s[|s| - 1] as int - '0' as int)
  }

  /** Worked example: a name in the pattern the builder's docstring gives (age.py:29). */
  lemma MatchExample()
    ensures MatchName("idade_6-8-6-11.csv") == Some(BandGroups("6", "8", "6", "11"))
  {
    var g := BandGroups("6", "8", "6", "11");
    var name := "idade_6-8-6-11.csv";
    assert Body(g) == "6-8-6-11";
    assert name[..6] == "idade_";
    assert name[6..14] == Body(g);
    assert name[14..18] == ".csv";
    MatchNameComplete(name, g);
  }

  /** The joined groups hold only digits and dashes. */
  lemma BodyCharacters(g: BandGroups)
    requires DigitRun(g.y1) && DigitRun(g.m1) && DigitRun(g.y2) && DigitRun(g.m2)
    ensures forall i :: 0 <= i < |Body(g)| ==> IsDigit(Body(g)[i]) || Body(g)[i] == '-'
  {
    var b := Body(g);
    var a1, a2, a3 := |g.y1|, |g.y1| + 1 + |g.m1|, |g.y1| + 1 + |g.m1| + 1 + |g.y2|;
    forall i | 0 <= i < |b|
      ensures IsDigit(b[i]) || b[i] == '-'
    {
      if i < a1 {
        assert b[i] == g.y1[i];
      } else if i == a1 || i == a2 || i == a3 {
      } else if i < a2 {
        assert b[i] == g.m1[i - a1 - 1];
      } else if i < a3 {
        assert b[i] == g.y2[i - a2 - 1];
      } else {
        assert b[i] == g.m2[i - a3 - 1];
      }
    }
  }

  /** Soundness stated for every name. */
  lemma MatchNameSpells(name: string)
    ensures MatchName(name).Some? ==> Spells(name, MatchName(name).value)
  {
    if MatchName(name).Some? {
      MatchNameSound(name);
    }
  }

  /** A name that joins the two halves with an underscore instead of a dash is not a band
      file name: no groups spell it. */
  lemma UnderscoreNameRejected()
    ensures MatchName("idade_6-8_6-11.csv").None?
  {
    var name := "idade_6-8_6-11.csv";
    forall g: BandGroups
      ensures !Spells(name, g)
    {
      if DigitRun(g.y1) && DigitRun(g.m1) && DigitRun(g.y2) && DigitRun(g.m2) {
        BodyCharacters(g);
        assert name[17] == 'v';
        if |Body(g)| == 8 {
          assert name[6..14][3] == '_';
        }
      }
    }
    MatchNameSpells(name);
  }
}
