/** The age-band index of age.py: bands parsed from file names, validated, sorted by
    (min_months, max_months), and the inclusive first-match selection over them. */
module AgeBands {
  import opened Results
  import BandNames

  /** `AgeBand(file, min_months, max_months)`; the file is kept by name. */
  datatype AgeBand = AgeBand(file: string, minMonths: int, maxMonths: int)

  datatype IndexError =
    | InvertedRange(file: string)   // a matching file whose upper bound is below its lower bound
    | NoTablesFound                 // no file name matched the pattern

  datatype PickError = NoTableForAge(ageMonths: int)

  /** `_to_months(years, months)`. */
  function ToMonths(years: int, months: int): (total: int)
    ensures total == years * 12 + months
    ensures 0 <= months < 12 ==> total / 12 == years && total % 12 == months
    ensures years >= 0 && months >= 0 ==> total >= months
  {
    years * 12 + months
  }

  /** The band named by one directory entry, or None when the name does not match. */
  function ParseBand(name: string): (r: Option<AgeBand>)
    ensures r.Some? <==> BandNames.MatchName(name).Some?
    ensures r.Some? ==> r.value.file == name && r.value.minMonths >= 0 && r.value.maxMonths >= 0
    ensures r.Some? ==>
      var g := BandNames.MatchName(name).value;
      r.value.minMonths == ToMonths(BandNames.DigitsValue(g.y1), BandNames.DigitsValue(g.m1))
      && r.value.maxMonths == ToMonths(BandNames.DigitsValue(g.y2), BandNames.DigitsValue(g.m2))
  {
    match BandNames.MatchName(name)
    case None => None
    case Some(g) =>
      Some(AgeBand(name,
                   ToMonths(BandNames.DigitsValue(g.y1), BandNames.DigitsValue(g.m1)),
                   ToMonths(BandNames.DigitsValue(g.y2), BandNames.DigitsValue(g.m2))))
  }

  /** The bands of the matching names, in directory order; other names contribute nothing. */
  function ParsedBands(names: seq<string>): (bands: seq<AgeBand>)
    ensures |bands| <= |names|
    ensures forall b :: b in bands ==> exists name :: name in names && ParseBand(name) == Some(b)
    ensures forall name :: name in names && ParseBand(name).Some? ==> ParseBand(name).value in bands
  {
    if |names| == 0 then []
    else
      var rest := ParsedBands(names[1..]);
      assert forall name :: name in names[1..] ==> name in names;
      BandsOf(names[0]) + rest
  }

  /** The bands one name contributes: its own band, or nothing. */
  function BandsOf(name: string): (bs: seq<AgeBand>)
    ensures forall b :: b in bs <==> ParseBand(name) == Some(b)
  {
    match ParseBand(name)
    case None => []
    case Some(b) => [b]
  }

  /** One step of the parse: the head's contribution, then the rest. */
  lemma ParsedBandsCons(names: seq<string>)
    requires |names| > 0
    ensures ParsedBands(names) == BandsOf(names[0]) + ParsedBands(names[1..])
  {
  }

  /** Parsing a listing is parsing each name in turn and concatenating: order and multiplicity
      of the matching names are kept. */
  lemma {:induction false} ParsedBandsConcat(a: seq<string>, c: seq<string>)
    ensures ParsedBands(a + c) == ParsedBands(a) + ParsedBands(c)
    decreases |a|
  {
    if |a| == 0 {
      assert a + c == c;
    } else {
      ParsedBandsConsAppend(a, c);
      ParsedBandsConcat(a[1..], c);
      ParsedBandsCons(a);
      Reassociate(BandsOf(a[0]), ParsedBands(a[1..]), ParsedBands(c));
    }
  }

  lemma ParsedBandsConsAppend(a: seq<string>, c: seq<string>)
    requires |a| > 0
    ensures ParsedBands(a + c) == BandsOf(a[0]) + ParsedBands(a[1..] + c)
  {
    var ac := a + c;
    assert ac[0] == a[0];
    assert ac[1..] == a[1..] + c;
    ParsedBandsCons(ac);
  }

  lemma Reassociate(x: seq<AgeBand>, y: seq<AgeBand>, z: seq<AgeBand>)
    ensures x + (y + z) == (x + y) + z
  {
  }

  /** A single name contributes exactly its own band, if it has one. */
  lemma ParsedBandsSingle(name: string)
    ensures ParsedBands([name]) == BandsOf(name)
  {
    ParsedBandsCons([name]);
    assert [name][1..] == [];
  }

  predicate Inverted(b: AgeBand) {
    b.maxMonths < b.minMonths
  }

  /** The first inverted band in order, the one whose file the build reports. */
  function FirstInverted(bands: seq<AgeBand>): (r: Option<AgeBand>)
    ensures r.None? <==> forall i :: 0 <= i < |bands| ==> !Inverted(bands[i])
    ensures r.Some? ==> exists i :: 0 <= i < |bands| && bands[i] == r.value && Inverted(bands[i])
                          && forall j :: 0 <= j < i ==> !Inverted(bands[j])
  {
    if |bands| == 0 then None
    else if Inverted(bands[0]) then Some(bands[0])
    else
      var r := FirstInverted(bands[1..]);
      if r.Some? then
        var i :| 0 <= i < |bands[1..]| && bands[1..][i] == r.value && Inverted(bands[1..][i])
                 && forall j :: 0 <= j < i ==> !Inverted(bands[1..][j]);
        assert bands[i + 1] == r.value;
        r
      else r
  }

  /** Sort key order: lexicographic on (min_months, max_months). */
  predicate KeyLe(a: AgeBand, b: AgeBand) {
    a.minMonths < b.minMonths || (a.minMonths == b.minMonths && a.maxMonths <= b.maxMonths)
  }

  predicate Sorted(s: seq<AgeBand>) {
    forall i, j :: 0 <= i < j < |s| ==> KeyLe(s[i], s[j])
  }

  /** Insert `x` before the first element whose key is not below its own. */
  function Insert(x: AgeBand, s: seq<AgeBand>): (r: seq<AgeBand>)
    requires Sorted(s)
    ensures Sorted(r)
    ensures multiset(r) == multiset(s) + multiset{x}
    ensures |r| == |s| + 1
    ensures r[0] == x || (|s| > 0 && r[0] == s[0])
  {
    if |s| == 0 || KeyLe(x, s[0]) then [x] + s
    else
      var t := Insert(x, s[1..]);
      assert KeyLe(s[0], t[0]);
      var r := [s[0]] + t;
      assert forall k :: 1 <= k < |r| ==> r[k] == t[k - 1];
      ConsPermutation(s, t, x);
      r
  }

  /** Putting back the head in front of a permutation of the tail plus `x`. */
  lemma ConsPermutation(s: seq<AgeBand>, t: seq<AgeBand>, x: AgeBand)
    requires |s| > 0
    requires multiset(t) == multiset(s[1..]) + multiset{x}
    ensures multiset([s[0]] + t) == multiset(s) + multiset{x}
  {
    assert s == [s[0]] + s[1..];
  }

  /** Insertion sort by key; like Python's `list.sort` it is stable. */
  function SortBands(s: seq<AgeBand>): (r: seq<AgeBand>)
    ensures Sorted(r)
    ensures multiset(r) == multiset(s)
  {
    if |s| == 0 then []
    else
      assert s == [s[0]] + s[1..];
      Insert(s[0], SortBands(s[1..]))
  }

  /** The bands of `s` whose key is exactly (lo, hi), in order. */
  function WithKey(s: seq<AgeBand>, lo: int, hi: int): seq<AgeBand> {
    if |s| == 0 then []
    else (if s[0].minMonths == lo && s[0].maxMonths == hi then [s[0]] else []) + WithKey(s[1..], lo, hi)
  }

  lemma {:induction false} InsertWithKey(x: AgeBand, s: seq<AgeBand>, lo: int, hi: int)
    requires Sorted(s)
    ensures WithKey(Insert(x, s), lo, hi)
            == (if x.minMonths == lo && x.maxMonths == hi then [x] else []) + WithKey(s, lo, hi)
  {
    if |s| == 0 || KeyLe(x, s[0]) {
      assert ([x] + s)[1..] == s;
    } else {
      var t := Insert(x, s[1..]);
      assert ([s[0]] + t)[1..] == t;
      InsertWithKey(x, s[1..], lo, hi);
    }
  }

  /** Stability: sorting keeps the relative order of bands with equal keys. */
  lemma {:induction false} SortBandsStable(s: seq<AgeBand>, lo: int, hi: int)
    ensures WithKey(SortBands(s), lo, hi) == WithKey(s, lo, hi)
  {
    if |s| > 0 {
      SortBandsStable(s[1..], lo, hi);
      InsertWithKey(s[0], SortBands(s[1..]), lo, hi);
    }
  }

  /** `build_ageband_index` over the directory's file names, in directory order. */
  function BuildAgeBandIndex(names: seq<string>): (r: Result<seq<AgeBand>, IndexError>)
    ensures r.Err? <==> |ParsedBands(names)| == 0 || FirstInverted(ParsedBands(names)).Some?
    ensures r.Err? && r.error.InvertedRange? ==>
              FirstInverted(ParsedBands(names)).Some?
              && r.error.file == FirstInverted(ParsedBands(names)).value.file
    ensures r.Err? && r.error.NoTablesFound? ==> |ParsedBands(names)| == 0
    ensures r.Ok? ==> |r.value| > 0 && Sorted(r.value)
    ensures r.Ok? ==> forall i :: 0 <= i < |r.value| ==> r.value[i].minMonths <= r.value[i].maxMonths
    ensures r.Ok? ==> multiset(r.value) == multiset(ParsedBands(names))
  {
    var parsed := ParsedBands(names);
    match FirstInverted(parsed)
    case Some(b) => Err(InvertedRange(b.file))
    case None =>
      var sorted := SortBands(parsed);
      if |sorted| == 0 then Err(NoTablesFound)
      else
        assert forall i :: 0 <= i < |sorted| ==> sorted[i] in multiset(parsed);
        Ok(sorted)
  }

  predicate Contains(b: AgeBand, ageMonths: int) {
    b.minMonths <= ageMonths <= b.maxMonths
  }

  /** Position of the first band containing the age, scanning in order. */
  function FirstContaining(ageMonths: int, bands: seq<AgeBand>): (r: Option<nat>)
    ensures r.None? <==> forall j :: 0 <= j < |bands| ==> !Contains(bands[j], ageMonths)
    ensures r.Some? ==> r.value < |bands| && Contains(bands[r.value], ageMonths)
                        && forall j :: 0 <= j < r.value ==> !Contains(bands[j], ageMonths)
  {
    if |bands| == 0 then None
    else if Contains(bands[0], ageMonths) then Some(0)
    else
      match FirstContaining(ageMonths, bands[1..])
      case None => None
      case Some(i) => Some(i + 1)
  }

  /** `pick_table_for_age`: the file of the first band whose inclusive range holds the age. */
  function PickTableForAge(ageMonths: int, bands: seq<AgeBand>): (r: Result<string, PickError>)
    ensures r.Err? <==> forall j :: 0 <= j < |bands| ==> !Contains(bands[j], ageMonths)
    ensures r.Err? ==> r.error == NoTableForAge(ageMonths)
    ensures r.Ok? ==> exists i :: 0 <= i < |bands| && bands[i].file == r.value
                                 && Contains(bands[i], ageMonths)
                                 && forall j :: 0 <= j < i ==> !Contains(bands[j], ageMonths)
  {
    match FirstContaining(ageMonths, bands)
    case None => Err(NoTableForAge(ageMonths))
    case Some(i) => Ok(bands[i].file)
  }

  /** On a sorted index the first containing band has the least key, hence the smallest
      `min_months`, of all bands containing the age. */
  lemma {:induction false} FirstContainingOnSortedIsLeast(ageMonths: int, bands: seq<AgeBand>)
    requires Sorted(bands)
    requires FirstContaining(ageMonths, bands).Some?
    ensures var i := FirstContaining(ageMonths, bands).value;
      forall j :: 0 <= j < |bands| && Contains(bands[j], ageMonths) ==>
        KeyLe(bands[i], bands[j]) && bands[i].minMonths <= bands[j].minMonths
  {
    var i := FirstContaining(ageMonths, bands).value;
    forall j | 0 <= j < |bands| && Contains(bands[j], ageMonths)
      ensures KeyLe(bands[i], bands[j])
    {
      if j > i {
        assert KeyLe(bands[i], bands[j]);
      }
    }
  }

  /** Two sequences that are permutations of each other hold the same elements. */
  lemma SameElements(a: seq<AgeBand>, b: seq<AgeBand>)
    requires multiset(a) == multiset(b)
    ensures forall x :: x in a <==> x in b
  {
    forall x ensures x in a <==> x in b {
      assert x in a <==> x in multiset(a);
      assert x in b <==> x in multiset(b);
    }
  }

  /** End to end over a directory listing: selection on the built index fails exactly when no
      matching file's band holds the age, and otherwise picks a band of least key among those
      that do. */
  lemma {:induction false} PickFromIndex(names: seq<string>, ageMonths: int)
    requires BuildAgeBandIndex(names).Ok?
    ensures var index := BuildAgeBandIndex(names).value;
      PickTableForAge(ageMonths, index).Err? <==>
        forall b :: b in ParsedBands(names) ==> !Contains(b, ageMonths)
    ensures var index := BuildAgeBandIndex(names).value;
      FirstContaining(ageMonths, index).Some? ==>
        var chosen := index[FirstContaining(ageMonths, index).value];
        chosen in ParsedBands(names)
        && forall b :: b in ParsedBands(names) && Contains(b, ageMonths) ==> KeyLe(chosen, b)
  {
    PickFromSortedPermutation(ageMonths, ParsedBands(names), BuildAgeBandIndex(names).value);
  }

  /** Selection on a sorted permutation of a band list: fails exactly when no band of the list
      holds the age, and otherwise yields a band of the list of least key among those that do. */
  lemma PickFromSortedPermutation(ageMonths: int, parsed: seq<AgeBand>, index: seq<AgeBand>)
    requires Sorted(index) && multiset(index) == multiset(parsed)
    ensures PickTableForAge(ageMonths, index).Err? <==>
              forall b :: b in parsed ==> !Contains(b, ageMonths)
    ensures FirstContaining(ageMonths, index).Some? ==>
              var chosen := index[FirstContaining(ageMonths, index).value];
              chosen in parsed
              && forall b :: b in parsed && Contains(b, ageMonths) ==> KeyLe(chosen, b)
  {
    SameElements(parsed, index);
    if FirstContaining(ageMonths, index).Some? {
      FirstContainingOnSortedIsLeast(ageMonths, index);
      var i := FirstContaining(ageMonths, index).value;
      forall b | b in parsed && Contains(b, ageMonths)
        ensures KeyLe(index[i], b)
      {
        var j :| 0 <= j < |index| && index[j] == b;
      }
    }
  }
}
