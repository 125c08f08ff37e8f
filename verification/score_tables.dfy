/** Raw-to-scaled conversion over an already parsed norm table (scoring.py,
    `lookup_scaled_score`). A table is the list of rows a CSV dictionary reader yields;
    its layout (Wide or Long) is sniffed from the first row's column names. */
module ScoreTables {
  import opened Results

  /** One cell as the reader hands it over: `Missing` is the `None` of a short row; `Text`
      holds the cell's text and what Python's `int()` makes of it (None when it raises). */
  datatype Cell = Missing | Text(raw: string, asInt: Option<int>)

  type Row = map<string, Cell>

  datatype LookupError =
    | MissingColumn(column: string)                  // indexing a row by an absent column
    | NotAnInteger(column: string)                   // `int()` rejects the cell
    | MissingScaledScore(subtest: string, raw: int)  // Wide: the matched cell is absent or blank
    | NoConversion(subtest: string, raw: int)        // no layout produced a value

  const RawScoreColumn: string := "raw_score"
  const LongColumns: set<string> := {"subtest", "raw_min", "raw_max", "scaled"}

  /** `int(cell)`: an absent cell and the empty text never convert. */
  function IntOf(c: Cell): (v: Option<int>)
    ensures v.Some? ==> c.Text? && c.raw != ""
  {
    match c
    case Missing => None
    case Text(raw, n) => if raw == "" then None else n
  }

  /** `int(row[column])`. */
  function ParseField(r: Row, column: string): (res: Result<int, LookupError>)
    ensures res.Ok? <==> column in r && IntOf(r[column]).Some?
    ensures res.Ok? ==> IntOf(r[column]) == Some(res.value)
    ensures res.Err? && column !in r ==> res.error == MissingColumn(column)
    ensures res.Err? && column in r ==> res.error == NotAnInteger(column)
  {
    if column !in r then Err(MissingColumn(column))
    else match IntOf(r[column])
      case None => Err(NotAnInteger(column))
      case Some(v) => Ok(v)
  }

  function Headers(rows: seq<Row>): set<string> {
    if |rows| == 0 then {} else rows[0].Keys
  }

  predicate WideLayout(rows: seq<Row>, subtest: string) {
    RawScoreColumn in Headers(rows) && subtest in Headers(rows)
  }

  predicate LongLayout(rows: seq<Row>) {
    LongColumns <= Headers(rows)
  }

  // ---------------------------------------------------------------- Wide layout

  /** The row's raw score converts and equals `raw`. */
  predicate RawMatches(r: Row, raw: int) {
    RawScoreColumn in r && IntOf(r[RawScoreColumn]) == Some(raw)
  }

  /** The row's raw score converts and differs from `raw`. */
  predicate RawDiffers(r: Row, raw: int) {
    RawScoreColumn in r && IntOf(r[RawScoreColumn]).Some? && IntOf(r[RawScoreColumn]) != Some(raw)
  }

  /** Row `i` is the first whose raw score is `raw`, every earlier raw score converting. */
  predicate FirstWideMatch(rows: seq<Row>, raw: int, i: int) {
    && 0 <= i < |rows|
    && RawMatches(rows[i], raw)
    && forall j :: 0 <= j < i ==> RawDiffers(rows[j], raw)
  }

  /** Row `i` is the first whose raw score does not convert, every earlier one differing. */
  predicate FirstUnreadableRaw(rows: seq<Row>, raw: int, i: int) {
    && 0 <= i < |rows|
    && !(RawScoreColumn in rows[i] && IntOf(rows[i][RawScoreColumn]).Some?)
    && forall j :: 0 <= j < i ==> RawDiffers(rows[j], raw)
  }

  /** Reading the subtest's cell in the matched row: absent or blank is an error. */
  function WideCell(r: Row, subtest: string, raw: int): (res: Result<int, LookupError>)
    ensures res.Err? && res.error.MissingScaledScore? <==>
              subtest !in r || r[subtest] == Missing || r[subtest].raw == ""
    ensures res.Ok? ==> subtest in r && IntOf(r[subtest]) == Some(res.value)
    ensures res.Ok? <==> subtest in r && IntOf(r[subtest]).Some?
  {
    if subtest !in r || r[subtest] == Missing || r[subtest].raw == "" then
      Err(MissingScaledScore(subtest, raw))
    else match IntOf(r[subtest])
      case None => Err(NotAnInteger(subtest))
      case Some(v) => Ok(v)
  }

  function Found(res: Result<int, LookupError>): Result<Option<int>, LookupError> {
    match res
    case Ok(v) => Ok(Some(v))
    case Err(e) => Err(e)
  }

  /** The Wide loop: `Ok(None)` when every raw score converts and none equals `raw`, in
      which case the lookup goes on to the Long check. */
  function WideScan(rows: seq<Row>, subtest: string, raw: int): (res: Result<Option<int>, LookupError>)
    ensures res == Ok(None) <==> forall j :: 0 <= j < |rows| ==> RawDiffers(rows[j], raw)
    ensures forall i :: FirstWideMatch(rows, raw, i) ==> res == Found(WideCell(rows[i], subtest, raw))
    ensures res.Ok? && res.value.Some? ==>
              exists i :: FirstWideMatch(rows, raw, i) && WideCell(rows[i], subtest, raw) == Ok(res.value.value)
    ensures forall i :: FirstUnreadableRaw(rows, raw, i) ==>
              res.Err? && res.error == ParseField(rows[i], RawScoreColumn).error
    ensures ((forall i :: !FirstWideMatch(rows, raw, i))
             && !(forall j :: 0 <= j < |rows| ==> RawDiffers(rows[j], raw))) ==> res.Err?
  {
    if |rows| == 0 then Ok(None)
    else
      match ParseField(rows[0], RawScoreColumn)
      case Err(e) => Err(e)
      case Ok(v) =>
        if v == raw then Found(WideCell(rows[0], subtest, raw))
        else
          var rest := WideScan(rows[1..], subtest, raw);
          WideShift(rows, raw);
          rest
  }

  /** Past a first row whose raw score differs, the first match and the first unreadable raw
      score move down by one. */
  lemma WideShift(rows: seq<Row>, raw: int)
    requires |rows| > 0 && RawDiffers(rows[0], raw)
    ensures forall i :: FirstWideMatch(rows, raw, i) ==> i > 0 && FirstWideMatch(rows[1..], raw, i - 1)
    ensures forall i :: FirstWideMatch(rows[1..], raw, i) ==> FirstWideMatch(rows, raw, i + 1)
    ensures forall i :: FirstUnreadableRaw(rows, raw, i) ==> i > 0 && FirstUnreadableRaw(rows[1..], raw, i - 1)
  {
  }

  // ---------------------------------------------------------------- Long layout

  predicate SubtestIs(r: Row, subtest: string) {
    "subtest" in r && r["subtest"].Text? && r["subtest"].raw == subtest
  }

  /** The row is for `subtest` and its inclusive range [raw_min, raw_max] holds `raw`. */
  predicate LongHit(r: Row, subtest: string, raw: int) {
    && SubtestIs(r, subtest)
    && "raw_min" in r && "raw_max" in r
    && IntOf(r["raw_min"]).Some? && IntOf(r["raw_max"]).Some?
    && IntOf(r["raw_min"]).value <= raw <= IntOf(r["raw_max"]).value
  }

  /** The loop passes over the row without error and without returning. */
  predicate LongSkip(r: Row, subtest: string, raw: int) {
    && "subtest" in r
    && (!SubtestIs(r, subtest)
        || ("raw_min" in r && "raw_max" in r
            && IntOf(r["raw_min"]).Some? && IntOf(r["raw_max"]).Some?
            && !(IntOf(r["raw_min"]).value <= raw <= IntOf(r["raw_max"]).value)))
  }

  predicate FirstLongHit(rows: seq<Row>, subtest: string, raw: int, i: int) {
    && 0 <= i < |rows|
    && LongHit(rows[i], subtest, raw)
    && forall j :: 0 <= j < i ==> LongSkip(rows[j], subtest, raw)
  }

  /** What the loop raises on a row it can neither pass over nor return from. */
  function LongFault(r: Row): LookupError {
    if "subtest" !in r then MissingColumn("subtest")
    else if "raw_min" !in r then MissingColumn("raw_min")
    else if IntOf(r["raw_min"]).None? then NotAnInteger("raw_min")
    else if "raw_max" !in r then MissingColumn("raw_max")
    else NotAnInteger("raw_max")
  }

  /** Row `i` is the first the loop neither passes over nor returns from. */
  predicate FirstLongFault(rows: seq<Row>, subtest: string, raw: int, i: int) {
    && 0 <= i < |rows|
    && !LongSkip(rows[i], subtest, raw) && !LongHit(rows[i], subtest, raw)
    && forall j :: 0 <= j < i ==> LongSkip(rows[j], subtest, raw)
  }

  /** The Long loop: `Ok(None)` when it passes over every row. */
  function LongScan(rows: seq<Row>, subtest: string, raw: int): (res: Result<Option<int>, LookupError>)
    ensures res == Ok(None) <==> forall j :: 0 <= j < |rows| ==> LongSkip(rows[j], subtest, raw)
    ensures forall i :: FirstLongHit(rows, subtest, raw, i) ==> res == Found(ParseField(rows[i], "scaled"))
    ensures res.Ok? && res.value.Some? ==>
              exists i :: FirstLongHit(rows, subtest, raw, i) && ParseField(rows[i], "scaled") == Ok(res.value.value)
    ensures forall i :: FirstLongFault(rows, subtest, raw, i) ==> res == Err(LongFault(rows[i]))
    ensures ((forall i :: !FirstLongHit(rows, subtest, raw, i))
             && !(forall j :: 0 <= j < |rows| ==> LongSkip(rows[j], subtest, raw))) ==> res.Err?
    decreases |rows|, 1
  {
    if |rows| == 0 then Ok(None)
    else
      var r := rows[0];
      if "subtest" !in r then Err(MissingColumn("subtest"))
      else if SubtestIs(r, subtest) then
        match ParseField(r, "raw_min")
        case Err(e) => Err(e)
        case Ok(mn) =>
          match ParseField(r, "raw_max")
          case Err(e) => Err(e)
          case Ok(mx) =>
            if mn <= raw <= mx then Found(ParseField(r, "scaled"))
            else LongScanRest(rows, subtest, raw)
      else LongScanRest(rows, subtest, raw)
  }

  /** The Long loop after passing over the first row. */
  function LongScanRest(rows: seq<Row>, subtest: string, raw: int): (res: Result<Option<int>, LookupError>)
    requires |rows| > 0 && LongSkip(rows[0], subtest, raw)
    ensures res == Ok(None) <==> forall j :: 0 <= j < |rows| ==> LongSkip(rows[j], subtest, raw)
    ensures forall i :: FirstLongHit(rows, subtest, raw, i) ==> res == Found(ParseField(rows[i], "scaled"))
    ensures res.Ok? && res.value.Some? ==>
              exists i :: FirstLongHit(rows, subtest, raw, i) && ParseField(rows[i], "scaled") == Ok(res.value.value)
    ensures forall i :: FirstLongFault(rows, subtest, raw, i) ==> res == Err(LongFault(rows[i]))
    ensures ((forall i :: !FirstLongHit(rows, subtest, raw, i))
             && !(forall j :: 0 <= j < |rows| ==> LongSkip(rows[j], subtest, raw))) ==> res.Err?
    decreases |rows|, 0
  {
    var rest := LongScan(rows[1..], subtest, raw);
    LongShift(rows, subtest, raw);
    rest
  }

  /** Past a skipped first row, the first hit and the first fault move down by one. */
  lemma LongShift(rows: seq<Row>, subtest: string, raw: int)
    requires |rows| > 0 && LongSkip(rows[0], subtest, raw)
    ensures forall i :: FirstLongHit(rows, subtest, raw, i) ==> i > 0 && FirstLongHit(rows[1..], subtest, raw, i - 1)
    ensures forall i :: FirstLongHit(rows[1..], subtest, raw, i) ==> FirstLongHit(rows, subtest, raw, i + 1)
    ensures forall i :: FirstLongFault(rows, subtest, raw, i) ==> i > 0 && FirstLongFault(rows[1..], subtest, raw, i - 1)
    ensures forall i :: FirstLongFault(rows[1..], subtest, raw, i) ==> FirstLongFault(rows, subtest, raw, i + 1)
  {
  }

  // ---------------------------------------------------------------- The lookup

  /** `lookup_scaled_score(rows, subtest, raw)`. */
  function LookupScaledScore(rows: seq<Row>, subtest: string, raw: int): (res: Result<int, LookupError>)
    // an empty table, or a first row fitting neither layout, cannot convert anything
    ensures |rows| == 0 ==> res == Err(NoConversion(subtest, raw))
    ensures !WideLayout(rows, subtest) && !LongLayout(rows) ==> res == Err(NoConversion(subtest, raw))
    // Wide: the first row with the raw score decides, and a blank cell there is an error
    ensures WideLayout(rows, subtest) ==>
              forall i :: FirstWideMatch(rows, raw, i) ==> res == WideCell(rows[i], subtest, raw)
    // a Wide table without the raw score falls through to the Long check
    ensures (WideLayout(rows, subtest) && !LongLayout(rows)
             && forall j :: 0 <= j < |rows| ==> RawDiffers(rows[j], raw))
            ==> res == Err(NoConversion(subtest, raw))
    // Long: the first row of the subtest whose inclusive range holds the raw score decides
    ensures (LongLayout(rows)
             && (!WideLayout(rows, subtest) || forall j :: 0 <= j < |rows| ==> RawDiffers(rows[j], raw)))
            ==> (&& (forall i :: FirstLongHit(rows, subtest, raw, i) ==> res == ParseField(rows[i], "scaled"))
                 && ((forall j :: 0 <= j < |rows| ==> LongSkip(rows[j], subtest, raw))
                     ==> res == Err(NoConversion(subtest, raw))))
    // Wide: the first raw score that does not convert raises, and a Wide table that neither
    // holds the raw score nor converts every raw score fails
    ensures WideLayout(rows, subtest) ==>
              forall i :: FirstUnreadableRaw(rows, raw, i) ==> res == ParseField(rows[i], RawScoreColumn)
    ensures (WideLayout(rows, subtest) && (forall i :: !FirstWideMatch(rows, raw, i))
             && !(forall j :: 0 <= j < |rows| ==> RawDiffers(rows[j], raw))) ==> res.Err?
    // Long: likewise, the first row the loop cannot read raises
    ensures (LongLayout(rows)
             && (!WideLayout(rows, subtest) || forall j :: 0 <= j < |rows| ==> RawDiffers(rows[j], raw)))
            ==> (&& (forall i :: FirstLongFault(rows, subtest, raw, i) ==> res == Err(LongFault(rows[i])))
                 && (((forall i :: !FirstLongHit(rows, subtest, raw, i))
                      && !(forall j :: 0 <= j < |rows| ==> LongSkip(rows[j], subtest, raw))) ==> res.Err?))
    // every value returned comes from a matching row of one of the two layouts
    ensures res.Ok? ==>
              || (WideLayout(rows, subtest)
                  && exists i :: FirstWideMatch(rows, raw, i) && WideCell(rows[i], subtest, raw) == Ok(res.value))
              || (LongLayout(rows)
                  && exists i :: FirstLongHit(rows, subtest, raw, i) && ParseField(rows[i], "scaled") == Ok(res.value))
  {
    var wide := if WideLayout(rows, subtest) then WideScan(rows, subtest, raw) else Ok(None);
    match wide
    case Err(e) => Err(e)
    case Ok(Some(v)) => Ok(v)
    case Ok(None) =>
      var long := if LongLayout(rows) then LongScan(rows, subtest, raw) else Ok(None);
      match long
      case Err(e) => Err(e)
      case Ok(Some(v)) => Ok(v)
      case Ok(None) => Err(NoConversion(subtest, raw))
  }

  /** A one-row Long table for `subtest` over [lo, hi]: both bounds convert, the values
      just outside do not. */
  lemma LongBoundsAreInclusive(subtest: string, minCell: Cell, maxCell: Cell, scaledCell: Cell,
                               lo: int, hi: int, v: int)
    requires IntOf(minCell) == Some(lo) && IntOf(maxCell) == Some(hi) && IntOf(scaledCell) == Some(v)
    requires lo <= hi
    ensures var rows := [map["subtest" := Text(subtest, None), "raw_min" := minCell,
                             "raw_max" := maxCell, "scaled" := scaledCell]];
            && LookupScaledScore(rows, subtest, lo) == Ok(v)
            && LookupScaledScore(rows, subtest, hi) == Ok(v)
            && LookupScaledScore(rows, subtest, lo - 1) == Err(NoConversion(subtest, lo - 1))
            && LookupScaledScore(rows, subtest, hi + 1) == Err(NoConversion(subtest, hi + 1))
  {
    var rows := [map["subtest" := Text(subtest, None), "raw_min" := minCell,
                     "raw_max" := maxCell, "scaled" := scaledCell]];
    assert Headers(rows) == LongColumns;
    assert FirstLongHit(rows, subtest, lo, 0);
    assert FirstLongHit(rows, subtest, hi, 0);
    assert LongSkip(rows[0], subtest, lo - 1);
    assert LongSkip(rows[0], subtest, hi + 1);
  }

  /** Wide: a blank cell in the first row with the raw score is an error even when a later
      row with the same raw score has a value. */
  lemma WideBlankCellStopsLookup(subtest: string, rawCell: Cell, blank: Cell, later: seq<Row>, raw: int)
    requires subtest != RawScoreColumn
    requires IntOf(rawCell) == Some(raw)
    requires blank == Missing || blank.raw == ""
    ensures LookupScaledScore([map[RawScoreColumn := rawCell, subtest := blank]] + later, subtest, raw)
            == Err(MissingScaledScore(subtest, raw))
  {
    var rows := [map[RawScoreColumn := rawCell, subtest := blank]] + later;
    assert WideLayout(rows, subtest);
    assert FirstWideMatch(rows, raw, 0);
  }
}
