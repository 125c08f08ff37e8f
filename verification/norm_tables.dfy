/** Age and norm-table selection as the scoring service does them (scoring.py,
    `calc_age_months` and `pick_norm_table`). */
module NormTables {
  import opened Results
  import Age
  import AgeBands

  /** The two fields of `dateutil.relativedelta` the service reads. The library itself is
      not modelled: callers supply it as a function of (later date, earlier date). */
  datatype RelativeDelta = RelativeDelta(years: int, months: int)

  datatype AgeInfo = AgeInfo(years: int, months: int, totalMonths: int)

  /** `calc_age_months(birth, test)`: the decomposition `relativedelta(test, birth)` and
      its total in months. */
  function CalcAgeMonths(birth: Age.Date, test: Age.Date,
                         relDelta: (Age.Date, Age.Date) -> RelativeDelta): (info: AgeInfo)
    ensures info.years == relDelta(test, birth).years
    ensures info.months == relDelta(test, birth).months
    ensures info.totalMonths == 12 * info.years + info.months
  {
    var rd := relDelta(test, birth);
    AgeInfo(rd.years, rd.months, rd.years * 12 + rd.months)
  }

  /** A registered norm table (`Wisc4NormTable`); the bounds are non-negative integer
      columns. */
  datatype NormTableRecord =
    NormTableRecord(key: string, minMonths: nat, maxMonths: nat, filePath: string, isActive: bool)

  datatype NormTableError = NoNormTable(ageMonths: int)

  /** The query's filter: active, with the age inside the inclusive range. */
  predicate Eligible(t: NormTableRecord, ageMonths: int) {
    t.isActive && t.minMonths <= ageMonths <= t.maxMonths
  }

  /** `pick_norm_table`: among eligible tables, one with the smallest `min_months`.
      The database leaves the order of equal `min_months` open; this model takes the
      earliest in registry order, and the contract promises only minimality. */
  function PickNormTable(ageMonths: int, tables: seq<NormTableRecord>): (r: Result<NormTableRecord, NormTableError>)
    ensures r.Err? <==> forall i :: 0 <= i < |tables| ==> !Eligible(tables[i], ageMonths)
    ensures r.Err? ==> r.error == NoNormTable(ageMonths)
    ensures r.Ok? ==> r.value in tables && Eligible(r.value, ageMonths)
    ensures r.Ok? ==> forall i :: 0 <= i < |tables| && Eligible(tables[i], ageMonths) ==>
                        r.value.minMonths <= tables[i].minMonths
  {
    if |tables| == 0 then Err(NoNormTable(ageMonths))
    else
      var rest := PickNormTable(ageMonths, tables[1..]);
      assert forall i :: 1 <= i < |tables| ==> tables[i] == tables[1..][i - 1];
      if Eligible(tables[0], ageMonths) && (rest.Err? || tables[0].minMonths <= rest.value.minMonths)
      then Ok(tables[0])
      else rest
  }

  /** A registered table seen as an age band of the file-based index. */
  function ToBand(t: NormTableRecord): AgeBands.AgeBand {
    AgeBands.AgeBand(t.filePath, t.minMonths, t.maxMonths)
  }

  function ToBands(tables: seq<NormTableRecord>): (bands: seq<AgeBands.AgeBand>)
    ensures |bands| == |tables|
    ensures forall i :: 0 <= i < |tables| ==> bands[i] == ToBand(tables[i])
  {
    seq(|tables|, i requires 0 <= i < |tables| => ToBand(tables[i]))
  }

  predicate SortedByMin(tables: seq<NormTableRecord>) {
    forall i, j :: 0 <= i < j < |tables| ==> tables[i].minMonths <= tables[j].minMonths
  }

  /** The two discovery strategies agree: on a registry of active tables listed by
      ascending `min_months`, the query picks exactly the table the first-match scan of
      age.py picks on the same ranges. */
  lemma {:induction false} PickNormTableIsFirstMatch(ageMonths: int, tables: seq<NormTableRecord>)
    requires forall i :: 0 <= i < |tables| ==> tables[i].isActive
    requires SortedByMin(tables)
    ensures match AgeBands.FirstContaining(ageMonths, ToBands(tables))
      case None => PickNormTable(ageMonths, tables).Err?
      case Some(i) => PickNormTable(ageMonths, tables) == Ok(tables[i])
  {
    if |tables| > 0 {
      assert ToBands(tables)[1..] == ToBands(tables[1..]);
      PickNormTableIsFirstMatch(ageMonths, tables[1..]);
    }
  }
}
