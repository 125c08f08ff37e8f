/** A worked example of scoring on a small store: one WISC-IV session of a child born on
    2016-01-10 and assessed on 2023-03-10, the nine required raw scores, one registered table
    for 84..89 months and a one-row Wide table that converts raw score 10 to scaled score 9. */
module WorkedExample {
  import opened Results
  import Age
  import NormTables
  import ScoreTables
  import Composites
  import opened Pipeline

  const Birth := Age.Date(2016, 1, 10)
  const Tested := Age.Date(2023, 3, 10)
  const TablePath := "idade_7-0-7-5.csv"

  /** `relativedelta(test, birth)` for dates whose day of month needs no clamping. */
  const Delta: (Age.Date, Age.Date) -> NormTables.RelativeDelta :=
    (test: Age.Date, birth: Age.Date) =>
      var m := 12 * (test.year - birth.year) + test.month - birth.month
               - (if test.day < birth.day then 1 else 0);
      NormTables.RelativeDelta(m / 12, m % 12)

  const ExpectedSums: map<string, int> := map["ICV" := 27, "IOP" := 18, "IMO" := 18, "IVP" := 18]

  /** A converter that knows exactly one set of sums. */
  const Convert: Composites.Converter :=
    (sums: map<string, int>) =>
      if sums == ExpectedSums
      then Ok(map["ICV" := 92, "IOP" := 94, "IMO" := 94, "IVP" := 94, "QIT" := 91])
      else Err(Composites.ConversionUnavailable)

  const Row: ScoreTables.Row :=
    map[ScoreTables.RawScoreColumn := ScoreTables.Text("10", Some(10)),
        "SEMELHANCAS" := ScoreTables.Text("9", Some(9)),
        "VOCABULARIO" := ScoreTables.Text("9", Some(9)),
        "COMPREENSAO" := ScoreTables.Text("9", Some(9)),
        "CUBOS" := ScoreTables.Text("9", Some(9)),
        "CONCEITOS" := ScoreTables.Text("9", Some(9)),
        "DIGITOS" := ScoreTables.Text("9", Some(9)),
        "SEQ_NUM_LETRAS" := ScoreTables.Text("9", Some(9)),
        "CODIGO" := ScoreTables.Text("9", Some(9)),
        "PROCURAR_SIMBOLOS" := ScoreTables.Text("9", Some(9))]

  function Raws(): (raws: seq<RawScore>)
    ensures |raws| == 9
    ensures forall j :: 0 <= j < 9 ==> raws[j] == RawScore(1, Composites.RequiredSubtests[j], 10, None)
  {
    seq(9, j requires 0 <= j < 9 => RawScore(1, Composites.RequiredSubtests[j], 10, None))
  }

  function ExampleStore(): Store {
    Store(map[1 := Session(Birth, Wisc4, Tested, Draft)],
          Raws(),
          map[],
          [NormTables.NormTableRecord("wisc4_84_89", 84, 89, TablePath, true)],
          map[TablePath := [Row]])
  }

  /** Each required subtest's raw score 10 converts to 9. */
  lemma RowConverts(subtest: string)
    requires subtest in Composites.RequiredSubtests
    ensures ScoreTables.LookupScaledScore([Row], subtest, 10) == Ok(9)
  {
    assert ScoreTables.WideLayout([Row], subtest);
    assert ScoreTables.FirstWideMatch([Row], 10, 0);
  }

  /** The collected scaled scores are 9 for every required subtest. */
  lemma CollectedNines()
    ensures forall j :: 0 <= j < 9 ==>
              var scaled := Collected([Row], Raws(), 1, map[]);
              Composites.RequiredSubtests[j] in scaled && scaled[Composites.RequiredSubtests[j]] == 9
  {
    var raws := Raws();
    var r := Composites.RequiredSubtests;
    forall j | 0 <= j < 9
      ensures r[j] in Collected([Row], raws, 1, map[]) && Collected([Row], raws, 1, map[])[r[j]] == 9
    {
      RowConverts(r[j]);
      assert forall k :: j < k < 9 ==> r[k] != r[j];
      CollectedLastWins([Row], raws, 1, map[], j);
    }
  }

  /** Nine scores of 9 sum to 27, 18, 18 and 18. */
  lemma SumsOfNines(scaled: map<string, int>)
    requires forall j :: 0 <= j < 9 ==>
               Composites.RequiredSubtests[j] in scaled && scaled[Composites.RequiredSubtests[j]] == 9
    ensures Composites.ComputeIndexSums(scaled) == Ok(ExpectedSums)
  {
    var r := Composites.RequiredSubtests;
    assert scaled[r[0]] == 9 && scaled[r[1]] == 9 && scaled[r[2]] == 9 && scaled[r[3]] == 9;
    assert scaled[r[4]] == 9 && scaled[r[5]] == 9 && scaled[r[6]] == 9 && scaled[r[7]] == 9;
    assert scaled[r[8]] == 9;
    Composites.GroupSumsOfRequired(scaled);
    var sums := Composites.ComputeIndexSums(scaled);
    assert sums.value.Keys == ExpectedSums.Keys;
  }

  lemma ExampleSums()
    ensures Composites.ComputeIndexSums(Collected([Row], Raws(), 1, map[])) == Ok(ExpectedSums)
  {
    CollectedNines();
    SumsOfNines(Collected([Row], Raws(), 1, map[]));
  }

  /** The session is 86 months old and the registered table covers that age. */
  lemma ExampleTable()
    ensures NormTables.CalcAgeMonths(Birth, Tested, Delta).totalMonths == 86
    ensures NormTables.PickNormTable(86, ExampleStore().normTables)
            == Ok(NormTables.NormTableRecord("wisc4_84_89", 84, 89, TablePath, true))
  {
  }

  /** Every raw score of the session converts, and the composites can be formed. */
  lemma ExampleItems()
    ensures forall j :: 0 <= j < |ExampleStore().rawScores| && ExampleStore().rawScores[j].session == 1 ==>
              LooksUp([Row], ExampleStore().rawScores[j])
    ensures Compose(Collected([Row], ExampleStore().rawScores, 1, map[]), Convert) == Ok((92, 94, 94, 94, 91))
  {
    var raws := ExampleStore().rawScores;
    forall j | 0 <= j < |raws| && raws[j].session == 1
      ensures LooksUp([Row], raws[j])
    {
      RowConverts(Composites.RequiredSubtests[j]);
    }
    ExampleSums();
  }

  lemma ExampleScorable()
    ensures Scorable(ExampleStore(), 1, Delta, Convert)
  {
    ExampleTable();
    ExampleItems();
    assert ExampleStore().rawScores[0].session == 1;
  }

  /** Scoring succeeds: age 86 months, the registered table, and the converter's composites;
      the result is stored and the session marked scored. */
  lemma ScoringSucceeds()
    ensures var out := ScoreWisc4Session(ExampleStore(), 1, Delta, Convert);
            && out.1 == Ok(ScoreRecord(86, "wisc4_84_89", 92, 94, 94, 94, 91))
            && out.0.results == map[1 := out.1.value]
            && out.0.sessions[1].status == Scored
  {
    ExampleTable();
    ExampleItems();
    ExampleScorable();
  }
}
