/** One atomic scoring of a WISC-IV session (scoring.py, `score_wisc4_session`), as a pure
    transformer of an abstract store. The database transaction is modelled by its outcome:
    `ScoreSessionBody` performs the steps with their writes, as the code would without the
    transaction, and `ScoreWisc4Session` keeps the body's store only when it succeeds. */
module Pipeline {
  import opened Results
  import Age
  import NormTables
  import ScoreTables
  import Composites

  datatype Instrument = Wisc4 | Wais3 | EtdahPais | EtdahAd

  datatype Status = Draft | InProgress | Scored | Locked

  /** An assessment session joined with its patient's birth date. */
  datatype Session = Session(birthDate: Age.Date, instrument: Instrument, testDate: Age.Date, status: Status)

  /** A `Wisc4RawScore` row; `scaledScore` is filled in by scoring. */
  datatype RawScore = RawScore(session: nat, subtest: string, rawScore: int, scaledScore: Option<int>)

  /** A `Wisc4Result` row: the audit fields and the five composites. */
  datatype ScoreRecord =
    ScoreRecord(ageMonths: int, normTableKey: string, icv: int, iop: int, imo: int, ivp: int, qit: int)

  /** The persisted state the service reads and writes. Raw scores are kept in the order
      the database returns them; CSV files are kept already parsed, by path. */
  datatype Store = Store(
    sessions: map<nat, Session>,
    rawScores: seq<RawScore>,
    results: map<nat, ScoreRecord>,
    normTables: seq<NormTables.NormTableRecord>,
    csvFiles: map<string, seq<ScoreTables.Row>>)

  datatype ScoreError =
    | SessionNotFound(sessionId: nat)
    | NotWisc4
    | NoNormTable(ageMonths: int)
    | CsvNotFound(path: string)
    | NoRawScores
    | LookupFailed(subtest: string, rawScore: int, lookupError: ScoreTables.LookupError)
    | CompositionFailed(compositionError: Composites.CompositionError)

  /** What scoring may change in a raw-score row: only its scaled score. */
  predicate SameEntry(a: RawScore, b: RawScore) {
    a.session == b.session && a.subtest == b.subtest && a.rawScore == b.rawScore
  }

  predicate HasItems(raws: seq<RawScore>, sid: nat) {
    exists j :: 0 <= j < |raws| && raws[j].session == sid
  }

  /** The scaled scores stored for a session, later rows overriding earlier ones with the
      same subtest, as repeated dictionary assignment does. */
  function StoredScaled(raws: seq<RawScore>, sid: nat, acc: map<string, int>): map<string, int> {
    if |raws| == 0 then acc
    else if raws[0].session == sid && raws[0].scaledScore.Some? then
      StoredScaled(raws[1..], sid, acc[raws[0].subtest := raws[0].scaledScore.value])
    else StoredScaled(raws[1..], sid, acc)
  }

  /** The table has a scaled score for this raw-score row. */
  predicate LooksUp(rows: seq<ScoreTables.Row>, item: RawScore) {
    ScoreTables.LookupScaledScore(rows, item.subtest, item.rawScore).Ok?
  }

  /** The scaled scores the session's rows convert to, by subtest, later rows overriding
      earlier ones; rows that do not convert contribute nothing. */
  function Collected(rows: seq<ScoreTables.Row>, raws: seq<RawScore>, sid: nat, acc: map<string, int>)
    : map<string, int>
  {
    if |raws| == 0 then acc
    else if raws[0].session == sid && LooksUp(rows, raws[0]) then
      Collected(rows, raws[1..], sid,
                acc[raws[0].subtest := ScoreTables.LookupScaledScore(rows, raws[0].subtest, raws[0].rawScore).value])
    else Collected(rows, raws[1..], sid, acc)
  }

  /** The item loop: look up each of the session's raw scores in order, writing its scaled
      score and collecting it by subtest; stop at the first lookup that fails, leaving the
      rows written so far. */
  function ScoreItems(rows: seq<ScoreTables.Row>, raws: seq<RawScore>, sid: nat, acc: map<string, int>)
    : (out: (seq<RawScore>, Result<map<string, int>, ScoreError>))
    ensures |out.0| == |raws|
    ensures forall j :: 0 <= j < |raws| ==> SameEntry(out.0[j], raws[j])
    ensures forall j :: 0 <= j < |raws| && raws[j].session != sid ==> out.0[j] == raws[j]
    ensures out.1.Ok? ==> forall j :: 0 <= j < |raws| && raws[j].session == sid ==>
              && ScoreTables.LookupScaledScore(rows, raws[j].subtest, raws[j].rawScore).Ok?
              && out.0[j].scaledScore == Some(ScoreTables.LookupScaledScore(rows, raws[j].subtest, raws[j].rawScore).value)
    ensures out.1.Ok? ==> out.1.value == StoredScaled(out.0, sid, acc)
    ensures out.1.Ok? ==> out.1.value == Collected(rows, raws, sid, acc)
    ensures out.1.Ok? <==> forall j :: 0 <= j < |raws| && raws[j].session == sid ==> LooksUp(rows, raws[j])
    // a failure reports the first of the session's rows that does not convert
    ensures out.1.Err? ==>
              exists j :: && 0 <= j < |raws| && raws[j].session == sid
                          && !LooksUp(rows, raws[j])
                          && (forall k :: 0 <= k < j && raws[k].session == sid ==> LooksUp(rows, raws[k]))
                          && out.1.error == LookupFailed(raws[j].subtest, raws[j].rawScore,
                               ScoreTables.LookupScaledScore(rows, raws[j].subtest, raws[j].rawScore).error)
  {
    if |raws| == 0 then ([], Ok(acc))
    else if raws[0].session != sid then
      var (rest, res) := ScoreItems(rows, raws[1..], sid, acc);
      var out := [raws[0]] + rest;
      assert out[1..] == rest;
      FirstFailureShift(rows, raws, sid, res);
      (out, res)
    else
      match ScoreTables.LookupScaledScore(rows, raws[0].subtest, raws[0].rawScore)
      case Err(e) => (raws, Err(LookupFailed(raws[0].subtest, raws[0].rawScore, e)))
      case Ok(v) =>
        var (rest, res) := ScoreItems(rows, raws[1..], sid, acc[raws[0].subtest := v]);
        var out := [raws[0].(scaledScore := Some(v))] + rest;
        assert out[1..] == rest;
        FirstFailureShift(rows, raws, sid, res);
        (out, res)
  }

  /** The first failing row of the tail, moved one place down, is the first failing row of
      the whole when the head converts or belongs to another session. */
  lemma FirstFailureShift(rows: seq<ScoreTables.Row>, raws: seq<RawScore>, sid: nat,
                          res: Result<map<string, int>, ScoreError>)
    requires |raws| > 0 && (raws[0].session != sid || LooksUp(rows, raws[0]))
    requires res.Err? ==>
               exists j :: && 0 <= j < |raws[1..]| && raws[1..][j].session == sid
                           && !LooksUp(rows, raws[1..][j])
                           && (forall k :: 0 <= k < j && raws[1..][k].session == sid ==> LooksUp(rows, raws[1..][k]))
                           && res.error == LookupFailed(raws[1..][j].subtest, raws[1..][j].rawScore,
                                ScoreTables.LookupScaledScore(rows, raws[1..][j].subtest, raws[1..][j].rawScore).error)
    ensures res.Err? ==>
              exists j :: && 0 <= j < |raws| && raws[j].session == sid
                          && !LooksUp(rows, raws[j])
                          && (forall k :: 0 <= k < j && raws[k].session == sid ==> LooksUp(rows, raws[k]))
                          && res.error == LookupFailed(raws[j].subtest, raws[j].rawScore,
                               ScoreTables.LookupScaledScore(rows, raws[j].subtest, raws[j].rawScore).error)
  {
    if res.Err? {
      var j :| && 0 <= j < |raws[1..]| && raws[1..][j].session == sid
               && !LooksUp(rows, raws[1..][j])
               && (forall k :: 0 <= k < j && raws[1..][k].session == sid ==> LooksUp(rows, raws[1..][k]))
               && res.error == LookupFailed(raws[1..][j].subtest, raws[1..][j].rawScore,
                    ScoreTables.LookupScaledScore(rows, raws[1..][j].subtest, raws[1..][j].rawScore).error);
      assert raws[j + 1] == raws[1..][j];
      assert forall k :: 1 <= k < j + 1 ==> raws[k] == raws[1..][k - 1];
    }
  }

  /** The steps before the item loop: fetch the session, check the instrument, compute the
      age, select the norm table and load its rows. */
  function Prepare(store: Store, sid: nat, relDelta: (Age.Date, Age.Date) -> NormTables.RelativeDelta)
    : (r: Result<(NormTables.AgeInfo, NormTables.NormTableRecord, seq<ScoreTables.Row>), ScoreError>)
    ensures sid !in store.sessions ==> r == Err(SessionNotFound(sid))
    ensures sid in store.sessions && store.sessions[sid].instrument != Wisc4 ==> r == Err(NotWisc4)
    ensures r.Ok? ==> sid in store.sessions && store.sessions[sid].instrument == Wisc4
    // past the guards: no table for the age, the table's file missing, or the loaded rows
    ensures sid in store.sessions && store.sessions[sid].instrument == Wisc4 ==>
              var s := store.sessions[sid];
              var age := NormTables.CalcAgeMonths(s.birthDate, s.testDate, relDelta);
              var pick := NormTables.PickNormTable(age.totalMonths, store.normTables);
              && (pick.Err? ==> r == Err(NoNormTable(age.totalMonths)))
              && (pick.Ok? && pick.value.filePath !in store.csvFiles ==> r == Err(CsvNotFound(pick.value.filePath)))
              && (pick.Ok? && pick.value.filePath in store.csvFiles ==>
                    r == Ok((age, pick.value, store.csvFiles[pick.value.filePath])))
    ensures r.Ok? ==>
              var s := store.sessions[sid];
              var age := NormTables.CalcAgeMonths(s.birthDate, s.testDate, relDelta);
              && r.value.0 == age
              && NormTables.PickNormTable(age.totalMonths, store.normTables) == Ok(r.value.1)
              && r.value.1.filePath in store.csvFiles
              && r.value.2 == store.csvFiles[r.value.1.filePath]
  {
    if sid !in store.sessions then Err(SessionNotFound(sid))
    else
      var s := store.sessions[sid];
      if s.instrument != Wisc4 then Err(NotWisc4)
      else
        var age := NormTables.CalcAgeMonths(s.birthDate, s.testDate, relDelta);
        match NormTables.PickNormTable(age.totalMonths, store.normTables)
        case Err(_) => Err(NoNormTable(age.totalMonths))
        case Ok(table) =>
          if table.filePath !in store.csvFiles then Err(CsvNotFound(table.filePath))
          else Ok((age, table, store.csvFiles[table.filePath]))
  }

  /** Reading ICV, IOP, IMO, IVP and QIT, in that order, out of the converter's result. */
  function ReadComposites(c: map<string, int>): (r: Result<(int, int, int, int, int), ScoreError>)
    ensures r.Ok? <==> "ICV" in c && "IOP" in c && "IMO" in c && "IVP" in c && "QIT" in c
    ensures r.Ok? ==> r.value == (c["ICV"], c["IOP"], c["IMO"], c["IVP"], c["QIT"])
  {
    if "ICV" !in c then Err(CompositionFailed(Composites.MissingComposite("ICV")))
    else if "IOP" !in c then Err(CompositionFailed(Composites.MissingComposite("IOP")))
    else if "IMO" !in c then Err(CompositionFailed(Composites.MissingComposite("IMO")))
    else if "IVP" !in c then Err(CompositionFailed(Composites.MissingComposite("IVP")))
    else if "QIT" !in c then Err(CompositionFailed(Composites.MissingComposite("QIT")))
    else Ok((c["ICV"], c["IOP"], c["IMO"], c["IVP"], c["QIT"]))
  }

  /** Index sums, conversion and reading of the composites. */
  function Compose(scaled: map<string, int>, convert: Composites.Converter)
    : (r: Result<(int, int, int, int, int), ScoreError>)
    ensures r.Ok? ==> Composites.ComputeIndexSums(scaled).Ok?
                      && convert(Composites.ComputeIndexSums(scaled).value).Ok?
                      && ReadComposites(convert(Composites.ComputeIndexSums(scaled).value).value) == r
    ensures Composites.ComputeIndexSums(scaled).Err? ==>
              r == Err(CompositionFailed(Composites.ComputeIndexSums(scaled).error))
    ensures Composites.ComputeIndexSums(scaled).Ok? ==>
              var converted := convert(Composites.ComputeIndexSums(scaled).value);
              && (converted.Err? ==> r == Err(CompositionFailed(converted.error)))
              && (converted.Ok? ==> r == ReadComposites(converted.value))
  {
    match Composites.ComputeIndexSums(scaled)
    case Err(e) => Err(CompositionFailed(e))
    case Ok(sums) =>
      match convert(sums)
      case Err(e) => Err(CompositionFailed(e))
      case Ok(c) => ReadComposites(c)
  }

  /** The steps after the norm table is loaded: the raw-score query and its emptiness check,
      then the item loop and what follows it. */
  function ScoreLoaded(store: Store, sid: nat, age: NormTables.AgeInfo, table: NormTables.NormTableRecord,
                       rows: seq<ScoreTables.Row>, convert: Composites.Converter)
    : (out: (Store, Result<ScoreRecord, ScoreError>))
    requires sid in store.sessions
    ensures !HasItems(store.rawScores, sid) ==> out == (store, Err(NoRawScores))
    ensures HasItems(store.rawScores, sid) ==>
              var items := ScoreItems(rows, store.rawScores, sid, map[]);
              && out.0.rawScores == items.0
              && (items.1.Err? ==> out.1 == Err(items.1.error))
              && (items.1.Ok? && Compose(items.1.value, convert).Err? ==>
                    out.1 == Err(Compose(items.1.value, convert).error))
  {
    if !HasItems(store.rawScores, sid) then (store, Err(NoRawScores))
    else Finish(store, sid, age, table, ScoreItems(rows, store.rawScores, sid, map[]), convert)
  }

  /** After the item loop: write the scaled scores, compute the composites, upsert the
      result and mark the session scored. */
  function Finish(store: Store, sid: nat, age: NormTables.AgeInfo, table: NormTables.NormTableRecord,
                  items: (seq<RawScore>, Result<map<string, int>, ScoreError>), convert: Composites.Converter)
    : (out: (Store, Result<ScoreRecord, ScoreError>))
    requires sid in store.sessions
    // the loop's writes are kept whatever follows
    ensures out.0.rawScores == items.0
    ensures items.1.Err? ==> out.1 == Err(items.1.error)
    ensures items.1.Ok? && Compose(items.1.value, convert).Err? ==>
              out.1 == Err(Compose(items.1.value, convert).error)
    ensures items.1.Ok? && Compose(items.1.value, convert).Ok? ==>
              var c := Compose(items.1.value, convert).value;
              && out.1 == Ok(ScoreRecord(age.totalMonths, table.key, c.0, c.1, c.2, c.3, c.4))
              && out.0.results == store.results[sid := out.1.value]
              && out.0.sessions == store.sessions[sid := store.sessions[sid].(status := Scored)]
    ensures out.1.Err? ==> out.0 == store.(rawScores := items.0)
  {
    var written := store.(rawScores := items.0);
    match items.1
    case Err(e) => (written, Err(e))
    case Ok(scaled) =>
      match Compose(scaled, convert)
      case Err(e) => (written, Err(e))
      case Ok((icv, iop, imo, ivp, qit)) =>
        var record := ScoreRecord(age.totalMonths, table.key, icv, iop, imo, ivp, qit);
        var session := written.sessions[sid].(status := Scored);
        (written.(results := written.results[sid := record],
                  sessions := written.sessions[sid := session]),
         Ok(record))
  }

  /** The body of `score_wisc4_session` without its transaction: on failure it returns the
      store with whatever scaled scores it had written. */
  function ScoreSessionBody(store: Store, sid: nat,
                            relDelta: (Age.Date, Age.Date) -> NormTables.RelativeDelta,
                            convert: Composites.Converter): (Store, Result<ScoreRecord, ScoreError>)
  {
    match Prepare(store, sid, relDelta)
    case Err(e) => (store, Err(e))
    case Ok((age, table, rows)) => ScoreLoaded(store, sid, age, table, rows, convert)
  }

  /** Every step of scoring succeeds: the session exists and is a WISC-IV one, a table is
      registered for the age and its file is present, the session has raw scores and each
      converts, and the composites can be formed from the collected scaled scores. */
  predicate Scorable(store: Store, sid: nat,
                     relDelta: (Age.Date, Age.Date) -> NormTables.RelativeDelta,
                     convert: Composites.Converter)
  {
    && sid in store.sessions
    && store.sessions[sid].instrument == Wisc4
    && var s := store.sessions[sid];
       var age := NormTables.CalcAgeMonths(s.birthDate, s.testDate, relDelta).totalMonths;
       && NormTables.PickNormTable(age, store.normTables).Ok?
       && var path := NormTables.PickNormTable(age, store.normTables).value.filePath;
          && path in store.csvFiles
          && var rows := store.csvFiles[path];
             && HasItems(store.rawScores, sid)
             && (forall j :: 0 <= j < |store.rawScores| && store.rawScores[j].session == sid ==>
                   LooksUp(rows, store.rawScores[j]))
             && Compose(Collected(rows, store.rawScores, sid, map[]), convert).Ok?
  }

  /** `score_wisc4_session(session_id)` under `@transaction.atomic`, with the
      `relativedelta` decomposition and the sum-to-composite converter as parameters. */
  function ScoreWisc4Session(store: Store, sid: nat,
                             relDelta: (Age.Date, Age.Date) -> NormTables.RelativeDelta,
                             convert: Composites.Converter): (out: (Store, Result<ScoreRecord, ScoreError>))
    // all or nothing: a failure leaves the store exactly as it was
    ensures out.1.Err? ==> out.0 == store
    // which error a failing run reports: the first failing stage's own error
    ensures Prepare(store, sid, relDelta).Err? ==> out.1 == Err(Prepare(store, sid, relDelta).error)
    ensures Prepare(store, sid, relDelta).Ok? ==>
              var rows := Prepare(store, sid, relDelta).value.2;
              var items := ScoreItems(rows, store.rawScores, sid, map[]);
              && (!HasItems(store.rawScores, sid) ==> out.1 == Err(NoRawScores))
              && (HasItems(store.rawScores, sid) && items.1.Err? ==> out.1 == Err(items.1.error))
              && (HasItems(store.rawScores, sid) && items.1.Ok? && Compose(items.1.value, convert).Err? ==>
                    out.1 == Err(Compose(items.1.value, convert).error))
    // scoring succeeds exactly when every step does, and then yields the service's age, the
    // selected table's key and the composites of the collected scaled scores
    ensures out.1.Ok? <==> Scorable(store, sid, relDelta, convert)
    ensures Scorable(store, sid, relDelta, convert) ==>
              var s := store.sessions[sid];
              var age := NormTables.CalcAgeMonths(s.birthDate, s.testDate, relDelta).totalMonths;
              var table := NormTables.PickNormTable(age, store.normTables).value;
              var c := Compose(Collected(store.csvFiles[table.filePath], store.rawScores, sid, map[]), convert).value;
              out.1 == Ok(ScoreRecord(age, table.key, c.0, c.1, c.2, c.3, c.4))
    // the guards, in the order the source checks them
    ensures sid !in store.sessions ==> out.1 == Err(SessionNotFound(sid))
    ensures sid in store.sessions && store.sessions[sid].instrument != Wisc4 ==> out.1 == Err(NotWisc4)
    ensures !HasItems(store.rawScores, sid) ==> out.1.Err?
    ensures out.1.Ok? ==> sid in store.sessions && store.sessions[sid].instrument == Wisc4
    // the audit fields: the service's age and the selected table's key
    ensures out.1.Ok? ==>
              var s := store.sessions[sid];
              var age := NormTables.CalcAgeMonths(s.birthDate, s.testDate, relDelta).totalMonths;
              && out.1.value.ageMonths == age
              && age >= 0
              && NormTables.PickNormTable(age, store.normTables).Ok?
              && out.1.value.normTableKey == NormTables.PickNormTable(age, store.normTables).value.key
    // every raw score of the session gets the scaled score its table gives; nothing else changes
    ensures out.1.Ok? ==>
              var s := store.sessions[sid];
              var age := NormTables.CalcAgeMonths(s.birthDate, s.testDate, relDelta).totalMonths;
              && NormTables.PickNormTable(age, store.normTables).Ok?
              && NormTables.PickNormTable(age, store.normTables).value.filePath in store.csvFiles
              && var rows := store.csvFiles[NormTables.PickNormTable(age, store.normTables).value.filePath];
                 && |out.0.rawScores| == |store.rawScores|
                 && forall j :: 0 <= j < |store.rawScores| ==>
                      && SameEntry(out.0.rawScores[j], store.rawScores[j])
                      && (store.rawScores[j].session != sid ==> out.0.rawScores[j] == store.rawScores[j])
                      && (store.rawScores[j].session == sid ==>
                            && out.0.rawScores[j].scaledScore.Some?
                            && ScoreTables.LookupScaledScore(rows, store.rawScores[j].subtest, store.rawScores[j].rawScore)
                               == Ok(out.0.rawScores[j].scaledScore.value))
    // the composites are the converter's answer for the stored scaled scores
    ensures out.1.Ok? ==>
              var stored := StoredScaled(out.0.rawScores, sid, map[]);
              && Composites.ComputeIndexSums(stored).Ok?
              && convert(Composites.ComputeIndexSums(stored).value).Ok?
              && ReadComposites(convert(Composites.ComputeIndexSums(stored).value).value)
                 == Ok((out.1.value.icv, out.1.value.iop, out.1.value.imo, out.1.value.ivp, out.1.value.qit))
    // the result is upserted and the session marked scored; nothing else changes
    ensures out.1.Ok? ==> out.0.results == store.results[sid := out.1.value]
    ensures out.1.Ok? ==> out.0.sessions == store.sessions[sid := store.sessions[sid].(status := Scored)]
    ensures out.1.Ok? ==> out.0.normTables == store.normTables && out.0.csvFiles == store.csvFiles
  {
    var (after, res) := ScoreSessionBody(store, sid, relDelta, convert);
    if res.Err? then (store, res) else (after, res)
  }

  /** With the repository's converter, which has no conversion tables, no session is ever
      scored, and the transaction leaves the store untouched. */
  lemma RepositoryNeverScores(store: Store, sid: nat,
                              relDelta: (Age.Date, Age.Date) -> NormTables.RelativeDelta)
    ensures ScoreWisc4Session(store, sid, relDelta, Composites.ConvertSumsToComposites).1.Err?
    ensures ScoreWisc4Session(store, sid, relDelta, Composites.ConvertSumsToComposites).0 == store
  {
  }

  /** Without the transaction the same failure would leave scaled scores behind: when
      scoring fails at the composite step, the body has already written a scaled score into
      every raw-score row of the session. */
  lemma {:induction false} BodyWritesBeforeCompositionFails(store: Store, sid: nat,
                                          relDelta: (Age.Date, Age.Date) -> NormTables.RelativeDelta,
                                          convert: Composites.Converter)
    requires ScoreSessionBody(store, sid, relDelta, convert).1.Err?
    requires ScoreSessionBody(store, sid, relDelta, convert).1.error.CompositionFailed?
    ensures var written := ScoreSessionBody(store, sid, relDelta, convert).0;
            && HasItems(store.rawScores, sid)
            && |written.rawScores| == |store.rawScores|
            && forall j :: 0 <= j < |store.rawScores| && store.rawScores[j].session == sid ==>
                 written.rawScores[j].scaledScore.Some?
  {
    var (age, table, rows) := Prepare(store, sid, relDelta).value;
    var (raws, res) := ScoreItems(rows, store.rawScores, sid, map[]);
    assert res.Ok?;
  }

  /** Re-running the loop over rows it has already written changes nothing and yields the
      same scaled scores. */
  lemma {:induction false} ScoreItemsRerun(rows: seq<ScoreTables.Row>, raws: seq<RawScore>, sid: nat,
                                           acc: map<string, int>)
    requires ScoreItems(rows, raws, sid, acc).1.Ok?
    ensures ScoreItems(rows, ScoreItems(rows, raws, sid, acc).0, sid, acc) == ScoreItems(rows, raws, sid, acc)
  {
    if |raws| > 0 {
      var out := ScoreItems(rows, raws, sid, acc).0;
      assert out[0].session == raws[0].session;
      if raws[0].session != sid {
        ScoreItemsRerun(rows, raws[1..], sid, acc);
        assert out[1..] == ScoreItems(rows, raws[1..], sid, acc).0;
      } else {
        var v := ScoreTables.LookupScaledScore(rows, raws[0].subtest, raws[0].rawScore).value;
        ScoreItemsRerun(rows, raws[1..], sid, acc[raws[0].subtest := v]);
        assert out[1..] == ScoreItems(rows, raws[1..], sid, acc[raws[0].subtest := v]).0;
        assert out[0] == raws[0].(scaledScore := Some(v));
      }
    }
  }

  lemma {:induction false} ScoreLoadedRerun(store: Store, sid: nat, age: NormTables.AgeInfo,
                                            table: NormTables.NormTableRecord,
                                            rows: seq<ScoreTables.Row>, convert: Composites.Converter)
    requires sid in store.sessions
    requires ScoreLoaded(store, sid, age, table, rows, convert).1.Ok?
    ensures var (after, res) := ScoreLoaded(store, sid, age, table, rows, convert);
            sid in after.sessions && ScoreLoaded(after, sid, age, table, rows, convert) == (after, res)
  {
    var (after, res) := ScoreLoaded(store, sid, age, table, rows, convert);
    var items := ScoreItems(rows, store.rawScores, sid, map[]);
    assert (after, res) == Finish(store, sid, age, table, items, convert);
    FinishRerun(store, sid, age, table, items, convert);
    var j :| 0 <= j < |store.rawScores| && store.rawScores[j].session == sid;
    assert after.rawScores[j].session == sid;
    ScoreItemsRerun(rows, store.rawScores, sid, map[]);
  }

  lemma FinishRerun(store: Store, sid: nat, age: NormTables.AgeInfo, table: NormTables.NormTableRecord,
                    items: (seq<RawScore>, Result<map<string, int>, ScoreError>), convert: Composites.Converter)
    requires sid in store.sessions
    requires Finish(store, sid, age, table, items, convert).1.Ok?
    ensures var (after, res) := Finish(store, sid, age, table, items, convert);
            && sid in after.sessions
            && after.rawScores == items.0
            && Finish(after, sid, age, table, items, convert) == (after, res)
  {
    var (after, res) := Finish(store, sid, age, table, items, convert);
    var (icv, iop, imo, ivp, qit) := Compose(items.1.value, convert).value;
    var record := ScoreRecord(age.totalMonths, table.key, icv, iop, imo, ivp, qit);
    assert res == Ok(record);
    assert after.results[sid := record] == after.results;
    assert after.sessions[sid := after.sessions[sid].(status := Scored)] == after.sessions;
  }

  /** Re-scoring a scored session with unchanged inputs is a no-op: the same record, the
      same store. */
  lemma {:induction false} RescoringIsIdempotent(store: Store, sid: nat,
                                                 relDelta: (Age.Date, Age.Date) -> NormTables.RelativeDelta,
                                                 convert: Composites.Converter)
    requires ScoreWisc4Session(store, sid, relDelta, convert).1.Ok?
    ensures var (after, res) := ScoreWisc4Session(store, sid, relDelta, convert);
            ScoreWisc4Session(after, sid, relDelta, convert) == (after, res)
  {
    var (after, res) := ScoreWisc4Session(store, sid, relDelta, convert);
    var (age, table, rows) := Prepare(store, sid, relDelta).value;
    assert ScoreLoaded(store, sid, age, table, rows, convert) == (after, res);
    ScoreLoadedRerun(store, sid, age, table, rows, convert);
    assert Prepare(after, sid, relDelta) == Prepare(store, sid, relDelta);
  }

  /** A key no session row writes keeps its accumulated value. */
  lemma {:induction false} CollectedKeeps(rows: seq<ScoreTables.Row>, raws: seq<RawScore>, sid: nat,
                                          acc: map<string, int>, key: string)
    requires key in acc
    requires forall k :: 0 <= k < |raws| && raws[k].session == sid ==> raws[k].subtest != key
    ensures key in Collected(rows, raws, sid, acc) && Collected(rows, raws, sid, acc)[key] == acc[key]
    decreases |raws|
  {
    if |raws| > 0 {
      assert forall k :: 0 <= k < |raws[1..]| ==> raws[1..][k] == raws[k + 1];
      if raws[0].session == sid && LooksUp(rows, raws[0]) {
        var v := ScoreTables.LookupScaledScore(rows, raws[0].subtest, raws[0].rawScore).value;
        CollectedKeeps(rows, raws[1..], sid, acc[raws[0].subtest := v], key);
      } else {
        CollectedKeeps(rows, raws[1..], sid, acc, key);
      }
    }
  }

  /** The last session row of a subtest decides its collected scaled score. */
  lemma {:induction false} CollectedLastWins(rows: seq<ScoreTables.Row>, raws: seq<RawScore>, sid: nat,
                                             acc: map<string, int>, j: int)
    requires 0 <= j < |raws| && raws[j].session == sid && LooksUp(rows, raws[j])
    requires forall k :: j < k < |raws| && raws[k].session == sid ==> raws[k].subtest != raws[j].subtest
    ensures raws[j].subtest in Collected(rows, raws, sid, acc)
    ensures Collected(rows, raws, sid, acc)[raws[j].subtest]
            == ScoreTables.LookupScaledScore(rows, raws[j].subtest, raws[j].rawScore).value
    decreases |raws|
  {
    var tail := raws[1..];
    assert forall k :: 0 <= k < |tail| ==> tail[k] == raws[k + 1];
    if j == 0 {
      var v := ScoreTables.LookupScaledScore(rows, raws[0].subtest, raws[0].rawScore).value;
      assert Collected(rows, raws, sid, acc) == Collected(rows, tail, sid, acc[raws[0].subtest := v]);
      CollectedKeeps(rows, tail, sid, acc[raws[0].subtest := v], raws[0].subtest);
    } else {
      var acc' := if raws[0].session == sid && LooksUp(rows, raws[0])
                  then acc[raws[0].subtest := ScoreTables.LookupScaledScore(rows, raws[0].subtest, raws[0].rawScore).value]
                  else acc;
      assert Collected(rows, raws, sid, acc) == Collected(rows, tail, sid, acc');
      assert tail[j - 1] == raws[j];
      CollectedLastWins(rows, tail, sid, acc', j - 1);
    }
  }
}
