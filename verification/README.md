# WISC-IV scoring engine, modelled in Dafny

This project models the scoring engine of a clinical assessment back end for the WISC-IV
intelligence test. The engine turns a child's raw subtest scores into age-normed scaled
scores and then into index sums. The model has four parts:

- **Age in months** (`age.py`): the calendar count of completed months between birth and
  reference date (`Age`).
- **Age-band index** (`age.py`): recognising `idade_Y-M-Y-M.csv` file names (`BandNames`),
  building the sorted band list, and first-match selection of a band for an age (`AgeBands`).
  The service's own selection over registered norm-table records sits beside it
  (`NormTables`).
- **Raw→scaled lookup** over an already parsed table, in the Wide and the Long row layout
  (`ScoreTables`).
- **Index sums, the composite converter and the scoring of one session** (`Composites`,
  `Pipeline`). A session is scored by a pure transformer over an abstract store. The
  database transaction is modelled by its outcome: a failure returns the original store.

Every operation is a pure function returning a `Result`. Each Python `raise` becomes an
`Err`. `dateutil.relativedelta` and the sum→composite converter are function parameters.
The repository's converter, `Composites.ConvertSumsToComposites`, always fails.

Behaviour worth knowing before reading the contracts:

- Overlapping bands are not rejected. Selection takes the first match.
- The table layout is sniffed from the first row's columns on every lookup.
- A Long table whose rows never cover the raw score and a table fitting neither layout end
  in the same conversion error.
- The band builder reports an inverted range as soon as it meets one, in directory order.
  This happens before the empty-index check.
- The service computes the age with `relativedelta`, not with `age.py`. It marks the session
  `scored` whatever its previous status, including `locked`.

The worked example proved by `WorkedExample.ScoringSucceeds` covers one session from age to
stored record: a child born on 2016-01-10 and assessed on 2023-03-10 is 86 months old, each
of the nine raw scores converts, and the record carries the converter's composites.

## Model

| member | source | states |
|---|---|---|
| Age.AgeInMonths | age.py:8-15 | fails exactly when the reference date is strictly before the birth date; otherwise the result is non-negative, and it is the month difference, one less when the birth day of month has not been reached |
| Age.AgeIsCompletedMonths | age.py:11-15 | the result n is the number of monthly anniversaries reached: birth shifted by n months is not after the reference date, and birth shifted by n+1 months is after it |
| Age.AgeMonotone | age.py:9-15 | for a fixed birth date, the age never decreases as the reference date advances |
| Age.BirthdayBoundaryExample | age.py:11-15 | birth 2015-06-15 gives 83 months on 2022-06-14 and 84 on 2022-06-15; birth 2016-01-10 gives 86 months on 2023-03-10 |
| BandNames.MatchNameSound | age.py:31-39 | every accepted name spells prefix, four digit groups joined by dashes and extension (prefix and extension up to case), with an optional final newline, using exactly the returned groups |
| BandNames.MatchNameComplete | age.py:31-39 | every name that spells the pattern is accepted, with exactly its groups |
| BandNames.UnderscoreNameRejected | age.py:31 | a name that joins its two halves with an underscore, as in idade_6-8_6-11.csv, is not accepted |
| BandNames.SplitJoin | age.py:31 | cutting the dash-joined digit groups at the dashes gives back the groups, so the four captures are unique |
| AgeBands.ToMonths | age.py:24-25 | the total is years·12 + months; with months in 0..11, division by 12 gives back the years and the remainder the months, so distinct (years, months) pairs give distinct totals |
| AgeBands.ParseBand | age.py:37-42 | a directory entry yields a band exactly when its name matches; the band keeps the name, and its bounds are the decimal values of the first and second pair of captured groups, each converted as years·12 + months |
| AgeBands.ParsedBands | age.py:34-42 | non-matching names contribute nothing; every band comes from a listed matching name, and every listed matching name yields a band |
| AgeBands.ParsedBandsConcat | age.py:34-45 | parsing a listing split in two is parsing each part and concatenating, so bands keep the directory order and one band per matching name |
| AgeBands.ParsedBandsSingle | age.py:37-45 | a single name contributes its own band when it matches and nothing otherwise |
| AgeBands.FirstInverted | age.py:43-44 | finds the first band, in directory order, whose max is below its min, or reports that none is inverted |
| AgeBands.SortBands | age.py:47-48 | the result is sorted by (min_months, max_months) and is a permutation of the input |
| AgeBands.SortBandsStable | age.py:48 | for every key, the bands with that key keep their relative order, as Python's stable sort keeps them |
| AgeBands.BuildAgeBandIndex | age.py:27-52 | fails on the first inverted band (naming its file) or when nothing matched, and in no other case; a success is non-empty, sorted, has min ≤ max for every band, and is a permutation of the parsed bands |
| AgeBands.FirstContaining | age.py:58-61 | the position of the first band whose inclusive range holds the age; none exactly when no band holds it |
| AgeBands.PickTableForAge | age.py:54-61 | fails exactly when no band's inclusive range holds the age; otherwise returns the file of the first band that holds it |
| AgeBands.FirstContainingOnSortedIsLeast | age.py:48-60 | on a sorted index the chosen band has the least (min, max) key, hence the smallest min_months, among all bands holding the age |
| AgeBands.PickFromIndex | age.py:27-61 | on a built index, selection fails exactly when no parsed band holds the age; otherwise it picks a parsed band of least key among those holding it |
| AgeBands.PickFromSortedPermutation | age.py:48-61 | the same on any sorted permutation of a band list |
| NormTables.CalcAgeMonths | backend/apps/wisc/services/scoring.py:23-26 | reports the years and months of the supplied relativedelta(test, birth) and their total years·12 + months |
| NormTables.PickNormTable | backend/apps/wisc/services/scoring.py:29-37 | fails exactly when no active table's inclusive range holds the age; otherwise returns a registered, active table holding the age with the smallest min_months of all such tables |
| NormTables.PickNormTableIsFirstMatch | backend/apps/wisc/services/scoring.py:29-37 | on an all-active registry listed by ascending min_months, the query picks the same table as the first-match scan of age.py |
| ScoreTables.ParseField | backend/apps/wisc/services/scoring.py:71-84 | reading a cell as an integer fails on an absent column (KeyError) and on an absent, blank or non-numeric cell |
| ScoreTables.WideCell | backend/apps/wisc/services/scoring.py:72-75 | in the matched row, an absent or blank subtest cell is a missing-scaled-score error; otherwise the cell's integer value, or a conversion error |
| ScoreTables.WideScan | backend/apps/wisc/services/scoring.py:70-75 | returns nothing exactly when every raw score converts and none equals the input; otherwise the first row with the raw score decides, through its subtest cell; a raw score that does not convert before any match raises that row's conversion error |
| ScoreTables.LongScan | backend/apps/wisc/services/scoring.py:79-84 | returns nothing exactly when every row is passed over; otherwise the first row for the subtest whose inclusive [raw_min, raw_max] holds the raw score decides, through its scaled cell; the first row that can be neither passed over nor used raises its missing-column or conversion error |
| ScoreTables.LookupScaledScore | backend/apps/wisc/services/scoring.py:57-86 | layout comes from the first row's columns; an empty table or one fitting neither layout fails with the conversion error; Wide is decided by the first matching raw row, and an unconvertible raw score before it fails; a Wide miss falls through to the Long check; Long is decided by the first covering row of the subtest, and an unreadable row before it fails; every value returned comes from a matching row |
| ScoreTables.LongBoundsAreInclusive | backend/apps/wisc/services/scoring.py:80-84 | a one-row Long table converts both raw_min and raw_max, and rejects the values just outside them |
| ScoreTables.WideBlankCellStopsLookup | backend/apps/wisc/services/scoring.py:70-75 | a blank or absent cell in the first row with the raw score is an error, even when a later row with that raw score has a value |
| Composites.FirstMissing | backend/apps/wisc/services/scoring.py:95-98 | the first required subtest, in reading order, that has no score, or none when all are present |
| Composites.ComputeIndexSums | backend/apps/wisc/services/scoring.py:89-100 | fails exactly when one of the nine subtests is absent, naming the first absent one in reading order; otherwise returns exactly ICV, IOP, IMO and IVP, each equal to the sum over the subtests of that index |
| Composites.IndexSumsIgnoreOtherSubtests | backend/apps/wisc/services/scoring.py:95-100 | two score maps that agree on the nine required subtests give the same result |
| Composites.ChangingOneScoreMovesOnlyItsIndex | backend/apps/wisc/services/scoring.py:95-100 | changing one required subtest's score moves only its own index's sum, and by exactly the change |
| Composites.ConvertSumsToComposites | backend/apps/wisc/services/scoring.py:103-110 | the repository's conversion always fails with conversion-unavailable |
| Pipeline.Prepare | backend/apps/wisc/services/scoring.py:115-122 | a missing session and a non-WISC-IV session fail first; then no table for the service's age fails with that age, a table whose file is absent fails with its path, and otherwise it returns the age, the table the registry query picks and that table's rows |
| Pipeline.ScoreItems | backend/apps/wisc/services/scoring.py:128-134 | rows keep session, subtest and raw score; other sessions' rows are untouched; it succeeds exactly when every row of the session converts, and then every such row holds its looked-up scaled score and the map is the scaled scores by subtest, last row winning; a failure names the first row of the session that does not convert |
| Pipeline.ReadComposites | backend/apps/wisc/services/scoring.py:144-148 | succeeds exactly when ICV, IOP, IMO, IVP and QIT are all present, and then returns them |
| Pipeline.Compose | backend/apps/wisc/services/scoring.py:136-148 | a missing subtest or a failing converter surfaces as the composition error; when both steps succeed the result is what is read from the converter's answer |
| Pipeline.ScoreWisc4Session | backend/apps/wisc/services/scoring.py:113-155 | every failure leaves the store unchanged; a failing run reports the first failing stage's own error: missing session, wrong instrument, no table for the age, missing table file, no raw scores, the first raw score that does not convert, or the composition error; it succeeds exactly when every step does, and then the record holds the service's age, the chosen table's key and the composites of the collected scaled scores; each item stores its looked-up scaled score, the result is upserted, the session is marked scored and nothing else changes |
| Pipeline.ScoreLoaded | backend/apps/wisc/services/scoring.py:124-137 | no raw scores fails with that error and leaves the store; otherwise the loop's writes are kept, and a loop failure or a composition failure is reported as such |
| Pipeline.Finish | backend/apps/wisc/services/scoring.py:128-153 | the loop's writes are kept; a loop or composition failure is reported and nothing else changes; otherwise the record holds the age, the table key and the composites, it is upserted and the session marked scored |
| Pipeline.RepositoryNeverScores | backend/apps/wisc/services/scoring.py:136-137 | with the repository's converter no session is ever scored, and the store is left as it was |
| Pipeline.BodyWritesBeforeCompositionFails | backend/apps/wisc/services/scoring.py:128-137 | without the transaction, a failure at the composite step would already have written a scaled score into every raw-score row of the session |
| Pipeline.CollectedLastWins | backend/apps/wisc/services/scoring.py:130-134 | the last row of the session for a subtest decides that subtest's collected scaled score |
| Pipeline.ScoreItemsRerun | backend/apps/wisc/services/scoring.py:128-134 | running the item loop again over rows it has written changes nothing and gives the same map |
| Pipeline.FinishRerun | backend/apps/wisc/services/scoring.py:139-153 | upserting the same result and setting the status to scored a second time changes nothing |
| WorkedExample.ScoringSucceeds | backend/apps/wisc/services/scoring.py:113-155 | a session 86 months old whose nine raw scores all convert is scored with age 86, the registered table's key and the converter's composites, and the session is marked scored |
| Pipeline.RescoringIsIdempotent | backend/apps/wisc/services/scoring.py:113-155 | scoring a session again right after a successful scoring returns the same result and the same store |

## Left out

- Reading CSV files is not modelled: the file system, UTF-8 with a byte-order mark, `Path.resolve`
  and `exists`. A norm table is a value, an already parsed list of rows looked up by path. A
  missing path is the `CsvNotFound` error.
- The `lru_cache` on table loading is not modelled. It only remembers results, which the model's pure
  functions do not need. A file changed on disk after it was cached is outside the model.
- `folder.iterdir()` and `is_file()` are not modelled. The index is built from the list of names of
  the regular files in the folder, in the order the directory lists them.
- Python's `int()` on a cell's text is not modelled. Each cell carries the text together with
  what `int()` makes of it.
- Python's `re` is modelled only for ASCII. `\d` matches only ASCII digits here, and the
  case-insensitive match folds only ASCII letters. Python also accepts other Unicode decimal
  digits, and a few non-ASCII letters that it folds to `i` or `s`.
- `dateutil.relativedelta` is a parameter and is not interpreted. Its month-end day clamping
  can make the service's age differ from `age.py`. Only the service's `12·years + months`
  is modelled.
- The Django ORM and `update_or_create` are not modelled. The store is a set of maps and
  sequences. Raw scores come in the order the database returns them. The
  `(session, subtest)` uniqueness is not needed by any contract.
- The transaction mechanism is modelled only by its all-or-nothing outcome.
- Timestamps (`created_at`, `updated_at`, `scored_at`) come from the clock and are not modelled.
- Error message texts are not modelled. Errors are datatype values naming the data involved.
- The database's bound of 2147483647 on `PositiveIntegerField` columns is not modelled.
  Bounds are unbounded naturals.
- Concurrency and the HTTP routers are not modelled. Patient and guardian records are left
  out beyond the birth date joined into the session.
- `AgeBand.file` is the entry's name, not the full path the code keeps, because the folder is
  not modelled. `PickTableForAge` returns that name.
- NormTables.CalcAgeMonths: has no partner beyond its own formula. The calendar arithmetic of
  `relativedelta` is a parameter, so nothing relates the service's age to `age.py`.
- NormTables.PickNormTable: the contract promises only a table with the smallest `min_months`. The
  database leaves the order of tables with equal `min_months` open. The model's body takes
  the earliest in registry order.
