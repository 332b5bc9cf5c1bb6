# MBAORT academic management, modelled in Dafny

MBAORT is a single-writer administrative tool for an MBA/EMBA programme. It
keeps a course catalogue imported from a consolidated schedule workbook,
students, versioned study plans, enrollments and an append-only change log.
It enforces the "5 of 8" rule: at least five completed electives in one
orientation. This project models the part of the program that decides
things, and leaves out the rendering:

- **Schedule import** (`lib/validators.py`, `lib/io_excel.py`), in modules
  `Validators`, `IoExcel`, `ImportProperties` and `Reimport`:
  - the 19-column presence check;
  - cell clean-up for hours, year, dates and text;
  - the per-row null and type checks, whose errors are all collected;
  - the upsert loop over `Course` and `CourseSource`, with its four counters
    and its per-row error isolation;
  - the single commit that may fail and roll back.
  The importer is an imperative method on a `Database` object. It is proved
  equal to a function of the old snapshot. The properties are lemmas over
  that function: abort before write, skip only the bad row, never clear a
  stored value with a missing one, and a second import of the same sheet
  changes nothing.
- **Progress engine** (`lib/metrics.py`), in module `Metrics`:
  - the plan in force by validity window;
  - the completed electives and their split by orientation;
  - the 5-of-8 rule and the risk band;
  - the cohort and programme aggregates.
- **Entities and change log** (`lib/models.py`, `lib/helpers.py`), in
  modules `Models` and `Helpers`. `Models` holds the records, the keys and
  uniqueness constraints the database enforces, and the references it only
  declares. `Helpers` appends one log entry, stamped with the time of the
  call.
- **Page rules** (`pages/02_Estudiantes.py`, `pages/03_Planes.py`,
  `pages/03_Rutas.py`, `pages/04_Inscripciones.py`, `pages/05_Auditoria.py`,
  `pages/06_Reportes.py`), one module each:
  - `Estudiantes`: the student bulk import, guarded creation, the
    field-by-field update with logging, and delete.
  - `Planes`: the duplicate-enrollment guard, the completion stamp, and the
    summary.
  - `Rutas`: plan versioning (first version, close and successor, a new
    version when none is in force), the orientation check of planned
    electives, and the catalogue filter.
  - `Inscripciones`: enrollment alerts, the plan-against-enrollment
    comparison, and bulk creation of enrollments.
  - `Reportes`: demand reports, compliance figures, and the risk table.
  - `Auditoria`: the audit-log query and its counts.

Shared modules hold Python's meaning of the library operations used:
- `Text`: `strip`, `split`, `join`, `lower` and substring tests.
- `Counter`: dictionaries of counts in insertion order.
- `Seqs`: comprehensions and the stable `sorted`.
- `Cells`: spreadsheet cell values.
- `Dates`: dates and naive timestamps.
- `Wrappers`: the optional value used for `None`.

Conventions:
- Storage is a `Tables` snapshot of sequences, one per table, in row order.
  `Database` is the object that methods update; `Snapshot()` reads it.
- The clock (`datetime.now`/`utcnow`) is a parameter `now`. So is the text
  date parser pandas applies to date cells.
- Timestamps are calendar fields plus the microsecond of the day, so they
  compare as Python's values do.
- Where the program loops and accumulates, the model is a method with loop
  invariants. The method is proved equal to a specification function, and
  the properties are lemmas about that function.

## Model

| member | source | states |
|---|---|---|
| Text.Strip | lib/io_excel.py:13 | `str.strip()`: the result is empty exactly when the text is all white space; otherwise it neither starts nor ends with white space |
| Text.StripUnchanged | lib/io_excel.py:13 | text that neither starts nor ends with white space is its own strip |
| Text.StripIdempotent | lib/io_excel.py:13 | stripping twice is stripping once |
| Text.SplitJoin | lib/io_excel.py:15 | splitting words joined by single spaces gives the same words back |
| Text.SplitWords | lib/io_excel.py:15 | every piece `split()` returns is non-empty and free of white space |
| Text.SplitFromEmpty | lib/io_excel.py:15 | `split()` returns nothing exactly when the text is all white space |
| Text.JoinCollapsed | lib/io_excel.py:15 | joining words with one space leaves no white space at either end and no run of two |
| Text.SqueezeCollapsed | lib/io_excel.py:15 | `" ".join(s.split())` leaves only single plain spaces between words |
| Text.SqueezeKeepsWords | lib/io_excel.py:15 | collapsing white space keeps exactly the words of the input, in order |
| Text.SqueezeIdempotent | lib/io_excel.py:15 | collapsing twice is collapsing once |
| Text.SqueezeEmpty | lib/io_excel.py:15 | the collapsed text is empty exactly when the input is all white space |
| Text.Lower | pages/03_Rutas.py:243 | `str.lower()` on ASCII and Latin-1 letters: keeps the length and maps each character on its own |
| Wrappers.OrDefault | pages/06_Reportes.py:69 | `x or default` keeps a non-empty text and falls back for NULL and "" |
| Text.LowerAscii | pages/05_Auditoria.py:54 | SQLite's `lower()` keeps the length and folds only `A`-`Z` |
| Text.ContainsAt | pages/03_Rutas.py:243 | `sub in s` holds exactly when `sub` occurs at some position of `s` |
| Text.NatToString | pages/02_Estudiantes.py:55 | `str(n)` is a non-empty run of decimal digits without a leading zero |
| Text.NatToStringValue | pages/02_Estudiantes.py:55 | reading back the digits of `str(n)` gives `n` |
| Text.NatToStringLength | pages/02_Estudiantes.py:55 | a number below `10^k` is written with at most `k` digits |
| Dates.DateLeTotal | pages/05_Auditoria.py:47-50 | `<=` on dates is total and antisymmetric |
| Dates.DateLeTrans | pages/05_Auditoria.py:47-50 | `<=` on dates is transitive |
| Dates.StampLeOrder | pages/05_Auditoria.py:69 | `<=` on timestamps is a total order |
| Dates.DayWindow | pages/05_Auditoria.py:47-50 | a timestamp lies between the start of day `d1` and the end of day `d2` exactly when its date lies between `d1` and `d2` |
| Dates.DayNumberOrder | pages/05_Auditoria.py:69 | numbering the dates preserves and reflects their order and is one-to-one |
| Dates.StampKeyOrder | pages/05_Auditoria.py:69 | on real timestamps the numeric key orders as `<=` does, so sorting by it is sorting by time |
| Dates.ShowStamp | pages/02_Estudiantes.py:157-160 | `str(datetime)` is the date, a space and the time, 19 or 26 characters long |
| Cells.Normalize | pages/02_Estudiantes.py:157-160 | the number a float cell holds, written with no trailing fraction zero, has the same value |
| Cells.Show | pages/02_Estudiantes.py:157-160 | `str(cell)`: a text cell is its text and a missing cell reads "nan" |
| Counter.ArgMax | lib/metrics.py:88 | `max(counts.items(), key=...)` picks an entry whose count is the largest and no earlier entry has that count |
| Counter.TallyOfShape | lib/metrics.py:66-76 | a count per group has distinct keys, positive counts and counts adding up to the number of rows |
| Counter.TallyOfGet | lib/metrics.py:66-76 | the count of a key is the number of rows with that key |
| Counter.TallyOfKeys | lib/metrics.py:66-76 | the keys are exactly the values that occur |
| Counter.DistinctKeysCard | lib/metrics.py:66-76 | with distinct keys there are as many entries as different keys |
| Seqs.SortDescCorrect | pages/05_Auditoria.py:69 | `ORDER BY ... DESC`: the result is ordered by key, largest first, and holds the same rows, each as often |
| Models.StatusNameInjective | lib/models.py:104 | different statuses are stored as different strings |
| Models.NextId | lib/models.py:37 | the id of the next inserted row is positive, unused and above every id in use |
| Models.LookupKeyIsNotUniqueKey | lib/models.py:46 | two sources the importer's lookup tells apart by `modulo` can still violate `uq_course_source` |
| Models.LookupKeyRefinesUniqueKey | lib/models.py:46 | sources with the same lookup key and non-NULL tab and row violate `uq_course_source` |
| Models.NullTabNeverClashes | lib/models.py:46 | a source whose tab is NULL never violates `uq_course_source`, since SQL NULLs are distinct |
| Helpers.Bare | lib/helpers.py:6-14 | the optional arguments of `log_change` default to `None` |
| Helpers.NewEntry | lib/helpers.py:17-26 | the inserted entry has a fresh id above every earlier one, the time of the call, and the arguments as given |
| Helpers.LoggedAppendsOne | lib/helpers.py:16-28 | a logged change adds exactly one entry at the end, keeps every other row and table, and keeps the enforced keys |
| Helpers.LogChange | lib/helpers.py:6-28 | the database afterwards is the database before with the one new entry appended |
| Metrics.LatestQualifying | lib/metrics.py:19-31 | the row `ORDER BY vigente_desde DESC ... first()` returns: in force for the student, with the latest start, and the first such in key order; none exactly when no plan of the student is in force |
| Metrics.CurrentPlan | lib/metrics.py:13-32 | `get_current_plan`: a plan of the student in force at `now` whose start is the latest, or `None` exactly when none is in force |
| Metrics.OnlyQualifyingIsCurrent | lib/metrics.py:13-32 | when exactly one plan of the student is in force, it is the current plan |
| Metrics.CountElectivesCompleted | lib/metrics.py:35-56 | the count is 0 exactly when no enrollment is a completed one of the student in an existing course of the elective type |
| Metrics.Orientations | lib/metrics.py:65-72 | one orientation per counted enrollment |
| Metrics.Label | lib/metrics.py:76 | `orient or "sin_orientacion"`: NULL and the empty string fall back to "sin_orientacion"; any other orientation is kept |
| Metrics.ElectiveCountsByOrientation | lib/metrics.py:59-76 | the corrected counts per orientation, with "" and NULL merged into one "sin_orientacion" entry: distinct labels, positive counts, adding up to the completed electives |
| Metrics.ByOrientationGet | lib/metrics.py:59-76 | the count of a label is the number of completed electives carrying it |
| Metrics.ByOrientationTotal | lib/metrics.py:105 | the counts add up to `count_electives_completed`, and there are none exactly when that is 0 |
| Metrics.MergedGroupsUndercount | lib/metrics.py:73-76 | as written, a NULL and an empty orientation form two SQL groups whose counts the comprehension merges by overwriting, so two completed electives are reported as one |
| Metrics.RelabelMerges | lib/metrics.py:76 | two groups with the same label leave one entry holding the later count |
| Metrics.ElectiveCountsAsWritten | lib/metrics.py:59-76 | the comprehension as written never reports more electives than were completed |
| Metrics.PutTotal | lib/metrics.py:76 | storing one group's count under a key raises the total by at most that count |
| Metrics.RelabelTotal | lib/metrics.py:73-76 | relabelling the SQL groups never raises the total |
| Metrics.LabelKeys | lib/metrics.py:76 | the groups with each key replaced by its label, counts unchanged |
| Metrics.FindLabelKeys | lib/metrics.py:76 | on keys other than "" and "sin_orientacion" the lookup finds the same position before and after labelling |
| Metrics.BumpLabelKeys | lib/metrics.py:76 | counting a clear key and then labelling equals labelling and then counting its label |
| Metrics.TallyOfLabels | lib/metrics.py:59-76 | without "" or "sin_orientacion" among the orientations, grouping the labels equals labelling the groups |
| Metrics.RelabelDistinct | lib/metrics.py:73-76 | on distinct clear keys the comprehension overwrites nothing and only renames |
| Metrics.AsWrittenAgrees | lib/metrics.py:59-76 | when no completed elective has the orientation "" or literally "sin_orientacion", the counts as written equal the corrected counts |
| Metrics.RuleOf | lib/metrics.py:84-91 | no counts fail the rule with no orientation; otherwise the best is the first largest count, and the rule holds exactly when some count reaches the requirement |
| Metrics.RuleMeaning | lib/metrics.py:79-91 | on the corrected counts, the 5-of-8 rule holds exactly when some orientation label carries at least `required_count` completed electives |
| Metrics.CheckRule5Of8 | lib/metrics.py:79-101 | `check_rule_5_of_8`: no best orientation exactly when nothing is completed, and then `(False, None, 0)`; otherwise the best count is the number of completed electives with that label |
| Metrics.BestCountIsOccurrences | lib/metrics.py:84-91 | the best orientation's count is the number of completed electives carrying its label |
| Metrics.Band | lib/metrics.py:119-124 | gap 0 is low, 1 or 2 medium, more than 2 high |
| Metrics.RiskOf | lib/metrics.py:104-132 | no counts give gap `target`, high risk and zeros; otherwise the total, the best of the rule, the gap `max(0, target - best)` and its band |
| Metrics.LowRiskIffRule | lib/metrics.py:90-120 | low risk and meeting the rule with the same target coincide |
| Metrics.RiskBands | lib/metrics.py:104-132 | on the corrected counts, with completed electives the risk is high exactly when the gap exceeds 2 and the total is the completed count; without any it is high with gap `target` |
| Metrics.RiskScore | lib/metrics.py:104-132 | `calculate_risk_score`: zeros, gap `target` and high risk without completed electives; low risk exactly when the rule holds with the same target, and the same best orientation |
| Metrics.TrueCount | lib/metrics.py:152-154 | the number of set flags: all of them exactly when every flag is set, none exactly when none is |
| Metrics.Verdicts | lib/metrics.py:152-154 | one rule verdict per student of the group |
| Metrics.CompliantCount | lib/metrics.py:152-154 | on the corrected counts, at most the group size, and equal to it exactly when every student meets the rule |
| Metrics.CompletedSum | lib/metrics.py:155-157 | 0 exactly when no student of the group completed an elective |
| Metrics.Rate | lib/metrics.py:163 | `part / whole`: the rate times the whole is the part, it lies in [0, 1], and it is 1 exactly when the part is the whole |
| Metrics.Mean | lib/metrics.py:155-157 | the average times the group size is the sum |
| Metrics.AggregateOf | lib/metrics.py:144-165 | on the corrected counts: an empty group gives zeros and no rate; otherwise the size, the compliant count, the rate `compliant / size` (in [0, 1], 1 exactly when all comply) and the average `sum(completed) / size` |
| Metrics.StudentIds | lib/metrics.py:142 | the ids of the students, in order |
| Metrics.CohortMetrics | lib/metrics.py:135-165 | on the corrected counts, the aggregate of the ids of the cohort's students: the size is their number (0 exactly when there are none) and the compliant count is the number of them that meet the rule |
| Metrics.CompliantAmong | lib/metrics.py:143-154 | on the corrected counts, the compliant count of a group's ids is the number of the group's students that meet the rule |
| Metrics.HoldsAmong | lib/metrics.py:152-154 | counting a flag over a group's ids counts the group's students whose id has it |
| Metrics.ProgramMetrics | lib/metrics.py:168-198 | on the corrected counts, the aggregate of the ids of the program's students: the size is their number (0 exactly when there are none) and the compliant count is the number of them that meet the rule |
| Validators.IndexOfAny | lib/validators.py:41 | the first position of a character of the set, before which none occurs, or the length when none does |
| Validators.Trunc | lib/validators.py:52 | `int()` of a float truncates toward zero |
| Validators.SafeFloat | lib/validators.py:36-44 | missing cells and timestamps give `None`; numbers are kept; text gives the value of the decimal grammar the model reads or `None` |
| Validators.SafeInt | lib/validators.py:47-54 | defined exactly when `_safe_float` is, and then the truncation of its value |
| Validators.Missing | lib/validators.py:65 | the missing columns are exactly the expected ones absent from the sheet |
| Validators.CoerceDate | lib/validators.py:29-31 | `to_datetime(errors="coerce")` gives a timestamp or nothing, keeps timestamps and keeps missing cells missing |
| Validators.CoerceRow | lib/validators.py:80-92 | the coerced row has one cell per column |
| Validators.ColumnIndex | lib/validators.py:101-119 | the position of a present column, or the number of columns exactly when it is absent |
| Validators.ValidateSpec | lib/validators.py:57-141 | a rejection carries one missing-columns error; a checked sheet keeps its columns and rows and has every expected column |
| Validators.MissingColumnsOf | lib/validators.py:65 | the loop collects exactly the missing columns, in expected order |
| Validators.CoerceRows | lib/validators.py:80-92 | the coercion loop gives every row its coerced form |
| Validators.CollectFailures | lib/validators.py:124-129 | the loop over the rows of one check collects that check's failures |
| Validators.CheckColumns | lib/validators.py:124-129 | the loop over the columns collects the failures of every check |
| Validators.Validate | lib/validators.py:57-141 | the validation returns what the specification of `validate_cronograma_df` gives |
| Validators.SchemaNamesExpected | lib/validators.py:99-122 | the schema checks exactly the expected columns, in the same order |
| Validators.CoercedWellFormed | lib/validators.py:80-96 | coercion keeps the sheet rectangular, its names distinct and its cells well formed |
| Validators.MissingNone | lib/validators.py:65-68 | with every expected column present nothing is missing |
| Validators.RejectedIffMissing | lib/validators.py:64-68 | the sheet is rejected exactly when an expected column is missing, and then with one error naming exactly the missing columns |
| Validators.ExtraColumnsAllowed | lib/validators.py:121 | columns beyond the expected ones never cause a rejection and are kept |
| Validators.CoercedColumns | lib/validators.py:80-92 | after coercion hours are numbers or nothing, years integers or nothing, dates timestamps or nothing; other columns are untouched |
| Validators.MantissaRejects | lib/validators.py:41-44 | a character that is neither digit nor point makes the mantissa unreadable |
| Validators.ExponentRejects | lib/validators.py:41-44 | a non-digit other than a leading sign makes the exponent unreadable |
| Validators.UnsignedRejectsForeign | lib/validators.py:41-44 | in the decimal grammar the model reads, a character outside digits, point, exponent marks and signs makes the number unreadable |
| Validators.UnsignedRejectsSign | lib/validators.py:41-44 | without an exponent mark, a sign in the body makes the number unreadable |
| Validators.ForeignCharRejected | lib/validators.py:43 | text with any other character, such as "N/A", is outside the decimal grammar the model reads, so both safe conversions give `None` |
| Validators.InnerSignRejected | lib/validators.py:43 | with no exponent, a sign anywhere but first is rejected, so "16+4" gives `None` |
| Validators.SignedBody | lib/validators.py:41 | a position past a leading sign is the matching position of the unsigned body |
| Validators.BodyRejected | lib/validators.py:40-44 | an unreadable body makes the whole text fail as a float and as an integer |
| Validators.UnsignedDigits | lib/validators.py:41 | a run of digits reads as the integer it denotes |
| Validators.IntegerTextRoundTrip | lib/validators.py:52 | `int(float(str(i)))` is `i`, as the comment on "2.0" intends |
| Validators.IntegerTextParses | lib/validators.py:41 | `float(str(i))` is `i` |
| Validators.IntegerTextShape | lib/validators.py:41 | `str(i)` has no surrounding white space and a sign only in front, for negative numbers |
| Validators.TruncWhole | lib/validators.py:52 | truncating a whole number gives it back |
| Validators.FailuresExact | lib/validators.py:124-129 | a row of a check is reported exactly when its cell fails that check, with the cell's value |
| Validators.SchemaErrorsUnion | lib/validators.py:124-129 | the lazy validation reports the union of every column's failures |
| Validators.ColumnsErrorsExact | lib/validators.py:124-129 | the failures reported are exactly the failing cells of the checked columns, with their row, column and value |
| Validators.CheckedErrorsExact | lib/validators.py:98-129 | a checked sheet's errors are exactly its cells that break a null or type rule of the schema |
| Validators.ErrorText | lib/validators.py:65-129 | the missing-columns message names the columns; a cell message starts with row, column and "->" |
| Validators.SignedTextEnds | lib/validators.py:41 | the text of a negative number neither starts nor ends with white space |
| IoExcel.NormStr | lib/io_excel.py:10-16 | `None` exactly for a missing cell; otherwise a collapsed text with the cell text's words, empty exactly when that text is white space only |
| IoExcel.NormStrIdempotent | lib/io_excel.py:13-15 | normalising an already normalised text gives it back |
| IoExcel.NormStrBlankText | lib/io_excel.py:11-15 | a text of white space only becomes the empty string, not `None` |
| IoExcel.HoursField | lib/io_excel.py:75-83 | the hours are `float()` of the cell when it is readable and `None` otherwise |
| IoExcel.DateField | lib/io_excel.py:94-105 | as corrected: a validated date cell gives its date part, a blank one nothing |
| IoExcel.Get | lib/io_excel.py:54 | `row.get` gives the cell of the named column, or a missing cell when the column is absent |
| IoExcel.RowCourse | lib/io_excel.py:59-105 | the course a row describes carries the row's id, and has an Inicio (a Final) exactly when that cell holds a timestamp |
| IoExcel.RowSource | lib/io_excel.py:150-153 | the source a row describes carries the row's id and its sheet row, the index plus two |
| IoExcel.Overlay | lib/io_excel.py:112-128 | every non-`None` new value ends up in the course; every `None` leaves the stored field as it was |
| IoExcel.OverlayChanges | lib/io_excel.py:126-130 | the course changes exactly when some new value is not `None` and differs; applying the same row twice changes nothing more |
| IoExcel.CourseStep | lib/io_excel.py:107-148 | the course upsert leaves the sources, the errors and the source counters untouched |
| IoExcel.CourseStepEffect | lib/io_excel.py:107-148 | a known course is overlaid and counted as updated only when it changed; an unknown one is queued and counted as created |
| IoExcel.Matching | lib/io_excel.py:155-158 | the lookup returns, in order, exactly the loaded sources that match the row's key |
| IoExcel.SourceStep | lib/io_excel.py:150-178 | the source upsert leaves the courses and the course counters untouched |
| IoExcel.SourceStepEffect | lib/io_excel.py:155-181 | no match queues a new source; one match updates its orientation when a new one differs; several matches make `one_or_none` fail and record a row error |
| IoExcel.ReadRow | lib/io_excel.py:53-92 | a row is skipped exactly when its id normalises to nothing; otherwise it upserts a course and a source with that id, the source at row index plus two |
| IoExcel.EmptyIdSkipsRow | lib/io_excel.py:54-57 | a row with an empty or blank id adds one "MateriaID vacío" error and changes nothing else; any other row is upserted |
| IoExcel.CourseMap | lib/io_excel.py:183-184 | the pending courses become rows keyed each by its own id, one per id queued |
| IoExcel.Assign | lib/io_excel.py:170-177 | the pending sources get consecutive new ids and keep every field and their sheet row |
| IoExcel.UpsertCourse | lib/io_excel.py:107-148 | the method performs the course upsert as specified |
| IoExcel.UpsertSource | lib/io_excel.py:150-178 | the method performs the source upsert as specified |
| IoExcel.ProcessRow | lib/io_excel.py:53-181 | one loop iteration is the specified row step |
| IoExcel.RunRows | lib/io_excel.py:51-181 | the loop visits the rows in order, reaching the state the specified run gives |
| IoExcel.ImportSchedule | lib/io_excel.py:19-189 | as corrected (a blank date is `None`): the importer returns the summary, and leaves the store, that the specification of `import_schedule_excel` gives |
| IoExcel.Finish | lib/io_excel.py:183-187 | a commit that can succeed stores the session's work; one that cannot adds the save error and leaves the store as it was |
| IoExcel.OverlayAsWritten | lib/io_excel.py:110-128 | as written, both date fields take the row's value, NaT included; the other fields overlay as corrected, and with both dates present it is the corrected overlay |
| IoExcel.CourseStepAsWrittenEffect | lib/io_excel.py:108-148 | as written, a blank date of a loaded course is written and counted as an update, and one of an unknown id builds a pending course with NaT; without blank dates the step is the corrected upsert |
| IoExcel.FinishAsWritten | lib/io_excel.py:183-187 | as written, the commit fails with the save error and stores nothing while a course to flush holds NaT; otherwise it is the corrected commit |
| IoExcel.RunAsWrittenKeys | lib/io_excel.py:52-181 | the loop as written keeps the loaded course ids, and a pending course with NaT stays pending |
| IoExcel.PendingNaTPersists | lib/io_excel.py:132-148 | a blank date in a row with a new id leaves a pending course with NaT at the end of the loop |
| IoExcel.HoldingPersists | lib/io_excel.py:108-128 | a loaded course whose last row has a blank date still holds NaT at the end of the loop |
| IoExcel.DatedRowAgrees | lib/io_excel.py:56-181 | a row without blank dates steps as written as it does corrected |
| IoExcel.DatedRunAgrees | lib/io_excel.py:52-181 | rows without blank dates run as written as they do corrected |
| IoExcel.DatedFrameAgrees | lib/io_excel.py:52-181 | over a sheet whose upserted rows have both dates, the loop as written is the corrected loop |
| IoExcel.DatedImportAgrees | lib/io_excel.py:19-189 | when every upserted row has both dates, the import as written is the corrected import |
| IoExcel.BlankDateLeavesNaT | lib/io_excel.py:85-148 | a blank date in an upserted row whose id is new, or not repeated later, leaves NaT in a course to flush |
| IoExcel.BlankDateFailsImport | lib/io_excel.py:85-187 | as written, such a row makes the import store nothing and end with the save error |
| IoExcel.ImportAsWrittenOfChecked | lib/io_excel.py:42-189 | on a checked sheet, the import as written is the loop as written followed by its commit |
| IoExcel.BlankDateKeepsStored | lib/io_excel.py:126 | as corrected, a blank date keeps the stored date of a loaded course, and a row's dates never decide whether the commit succeeds |
| ImportProperties.UnreadableWritesNothing | lib/io_excel.py:33-40 | a workbook that cannot be read gives zero counters, one read error, and no write |
| ImportProperties.InvalidWritesNothing | lib/io_excel.py:42-46 | a sheet with validation errors gives zero counters and exactly those errors, and no write |
| ImportProperties.FailedCommitKeepsCounters | lib/io_excel.py:183-187 | a failed commit rolls the store back and adds one save error after the loop's errors, keeping the loop's counters |
| ImportProperties.MatchingKeys | lib/io_excel.py:155-158 | the source lookup reads only the key columns, so updating an orientation does not change what later rows find |
| ImportProperties.CourseStepShaped | lib/io_excel.py:107-148 | the course upsert keeps the loaded course ids and the source key columns |
| ImportProperties.SourceStepShaped | lib/io_excel.py:161-168 | the source upsert changes at most `orientacion_fuente` of a loaded source |
| ImportProperties.RowStepShaped | lib/io_excel.py:52-181 | one row keeps the loaded course ids and the source key columns |
| ImportProperties.RunShape | lib/io_excel.py:52-181 | the whole loop keeps the loaded course ids and every key column of the loaded sources |
| ImportProperties.FreshIdsDistinct | lib/models.py:37 | autoincrement ids above every loaded one keep the source ids distinct |
| ImportProperties.CommitKeepsConstraints | lib/models.py:35-46 | a successful commit leaves courses keyed by id, distinct source ids, sources referring to existing courses, and `uq_course_source` kept |
| ImportProperties.RowStepNewCourses | lib/io_excel.py:131-147 | a row queues a new course exactly when its id is not loaded |
| ImportProperties.RunCourseKeys | lib/io_excel.py:108 | the loop never adds to the loaded courses; new ones only wait for the commit |
| ImportProperties.RowStepCountId | lib/io_excel.py:108-147 | a row with id `k` not in the store queues `k` once; any other row queues no `k` |
| ImportProperties.QueuedCourses | lib/io_excel.py:108-147 | an id the store lacks is queued once for every row that carries it, since the session does not autoflush |
| ImportProperties.RowsWithIdCounts | lib/io_excel.py:52 | two rows with the same id are both counted among the rows read so far |
| ImportProperties.CountTwiceNotDistinct | lib/models.py:20 | an id queued twice breaks the uniqueness of the course key |
| ImportProperties.DuplicateNewIdFailsCommit | lib/io_excel.py:108-187 | two rows bringing the same new MateriaID make the commit fail, so nothing of the sheet is stored |
| ImportProperties.RowStepNewSources | lib/io_excel.py:169-178 | a row queues a source exactly when the lookup finds none |
| ImportProperties.NewSourcesGrow | lib/io_excel.py:177 | pending sources are only appended, never removed or changed |
| ImportProperties.NoMatchForOtherModule | lib/io_excel.py:155-158 | a row that differs from a stored source only in its module is not found by the lookup |
| ImportProperties.QueuedWhenUnmatched | lib/io_excel.py:169-178 | a row the lookup does not find ends up, unchanged, among the pending sources |
| ImportProperties.PendingClashFailsCommit | lib/models.py:46 | a pending source with the unique key of a loaded one breaks `uq_course_source` |
| ImportProperties.ModuleChangeFailsCommit | lib/io_excel.py:155-187 | re-importing a row whose module changed queues a duplicate of the stored source's unique key, so the commit fails |
| Reimport.RowStepErrors | lib/io_excel.py:53-181 | a row never removes an error; a row with no id or an ambiguous source adds one |
| Reimport.ErrorsGrow | lib/io_excel.py:52-181 | the error list only grows along the loop |
| Reimport.AtMostOneMatching | lib/io_excel.py:155-158 | `one_or_none` succeeds exactly when at most one stored source has the row's key |
| Reimport.NoErrorsClean | lib/io_excel.py:52-181 | a loop that reports no error met neither an empty id nor an ambiguous lookup |
| Reimport.CoursesRun | lib/io_excel.py:107-148 | after the loop every row's course id is set to a course agreeing with all its values, when rows of one id agree |
| Reimport.PendingRun | lib/io_excel.py:169-178 | every pending source is the source of a row the lookup did not find, at most one per sheet row |
| Reimport.SourceStepFits | lib/io_excel.py:161-166 | the one source a lookup finds ends up with the row's orientation, unless that is `None` |
| Reimport.LoadedFitRun | lib/io_excel.py:155-168 | after a clean loop every stored source some row found agrees with that row's orientation |
| Reimport.SettledNew | lib/io_excel.py:170-177 | a row the lookup did not find finds, once committed, exactly the source it queued, holding its orientation |
| Reimport.SettledLoaded | lib/io_excel.py:155-168 | a row that found one stored source finds just that one after the commit |
| Reimport.SettledRow | lib/io_excel.py:150-178 | after a clean first run each row finds exactly one committed source, agreeing with its orientation |
| Reimport.RowNoOp | lib/io_excel.py:109-168 | a row whose course and source already hold its values changes nothing and moves no counter |
| Reimport.IdleRun | lib/io_excel.py:52-181 | over rows that are all settled the loop ends where it started |
| Reimport.FirstRunSettles | lib/io_excel.py:52-187 | a first run with no error, over rows whose shared ids agree, leaves every row settled in the committed store |
| Reimport.ImportOfChecked | lib/io_excel.py:42-189 | a sheet validated without errors goes through the loop and its commit |
| Reimport.CleanFirstImport | lib/io_excel.py:33-189 | an import that reports no error validated the sheet cleanly, met no bad row and committed |
| Reimport.SettledImport | lib/io_excel.py:52-187 | an import whose rows are all settled returns zero counters and no error and leaves the store unchanged |
| Reimport.StartCommits | lib/io_excel.py:183-184 | committing a session that did nothing leaves the store as it was |
| Reimport.ReimportChangesNothing | lib/io_excel.py:19-189 | importing again a sheet that imported without errors creates nothing, updates nothing and leaves the store as the first import left it |
| Rutas.CountsCoverItems | pages/03_Rutas.py:44-46 | the planned and backup counts add up to the number of items, since every item is one or the other |
| Rutas.StudentPlansOrdered | pages/03_Rutas.py:32 | the page's plan list holds exactly the student's plans, ordered by version number |
| Rutas.DeleteItem | pages/03_Rutas.py:155-161 | the method performs the specified removal and its log entry |
| Rutas.RemoveItemExact | pages/03_Rutas.py:155-161 | removing an item deletes exactly the rows with its id, leaves plans and enrollments alone, and adds one log entry |
| Rutas.RemoveItem | pages/03_Rutas.py:155-161 | removing an item never adds item rows, adds one log entry and leaves plans, enrollments and students alone |
| Rutas.MaxVersion | pages/03_Rutas.py:293 | `max` of the version numbers is one of them and no smaller than any |
| Rutas.CurrentOverview | pages/03_Rutas.py:38-67 | an overview exists exactly when a plan is in force; it shows that plan, planned and backup counts covering its items, and "complete" exactly at eight planned |
| Rutas.PlannedLabels | pages/03_Rutas.py:73-84 | one orientation label per planned elective of the plan |
| Rutas.OrientationCounts | pages/03_Rutas.py:81-84 | the loop counts each orientation once per planned elective, with distinct positive keys summing to the number of planned electives |
| Rutas.OutlookOf | pages/03_Rutas.py:86-98 | no electives gives the "none yet" warning; otherwise the first largest count is rated reachable at five or more, short at three or four, at risk below, with the gap to five |
| Rutas.ReachableIffFive | pages/03_Rutas.py:87-92 | the goal is shown as reachable exactly when some orientation has five or more planned electives |
| Rutas.NewPlan | pages/03_Rutas.py:294-300 | a new plan has a fresh id, the given version, starts at `now` and is open-ended |
| Rutas.CreateFirstVersion | pages/03_Rutas.py:168-187 | creating version 1 inserts the plan and its log entry as specified, for a student without plans |
| Rutas.AddedPlanIsCurrent | lib/metrics.py:13-32 | an open plan starting now, added when nothing qualifies, is the plan in force now |
| Rutas.FirstVersionIsCurrent | pages/03_Rutas.py:177-187 | version 1 is the student's plan in force from the moment it is created |
| Rutas.CloseIn | pages/03_Rutas.py:285-287 | closing sets the end of the plan with that id to `now` and changes nothing else |
| Rutas.CloseAsWrittenLeavesNoPlan | pages/03_Rutas.py:284-304 | as written, the close is committed and the log call then fails, so a student whose only plan was closed has no plan in force afterwards and no log entry |
| Rutas.CloseAsWritten | pages/03_Rutas.py:284-289 | as written, only the close is stored: the plan with that id ends at `now`, no log entry and no item change |
| Rutas.CloseAndReplace | pages/03_Rutas.py:282-306 | the method performs the intended close-and-successor step as specified |
| Rutas.StudentPlansNonEmpty | pages/03_Rutas.py:32 | a student with some plan has a non-empty plan list containing each of them |
| Rutas.SuccessorExceeds | pages/03_Rutas.py:284-304 | the intended step ends the closed plan at `now` and adds one open plan from `now` whose version exceeds all of the student's |
| Rutas.CloseAndSucceed | pages/03_Rutas.py:284-304 | the intended step closes the plan, logs twice and appends one open plan of the student from `now` with a fresh id |
| Rutas.SuccessorInForce | pages/03_Rutas.py:282-306 | after the intended step the student has a plan in force at every later moment |
| Rutas.CreateNextVersion | pages/03_Rutas.py:308-334 | the method adds version `max + 1` and its log entry as specified, when plans exist but none is in force |
| Rutas.NextVersionProperties | pages/03_Rutas.py:311-332 | the new version keeps every earlier plan, exceeds all of the student's versions, and is the plan in force now |
| Rutas.AddedPlanShape | lib/helpers.py:16-28 | adding a plan with its log appends exactly that plan |
| Rutas.NextAboveAll | pages/03_Rutas.py:311-324 | `max + 1` lies above the version of every plan of the student |
| Rutas.EqualityFilters | pages/03_Rutas.py:233-241 | the chain of selected equality filters keeps exactly the courses passing all four |
| Rutas.ApplyFilters | pages/03_Rutas.py:242-243 | the search fails exactly when it is used and a course passing the filters has no subject name, where `.lower()` of `None` raises |
| Rutas.ChainMembers | pages/03_Rutas.py:233-241 | each step of the chain keeps exactly the courses passing the filters applied so far |
| Rutas.OfferedCourses | pages/03_Rutas.py:212-243 | a course is offered exactly when it is in the catalog, not yet in the plan, and passes every filter and the case-insensitive search |
| Rutas.RowOf | pages/03_Rutas.py:342-357 | a summary row shows the plan's version and start date, planned and backup counts making up the total of its items, and "Vigente" exactly for an open plan |
| Rutas.RowsOf | pages/03_Rutas.py:342 | one summary row per plan |
| Rutas.Summary | pages/03_Rutas.py:340-357 | the loop builds one row per plan of the student, in version order |
| Inscripciones.DuplicateAlerts | pages/04_Inscripciones.py:43-50 | one duplicate alert per course that occurs more than once |
| Inscripciones.DuplicateAlertsExact | pages/04_Inscripciones.py:44-50 | there is an alert for a course with count `n` exactly when the course is enrolled `n` times and `n` is at least two |
| Inscripciones.NoDuplicateAlerts | pages/04_Inscripciones.py:45-47 | no duplicate alert is raised exactly when every course is enrolled at most once |
| Inscripciones.DuplicateAlertsAsWritten | pages/04_Inscripciones.py:47-50 | as written, one alert per repeated course, but with the count `list.count` of a generator gives |
| Inscripciones.AsWrittenReportsZero | pages/04_Inscripciones.py:49 | as written every alert reports zero enrollments of a course enrolled at least twice, so it differs from the intended alert |
| Inscripciones.OffPlanAlerts | pages/04_Inscripciones.py:63-65 | the off-plan alerts are all of that kind |
| Inscripciones.OffPlanExact | pages/04_Inscripciones.py:54-65 | an off-plan alert names a course exactly when a completed enrollment of it is outside the plan in force |
| Inscripciones.RuleAlert | pages/04_Inscripciones.py:89-93 | at most one rule alert |
| Inscripciones.RuleAlertExact | pages/04_Inscripciones.py:79-93 | the rule alert appears exactly when some elective is counted and none of its orientations reaches five, and then it reports the best count and the gap to five |
| Inscripciones.BestIsMax | pages/04_Inscripciones.py:90 | the best count is the largest number of counted electives of any orientation, reached by one of them |
| Inscripciones.BestReached | pages/04_Inscripciones.py:90 | some orientation reaches the best count |
| Inscripciones.BestBounds | pages/04_Inscripciones.py:90 | no orientation exceeds the best count |
| Inscripciones.NoAlertsIff | pages/04_Inscripciones.py:40-99 | "Sin alertas detectadas" is shown exactly when no course is enrolled twice and, with a plan in force, nothing completed is off plan and the rule alert is absent |
| Inscripciones.DuplicateLoop | pages/04_Inscripciones.py:47-50 | the loop builds the duplicate alerts as specified |
| Inscripciones.OffPlanLoop | pages/04_Inscripciones.py:63-65 | the loop builds the off-plan alerts as specified |
| Inscripciones.RuleCounts | pages/04_Inscripciones.py:81-87 | the loop counts the orientation of every counted elective, as the specified tally does |
| Inscripciones.Alerts | pages/04_Inscripciones.py:40-93 | the alert section computes the alerts as specified, in the page's order |
| Inscripciones.RuleCheck | pages/04_Inscripciones.py:89-93 | the check gives the specified rule alert |
| Inscripciones.Shown | pages/04_Inscripciones.py:123 | `nota_numerica or "-"` shows a grade exactly when it exists and is not zero |
| Inscripciones.FirstFor | pages/04_Inscripciones.py:119 | `next(...)` finds an enrollment of the course when one exists, and otherwise there is none |
| Inscripciones.ItemRows | pages/04_Inscripciones.py:112-136 | one comparison row per plan item |
| Inscripciones.ExtraRows | pages/04_Inscripciones.py:140-155 | one comparison row per off-plan enrollment |
| Inscripciones.ComparisonCovers | pages/04_Inscripciones.py:109-155 | the comparison has a row for every item and for every enrollment outside the plan, and no others |
| Inscripciones.ComparisonParts | pages/04_Inscripciones.py:112-155 | item rows come first, in item order, followed by the off-plan rows marked "NO EN PLAN" |
| Inscripciones.ComparisonHasCourse | pages/04_Inscripciones.py:109-155 | every enrolled course appears somewhere in the comparison |
| Inscripciones.Comparison | pages/04_Inscripciones.py:105-155 | the two loops build the comparison as specified |
| Inscripciones.NewEnrollment | pages/04_Inscripciones.py:189-196 | a created enrollment has a fresh id |
| Inscripciones.CreateAll | pages/04_Inscripciones.py:187-202 | the intended inserts add one enrollment and one log entry per item and keep students, items and plans |
| Inscripciones.CreateEach | pages/04_Inscripciones.py:187-202 | the loop as intended (each log entry written in the same transaction or after the commit) inserts one enrollment and one log entry per item, and counts them |
| Inscripciones.BulkCreate | pages/04_Inscripciones.py:169-204 | the bulk creation as intended inserts one enrollment per planned item not yet enrolled, and reports that number |
| Inscripciones.BulkCreateAsWritten | pages/04_Inscripciones.py:185-202 | as written on SQLite, the run stops at the first `log_change` exactly when something is pending, and nothing is created |
| Inscripciones.LockedLeavesPending | pages/04_Inscripciones.py:176-202 | with something pending, the run as written leaves it pending while the intended run leaves a different (empty) pending list |
| Inscripciones.AppendedStep | pages/04_Inscripciones.py:188-200 | one more insert extends the appended enrollments by one planned enrollment of the item |
| Inscripciones.CreateAllShape | pages/04_Inscripciones.py:188-202 | the intended inserts append one planned enrollment of the student per item, in order, add one log entry each and change nothing else |
| Inscripciones.StudentRowEnrolled | pages/04_Inscripciones.py:34 | a row of the student shows up in the student's query |
| Inscripciones.EnrolledAfter | pages/04_Inscripciones.py:188-202 | a course enrolled before, or named by an item, is enrolled after the inserts |
| Inscripciones.EnrolledAppended | pages/04_Inscripciones.py:188-202 | appending the new enrollments keeps earlier ones and adds one for each item's course |
| Inscripciones.NothingPendingAfter | pages/04_Inscripciones.py:176-207 | after the intended bulk creation no planned item of the plan is pending any more |
| Inscripciones.StatusCounts | pages/04_Inscripciones.py:310-312 | the loop counts each status present, with distinct positive keys summing to the number of enrollments |
| Estudiantes.IndexOf | pages/02_Estudiantes.py:52 | `session.get` finds the first student with the key, or reports that there is none |
| Estudiantes.LogsAppend | pages/02_Estudiantes.py:54-68 | a field is logged by two runs of changes exactly when one of them logs it |
| Estudiantes.FieldChangeLogs | pages/02_Estudiantes.py:54-68 | each step of the form logs only its own field, and exactly when the form changes it |
| Estudiantes.ChangesExact | pages/02_Estudiantes.py:54-68 | a field is logged exactly when the form changes it; at most five entries; nothing is logged exactly when the form changes nothing |
| Estudiantes.LogChangesShape | pages/02_Estudiantes.py:54-68 | logging changes appends one entry per change and touches nothing but the log |
| Estudiantes.UpdateEffect | pages/02_Estudiantes.py:50-69 | the update logs one entry per changed field; the student gets the form's values unless the new email belongs to another student; the other students, plans and enrollments stay, and emails stay unique |
| Estudiantes.UpdateSpec | pages/02_Estudiantes.py:50-69 | an unknown id changes nothing; otherwise one log entry per changed field; the number of students, the plans and the enrollments stay |
| Estudiantes.UpdateTwiceIsOnce | pages/02_Estudiantes.py:50-69 | saving the same form again logs nothing and changes nothing |
| Estudiantes.ApplyTwice | pages/02_Estudiantes.py:54-68 | a student holding the form's values has no change to log, and applying the form again changes nothing |
| Estudiantes.EmailTakenAfterReplace | lib/models.py:54 | replacing one student keeps the other students' emails, so the unique-email question is unchanged |
| Estudiantes.KeysKeepIndex | pages/02_Estudiantes.py:52 | replacing a student by a record with the same key keeps its position for later lookups |
| Estudiantes.UpdateStudent | pages/02_Estudiantes.py:50-69 | the method performs the specified update |
| Estudiantes.UpdateFields | pages/02_Estudiantes.py:54-68 | the five field steps log the form's changes in order and give the student the form's values |
| Estudiantes.UpdateNames | pages/02_Estudiantes.py:54-59 | the nombre and apellido steps log their changes and set both fields |
| Estudiantes.UpdateEmail | pages/02_Estudiantes.py:60-62 | the email step logs its change and sets the email |
| Estudiantes.UpdateStudies | pages/02_Estudiantes.py:63-68 | the programa and cohorte steps log their changes and set both fields |
| Estudiantes.ChangesStep | pages/02_Estudiantes.py:54-68 | the changes of one more field follow those of the fields before it |
| Estudiantes.LogStep | lib/helpers.py:6-28 | one `log_change` call appends the entry of one change |
| Estudiantes.Orphaned | lib/models.py:63 | `ondelete="SET NULL"` keeps every meeting |
| Estudiantes.DeleteAsWrittenKeepsStudent | pages/02_Estudiantes.py:73-80 | as written, deleting a student with a plan leaves the student in place while the log already says "eliminado" |
| Estudiantes.DeleteAsWritten | pages/02_Estudiantes.py:73-80 | as written an unknown id changes nothing, a known one adds one log entry, a student with plans or enrollments stays, and plans, items and enrollments never change |
| Estudiantes.WithoutStudentExact | pages/02_Estudiantes.py:79 | the delete removes exactly the student with that key |
| Estudiantes.StillStudent | pages/02_Estudiantes.py:79 | any other student remains after the delete |
| Estudiantes.DeleteCascadeRemoves | lib/models.py:75-102 | the intended delete removes the student, its plans and its enrollments |
| Estudiantes.DeleteCascadeIsCascade | lib/models.py:63-102 | the intended delete keeps exactly the other students and their plans and enrollments, the items of remaining plans, every meeting with the reference cleared, and the catalog |
| Estudiantes.CascadeKeepsReferences | lib/models.py:63-103 | such a cascade keeps every foreign key of the remaining rows satisfied |
| Estudiantes.KeptStudent | lib/models.py:75-102 | a cascade keeps every other student that existed |
| Estudiantes.CascadeKeepsItems | lib/models.py:89-90 | after a cascade every remaining item refers to a remaining plan and an existing course |
| Estudiantes.DeleteCascadeKeepsReferences | lib/models.py:63-103 | the intended delete leaves no dangling reference |
| Estudiantes.DeleteStudent | pages/02_Estudiantes.py:73-82 | the method performs the intended delete on the database |
| Estudiantes.CreateSpec | pages/02_Estudiantes.py:101-121 | creation is refused exactly without nombre or email, rejected exactly for an email in use, and otherwise adds one new student with those values and one log entry; a refusal or rejection writes nothing |
| Estudiantes.CreateKeepsEmailsUnique | lib/models.py:54 | a creation keeps the emails unique |
| Estudiantes.MissingColumns | pages/02_Estudiantes.py:136-137 | only required columns are reported missing |
| Estudiantes.Lowered | pages/02_Estudiantes.py:137-144 | the lower-cased column names, one per column |
| Estudiantes.MissingExact | pages/02_Estudiantes.py:137 | a required column is reported exactly when no column of the file matches it in lower case |
| Estudiantes.RowStudent | pages/02_Estudiantes.py:171-178 | an imported student gets a fresh id |
| Estudiantes.ImportRow | pages/02_Estudiantes.py:157-182 | each row gives one insert or one error: an empty email or nombre is an error, so is an email in use, otherwise the student is added; nothing but students changes |
| Estudiantes.ImportAccounting | pages/02_Estudiantes.py:154-184 | every row yields one insert or one error; students are only appended, each with an email and a nombre; emails stay unique |
| Estudiantes.ImportOne | pages/02_Estudiantes.py:155-182 | importing one row is one loop iteration |
| Estudiantes.SameEmailTwice | pages/02_Estudiantes.py:166-169 | a file repeating an unused email imports it once and reports the second row, because of the flush |
| Estudiantes.ImportStudents | pages/02_Estudiantes.py:151-184 | the loop adds the students and collects the count and errors as specified |
| Estudiantes.ImportFile | pages/02_Estudiantes.py:136-184 | as intended: nothing is imported exactly when a required column is missing, and then the missing columns are named; otherwise every row is read with an empty cell as the empty text and imported |
| Estudiantes.ImportFileAsWritten | pages/02_Estudiantes.py:136-184 | as written: the same column check; otherwise every row is read with an empty cell as "nan" and imported |
| Estudiantes.FilledFileAgrees | pages/02_Estudiantes.py:157-160 | on a file without empty cells the page's import is the intended one |
| Estudiantes.BlankRowFields | pages/02_Estudiantes.py:157-160 | as written, blank cells read as "nan"; intended, they read as the defaults "", "" and "MBA" |
| Estudiantes.NanStrip | pages/02_Estudiantes.py:157 | stripping "nan" leaves it non-empty |
| Estudiantes.IntendedRejectsBlank | pages/02_Estudiantes.py:157-164 | read as intended, a row with an empty email or nombre cell is refused with the empty-field error and changes nothing |
| Estudiantes.BlankEmailImported | pages/02_Estudiantes.py:157-179 | as written, a row with an empty email cell imports a student with email "nan"; intended, the same row is refused |
| Estudiantes.ProgramaIndexAsWritten | pages/02_Estudiantes.py:44-46 | `["MBA", "EMBA"].index(programa or "MBA")`: the position of the stored programme, and none (the ValueError) exactly when it is neither choice |
| Estudiantes.ProgramaIndex | pages/02_Estudiantes.py:44-46 | the intended position is always a valid choice, the stored programme when it is one, and "MBA" otherwise |
| Estudiantes.NanProgramaBlocksForm | pages/02_Estudiantes.py:157-164 | a student imported from a row with an empty programa cell has programme "nan", for which the form as written cannot be drawn and the intended one opens at "MBA" |
| Estudiantes.BlankProgramaIsNan | pages/02_Estudiantes.py:157-164 | as written, an empty programa cell is read as the text "nan" |
| Estudiantes.NanNotAChoice | pages/02_Estudiantes.py:44-46 | "nan" is not a choice of the box: the lookup as written fails and the intended one gives the first choice |
| Planes.SuggestedVersion | pages/03_Planes.py:64 | the suggested version number is at least 1 |
| Planes.SuggestionIsFresh | pages/03_Planes.py:64 | when the student's versions lie within 1..n for n plans, the suggestion `len(plans) + 1` is not taken |
| Planes.SuggestionCanRepeat | pages/03_Planes.py:64 | nothing keeps version numbers apart: a student whose only plan is v2 is offered v2 again |
| Planes.DayStamp | pages/03_Planes.py:66-78 | a picked date is stored as midnight of that day, and no date as none |
| Planes.PlanRow | pages/03_Planes.py:74-80 | the new plan has a fresh id and the student, version and comment of the form |
| Planes.CreatePlanEffect | pages/03_Planes.py:71-84 | creating a plan appends exactly that row and one log entry "v" plus the version, touches no other table, and raises the next suggestion by one |
| Planes.CreatePlanKeepsReferences | pages/03_Planes.py:71-84 | creating a plan for an existing student keeps the keys and references of the database |
| Planes.AppendPlanKeepsReferences | lib/models.py:74-75 | a plan with a fresh id and an existing student keeps every constraint and reference |
| Planes.AppendItemKeepsReferences | lib/models.py:88-90 | an item with a fresh id, an existing plan and a catalogued course keeps every constraint and reference |
| Planes.AppendEnrollmentKeepsReferences | lib/models.py:101-103 | an enrollment with a fresh id, an existing student and a catalogued course keeps every constraint and reference |
| Planes.DistinctAppend | lib/models.py:37 | a fresh key appended to distinct keys keeps them distinct |
| Planes.SameDayPlanExpires | lib/metrics.py:22-27 | a plan whose end date is its start day is in force only at that day's midnight |
| Planes.CreatePlan | pages/03_Planes.py:71-84 | the method performs the specified plan creation |
| Planes.ItemRow | pages/03_Planes.py:117-123 | the new item has a fresh id and the plan, course and state of the form |
| Planes.AddItemCounts | pages/03_Planes.py:114-126 | adding an item appends it to the plan's items and raises the planned or the backup count by one |
| Planes.AddItemKeepsReferences | pages/03_Planes.py:114-126 | adding an item to an existing plan, for a catalogued course, keeps the keys and references |
| Planes.AddItem | pages/03_Planes.py:114-126 | the method performs the specified item insert and its log entry |
| Planes.InitialGrade | pages/03_Planes.py:226 | `nota if nota else None` stores no grade for an empty grade and for 0.0, and the grade otherwise |
| Planes.EnrollmentRow | pages/03_Planes.py:222-229 | the new enrollment has a fresh id, the form's student, course, status and grade, is registered now, and is stamped now exactly when completed |
| Planes.CreateEnrollmentExact | pages/03_Planes.py:210-234 | an enrollment is created exactly when the student has none in the course; otherwise nothing changes; after a creation the course has exactly that enrollment and a second attempt is refused |
| Planes.CreateEnrollmentKeepsReferences | pages/03_Planes.py:210-234 | creating an enrollment for an existing student and a catalogued course keeps the keys and references |
| Planes.CreateEnrollment | pages/03_Planes.py:210-236 | the method performs the specified creation and reports its outcome |
| Planes.EnrollmentIndex | pages/03_Planes.py:179 | `sess.get` finds the enrollment with the key, or reports that there is none |
| Planes.Edited | pages/03_Planes.py:180-187 | the edited enrollment gets the form's status and grade, is stamped now when completed, and keeps every other column |
| Planes.UpdateEnrollmentEffect | pages/03_Planes.py:177-188 | the edit replaces only that enrollment, logs a changed status and then a changed grade, and touches nothing else |
| Planes.UpdateEnrollmentSpec | pages/03_Planes.py:177-188 | an unknown id changes nothing; the edit keeps the number of enrollments, adds at most two log entries and keeps students, plans and items |
| Planes.UpdateEnrollmentKeepsReferences | pages/03_Planes.py:177-188 | the edit keeps the keys and references |
| Planes.LogsOnlyKeepReferences | lib/helpers.py:16-28 | log entries never break a reference |
| Planes.ReplaceEnrollmentKeepsReferences | lib/models.py:101-103 | rewriting an enrollment's non-key columns keeps every constraint and reference |
| Planes.UpdateAgainRestamps | pages/03_Planes.py:180-187 | saving the same form again logs nothing more, but a completed enrollment is stamped again with the new time |
| Planes.SameKeysSameIndex | pages/03_Planes.py:179 | lists with the same keys at every position find a key at the same place |
| Planes.UpdateEnrollment | pages/03_Planes.py:177-188 | the method performs the specified edit |
| Planes.PromedioAsWritten | pages/03_Planes.py:251 | as written, the average exists exactly when some enrollment is completed |
| Planes.Promedio | pages/03_Planes.py:246-251 | the intended average exists exactly when some enrollment is completed |
| Planes.PromedioAsWrittenOverstates | pages/03_Planes.py:251 | with one completed course graded 80 and one failed course graded 40, the page shows 120 where the average of completed grades is 80 |
| Planes.PairCounts | pages/03_Planes.py:246 | a completed and a non-completed enrollment count one completed |
| Planes.PairSums | pages/03_Planes.py:251 | the sum as written adds both grades; the completed sum adds only the completed one |
| Planes.TimesIsProduct | pages/03_Planes.py:251 | adding `n` copies of a grade gives `n` times it |
| Planes.CompletedSumBounds | pages/03_Planes.py:251 | the sum of completed grades lies between `n` times any lower bound and `n` times any upper bound of those grades |
| Planes.CompletedCountStep | pages/03_Planes.py:246 | the completed count grows by one exactly for a completed last enrollment |
| Planes.PromedioWithinGrades | pages/03_Planes.py:246-251 | the intended average lies within any bounds of the completed grades, so it never exceeds the largest one |
| Planes.DivBounds | pages/03_Planes.py:251 | a sum between `lo·c` and `hi·c`, divided by `c`, lies between `lo` and `hi` |
| Planes.StatsRowOf | pages/03_Planes.py:245-252 | a row counts the student's enrollments and the completed ones among them; with the intended average, there is one exactly when one is completed, and it times the completed count is the completed grade sum |
| Planes.StatsRowWithinGrades | pages/03_Planes.py:251 | when every completed enrollment of the student is graded within bounds, the intended average shown lies within them |
| Planes.StatsRows | pages/03_Planes.py:244-252 | one row per listed student, in order |
| Planes.Stats | pages/03_Planes.py:242-252 | the summary loop builds one row per student, in table order |
| Reportes.RowsFor | pages/06_Reportes.py:41-48 | an item joins once with each open plan of its key |
| Reportes.PlannedJoinExact | pages/06_Reportes.py:41-48 | the query holds a row exactly when its item is planned, its course has the item's id and its plan is the item's plan and still open |
| Reportes.DemandKeysCount | pages/06_Reportes.py:52-61 | a course is keyed once for every joined row of it that passes the filters |
| Reportes.DemandAsWrittenCounts | pages/06_Reportes.py:51-72 | as written, the count of a course is the number of joined rows of it that pass the filters |
| Reportes.DemandAsWritten | pages/06_Reportes.py:51-72 | as written, the counts add up to the number of joined rows that pass the filters |
| Reportes.CourseDemandAsWritten | pages/06_Reportes.py:51-72 | the demand loop as written counts every passing joined row, with distinct positive keys |
| Reportes.CountRows | pages/06_Reportes.py:52-72 | the loop over joined rows adds one unit per passing row to its course |
| Reportes.PairsMember | pages/06_Reportes.py:52-61 | a (student, course) pair is listed exactly when some passing row has that student and course |
| Reportes.Dedup | pages/06_Reportes.py:22 | keeping the first occurrence of each pair keeps exactly the same pairs |
| Reportes.Courses | pages/06_Reportes.py:61 | the course of each pair, in order |
| Reportes.StudentsForSnoc | pages/06_Reportes.py:22 | one more pair adds its student to its course's students |
| Reportes.DedupSeenCount | pages/06_Reportes.py:22 | a pair seen before changes neither the counts nor the students |
| Reportes.DedupNewCount | pages/06_Reportes.py:22 | a new pair adds one to its course's count and one student to it |
| Reportes.DedupCounts | pages/06_Reportes.py:22 | counting deduplicated pairs counts the distinct students of each course |
| Reportes.StudentDemandCounts | pages/06_Reportes.py:22-72 | the corrected count of a course is the number of distinct students with a passing planned item of it in an open plan |
| Reportes.DemandCountsItemsTwice | pages/06_Reportes.py:22-72 | one student with two open plans that both plan a course counts 2 as written and 1 as intended |
| Reportes.RowsOfOneStudent | pages/06_Reportes.py:52-72 | two passing rows of one student and one course count two rows but one student |
| Reportes.CountOfTwo | pages/06_Reportes.py:52-72 | two rows that both pass are both counted |
| Reportes.PairsOfTwo | pages/06_Reportes.py:52-61 | the pairs of two passing rows are their two pairs, in order |
| Reportes.JoinOfTwo | pages/06_Reportes.py:41-48 | two open plans each planning the course give exactly two joined rows |
| Reportes.OpenPlansOfTwo | pages/06_Reportes.py:43-47 | an item joins only with its own open plan |
| Reportes.PairsStep | pages/06_Reportes.py:52-61 | one more row adds its pair exactly when it passes the filters |
| Reportes.DedupStep | pages/06_Reportes.py:22 | a pair adds its course to the corrected keys only the first time |
| Reportes.DemandStep | pages/06_Reportes.py:52-72 | a passing row whose pair is new adds one to its course; any other row changes nothing |
| Reportes.ElementsMember | pages/06_Reportes.py:22 | the set of pairs seen holds exactly the listed pairs |
| Reportes.SeenStep | pages/06_Reportes.py:22 | a passing row's pair is new exactly when it is not among the pairs seen so far |
| Reportes.CourseDemand | pages/06_Reportes.py:40-72 | the intended demand loop gives each course the number of distinct students planning it, with distinct positive entries |
| Reportes.CountStudents | pages/06_Reportes.py:51-72 | the intended loop over the query's rows counts the first occurrence of every student and course pair |
| Reportes.NewPairStep | pages/06_Reportes.py:52-72 | one iteration of the intended loop: a passing row whose pair is new joins the seen set and adds one to its course; any other row changes neither |
| Reportes.DemandRowOf | pages/06_Reportes.py:63-72 | a line carries the course id, its count and the orientation or "N/A" |
| Reportes.DemandTable | pages/06_Reportes.py:75-76 | one line per counted course, in the dictionary's order |
| Reportes.DemandKeysKnown | pages/06_Reportes.py:41-42 | every counted course is in the catalog |
| Reportes.DemandOrdered | pages/06_Reportes.py:77 | the sorted table lists the same lines, largest count first |
| Reportes.PlannedCount | pages/06_Reportes.py:122-125 | the planned count of a course is at most the number of items |
| Reportes.Temporal | pages/06_Reportes.py:119-136 | the buckets have distinct keys and positive demand |
| Reportes.TemporalTotal | pages/06_Reportes.py:119-136 | the buckets add up to the planned counts of all sources joined with a course |
| Reportes.TemporalGet | pages/06_Reportes.py:127-136 | each bucket holds the planned counts of exactly the sources in it |
| Reportes.TemporalStep | pages/06_Reportes.py:120-136 | one more source adds its planned count to its bucket, when positive |
| Reportes.TemporalDemand | pages/06_Reportes.py:112-136 | the temporal loop computes the buckets as specified |
| Reportes.TemporalOrdered | pages/06_Reportes.py:141 | the sorted buckets are the same buckets, largest demand first |
| Reportes.Counts | pages/06_Reportes.py:180 | on the corrected counts, a student's counts have distinct positive entries adding up to the electives the student completed |
| Reportes.Distribution | pages/06_Reportes.py:183-184 | the distribution has distinct keys and positive counts |
| Reportes.ComplianceOver | pages/06_Reportes.py:171-184 | no more compliant students than students |
| Reportes.ComplianceOf | pages/06_Reportes.py:164-184 | the compliance figures cover every student, and compliant ones are among them |
| Reportes.SumOfAppend | pages/06_Reportes.py:197 | the sum of one more total adds it |
| Reportes.CompliancePercent | pages/06_Reportes.py:190 | the percentage lies in 0..100 and is 100 exactly when every student complies |
| Reportes.AverageElectives | pages/06_Reportes.py:197 | the average times the number of students is the sum of the totals |
| Reportes.TrueCountAppend | lib/metrics.py:152-154 | one more verdict adds one exactly when it is true |
| Reportes.CompliantStep | pages/06_Reportes.py:176-178 | one more student adds one compliant exactly when the student complies |
| Reportes.FiguresStep | pages/06_Reportes.py:180-184 | one more student adds a total and its counts exactly when the student has counts |
| Reportes.ComplianceStep | pages/06_Reportes.py:175-184 | one loop iteration updates the figures as specified |
| Reportes.AddStudent | pages/06_Reportes.py:176-184 | one iteration adds one compliant for a compliant student, and the student's total and counts when it has counts |
| Reportes.Tabulate | pages/06_Reportes.py:175-184 | the loop over the students computes the specified figures |
| Reportes.ComplianceReport | pages/06_Reportes.py:164-184 | the tab's loop gives the compliance figures of all students |
| Reportes.TotalsSum | pages/06_Reportes.py:180-182 | on the corrected counts, the totals add up to the electives completed by all students; students without counts add nothing |
| Reportes.AverageIsAggregate | pages/06_Reportes.py:176-197 | on the corrected counts, the average and the compliant count agree with the program metrics of the same students |
| Reportes.DistributionGet | pages/06_Reportes.py:183-184 | each label holds the sum of every student's count for it |
| Reportes.DistributionTotal | pages/06_Reportes.py:182-184 | the distribution adds up to the totals |
| Reportes.LevelLabel | pages/06_Reportes.py:251 | `upper()` of the level gives "LOW", "MEDIUM" and "HIGH" exactly for the three levels |
| Reportes.RiskRowMeaning | pages/06_Reportes.py:238-253 | on the corrected counts, a line reads "LOW" exactly when it reads that the student complies, which is when the rule holds; "HIGH" exactly for a gap above 2 or no completed elective |
| Reportes.RiskRowOf | pages/06_Reportes.py:238-253 | a line carries the student's email and programme, reads "LOW" exactly when it reads that the student complies, which is when `check_rule_5_of_8` holds, and reads "HIGH" with "N/A" orientation when nothing is completed |
| Reportes.RiskTable | pages/06_Reportes.py:236-253 | one line per student, in table order, as specified |
| Reportes.RiskLine | pages/06_Reportes.py:239-253 | the loop body builds the student's specified line |
| Reportes.Shown | pages/06_Reportes.py:258-263 | no selection shows every line; a selection shows exactly the lines with a selected level |
| Reportes.DefaultSelection | pages/06_Reportes.py:258-263 | with the default selection a line is shown exactly when the student does not comply |
| Reportes.LevelShown | pages/06_Reportes.py:251-258 | "MEDIUM" or "HIGH" appears exactly on lines that read "No" |
| Auditoria.Newest | pages/05_Auditoria.py:69 | ordering newest first keeps the number of entries |
| Auditoria.AuditLog | pages/05_Auditoria.py:43-69 | the query with the corrected student filter lists no more entries than the table holds |
| Auditoria.AuditLogAsWritten | pages/05_Auditoria.py:43-69 | the query as written lists no more entries than the table holds |
| Auditoria.AuditLogExact | pages/05_Auditoria.py:47-69 | the result holds every kept entry as often as the table does, and nothing else |
| Auditoria.AuditLogAsWrittenExact | pages/05_Auditoria.py:47-69 | as written, the result holds every entry the written filter keeps as often as the table does, and nothing else |
| Auditoria.AuditLogNewestFirst | pages/05_Auditoria.py:69 | on valid timestamps the result is ordered newest first |
| Auditoria.InWindowDays | pages/05_Auditoria.py:47-50 | the window keeps exactly the entries dated from the first day to the last day, both included |
| Auditoria.IlikeMeaning | pages/05_Auditoria.py:53-58 | the text filters match a contained pattern regardless of ASCII case, and any literal occurrence matches |
| Auditoria.LowerTwice | pages/05_Auditoria.py:54 | lowering case twice is lowering it once |
| Auditoria.LowerOccurrence | pages/05_Auditoria.py:54 | lowering both texts keeps an occurrence where it was |
| Auditoria.FilterDefaults | pages/05_Auditoria.py:47-66 | only entries in the window are kept; without texts or a student every entry in the window is kept; a user filter never keeps an entry without a user |
| Auditoria.StudentOkExact | pages/05_Auditoria.py:60-66 | the corrected student filter keeps an entry about a numbered entity exactly when it is the chosen student's own Student entry |
| Auditoria.StudentFilterKeepsOthers | pages/05_Auditoria.py:63-66 | as written, choosing a student keeps another student's entries and entries of other entities that share the id |
| Auditoria.AsWrittenListsOtherStudent | pages/05_Auditoria.py:60-69 | a log holding one entry about another student is listed as written and empty as intended |
| Auditoria.StatsStep | pages/05_Auditoria.py:118-121 | one iteration adds one to the entry's entity and, when it has a user, to that user |
| Auditoria.Stats | pages/05_Auditoria.py:116-121 | the loop counts every entity and every non-empty user |
| Auditoria.EntitiesCount | pages/05_Auditoria.py:119 | an entity is counted once for each entry of it |
| Auditoria.UsersCount | pages/05_Auditoria.py:120-121 | a user is counted once for each entry with it, and only entries with a user count |
| Auditoria.UsersMember | pages/05_Auditoria.py:120-121 | a user appears exactly when some entry carries it |
| Auditoria.StatsMeaning | pages/05_Auditoria.py:114-132 | the total is the number of entries; each entity and user is counted exactly as often as it occurs; the number of unique users and entities is the number of different ones present |

## Left out

- The Streamlit interface: widgets, tabs, `session_state`, reruns, messages and their wording, charts, CSV/Excel downloads and `BytesIO`. A choice the user makes in a widget is a parameter of the operation.
- `streamlit_app.py`, `pages/01_Cronograma.py` and `pages/04_Reportes.py`: they only call the metrics and render them.
- `lib/db.py` and `lib/__init__.py`: engine, sessions and environment configuration. Storage is an in-memory snapshot, and a commit is an explicit step that succeeds exactly when the final tables keep the declared keys.
- Workbook and CSV reading (pandas, openpyxl): a read sheet is a sequence of rows of cell values, and a read failure is one of the inputs.
- pandera's column-level dtype failures: only its per-cell null and type checks are modelled. A blank Año cell is one input that can trigger such a failure. `_safe_int` then leaves `None` beside integers, pandas stores the column as floats with NaN, and the integer dtype check of `Año` rejects the column for the whole sheet rather than one cell.
- The text date parser pandas applies to date cells: it is a parameter `parseDate`.
- Binary floating point: hours, grades, rates and averages are exact reals, and a numeric cell is the exact decimal it is written as. `float()` rounding and `int(float(x))` on values beyond float precision are not modelled.
- The clock: every operation takes one `now`, where the program may read the clock more than once during one page action.
- `pages/02_Estudiantes.py:196-282`, the meetings tab and the students summary: they display and add meetings and contain no rule beyond inserting the form's values.
- `pages/03_Planes.py:20-58` and `pages/03_Planes.py:134-176`: listings of plans, items and enrollments that only display rows.
- `pages/03_Rutas.py:106-161`: the version history display.
- `pages/03_Rutas.py:73-84`, the planned-elective join, reads `course_id_ref`, which `lib/models.py:86-111` does not define. The orientation check is modelled on the join through `course_id` that the code evidently means.
- `pages/03_Rutas.py:258-272`: adding a course by `course_id_ref` cannot run, for the same reason.
- `pages/04_Inscripciones.py:213-302`, the add-or-edit enrollment form: it reads `course_id_ref` and cannot run. The same guard and stamp rules are modelled from `pages/03_Planes.py:210-234`.
- `pages/04_Inscripciones.py:338-357`: it only displays `check_rule_5_of_8`, which `Metrics` models.
- `pages/06_Reportes.py:28-38` and `pages/03_Rutas.py:217-228`: the lists offered as filter choices. The filters themselves are modelled.
- `pages/06_Reportes.py:267-310`: the risk legend and the charts.
- The order of equal keys in pandas' `sort_values`, which is not stable by default. The model uses a stable descending sort, so ties keep their input order.
- The order in which SQLite returns rows with equal `ts` under `ORDER BY ts DESC`. The model keeps the log order for ties.
- SQLite's `LIKE` wildcards `%` and `_` inside a filter text: the model treats the text literally. SQLite's `lower()` folds only ASCII letters, and so does `Text.LowerAscii`.
- `pages/05_Auditoria.py:38-40`, the student label map, and the "-" placeholder shown for empty cells.
- The `min_value`/`max_value` bounds of `st.number_input`: a grade is any real the caller passes.
- Concurrency: one user acts at a time. SQLite's write lock between two sessions of one page action decides an outcome only in the bulk creation of `pages/04_Inscripciones.py:185-202`, modelled by `Inscripciones.BulkCreateAsWritten`; every other action commits its own session before it logs, or logs before it writes anything.
- Exception texts: a row-level exception and a failed commit are error values, not message strings.
- Rutas.RowsOf: states only that there is one row per plan. Each row's meaning is stated by `Rutas.RowOf`.
- IoExcel.RowCourse: states the row's id and when each date is present. The meaning of the other fields is stated by `IoExcel.UpsertCourse` and the import lemmas.
- IoExcel.DateField: the corrected reading, in which a blank Inicio or Final cell is `None`. In the program the validated date column holds NaT there, and `pd.notna` at `lib/io_excel.py:95` and `:101` only skips the conversion. The NaT is therefore written to the course and fails the commit. `IoExcel.ImportAsWritten` models this (see Findings).
- IoExcel.ImportSchedule: performs the corrected import. The program's own run with blank dates is the function `IoExcel.ImportAsWritten`, which no method performs. `IoExcel.DatedImportAgrees` shows the two agree when every upserted row has both dates.
- IoExcel.ImportAsWritten: represents a NaT date as `None`, together with the set of loaded courses that hold NaT and a flag for a pending course built with NaT. The exception raised when the flush binds NaT to a `Date` column is the save error `CommitFailed`.
- Dates.MonthName: states only that the name has at least three letters. The month label's text comes from `strftime` and is not otherwise constrained.
- Text.Lower: folds only the ASCII and Latin-1 capitals, one character to one. Python's `str.lower()` also folds other scripts and can lengthen a text ("İ" becomes two characters); the model does not capture either.
- Validators.SafeFloat: reads only the decimal grammar of digits, one point, an exponent and signs. Python's `float()` also accepts "inf", "nan" and "infinity" in any case, underscores between digits ("1_000"), non-ASCII decimal digits and surrounding white space; the model gives `None` for these texts.
- Validators.SafeInt: built on the same grammar. In Python `int(float("nan"))` raises the ValueError it catches, but `int(float("inf"))` raises an OverflowError it does not catch, which ends the validation; the model gives `None` for both.
- Validators.UnsignedRejectsForeign: a statement about the model's decimal grammar; "inf", "nan", "infinity" and "1_000" are texts `float()` reads although they contain such characters.
- Validators.ForeignCharRejected: the same limit as the line above; "N/A" and "16+4" are rejected by `float()` as well.
- Metrics.ElectiveCountsByOrientation: lists the labels in the order of their first completed elective. The `GROUP BY` at `lib/metrics.py:65-72` returns its groups in an order SQL leaves unspecified, and that order decides which orientation `max` at `lib/metrics.py:88` reports when two counts tie.
- Metrics.RuleMeaning: built on the corrected counts (see Findings). `Metrics.AsWrittenAgrees` shows they are the program's counts whenever no completed elective has the orientation "" or literally "sin_orientacion".
- Metrics.RiskBands: built on the corrected counts; the same agreement applies.
- Metrics.CheckRule5Of8: built on the corrected counts; the same agreement applies.
- Metrics.CompliantCount: built on the corrected counts; the same agreement applies.
- Metrics.CompliantAmong: built on the corrected counts; the same agreement applies.
- Metrics.AggregateOf: built on the corrected counts; the same agreement applies to its compliant count and rate. Its average rests on `count_electives_completed` alone and is the program's.
- Metrics.CohortMetrics: built on the corrected counts, like `Metrics.AggregateOf`.
- Metrics.ProgramMetrics: built on the corrected counts, like `Metrics.AggregateOf`.
- Metrics.LatestQualifying: when several qualifying plans share the latest `vigente_desde`, the model takes the first in key order. `ORDER BY vigente_desde DESC ... first()` at `lib/metrics.py:19-31` leaves that order to SQLite.
- Metrics.RiskScore: built on the corrected counts; the same agreement applies.
- Reportes.Counts: built on the corrected counts; the same agreement applies.
- Reportes.TotalsSum: built on the corrected counts; the same agreement applies.
- Reportes.AverageIsAggregate: built on the corrected counts; the same agreement applies.
- Reportes.RiskRowMeaning: built on the corrected counts; the same agreement applies.
- Reportes.RiskRowOf: built on the corrected counts; the same agreement applies.
- Reportes.CourseDemand: the intended count of distinct students. The page counts joined rows, as `Reportes.CourseDemandAsWritten` models (see Findings).
- Reportes.CountStudents: the intended loop with a set of seen pairs, which the page's loop does not have; the page's loop is `Reportes.CountRows`.
- Planes.StatsRowOf: shows the intended average. The page shows `Planes.PromedioAsWritten` (see Findings).
- Inscripciones.CreateEach: the intended loop, with each log entry written once the inserts can commit. As written on SQLite nothing is stored (see Findings).
- Inscripciones.BulkCreate: the intended bulk creation; as written see `Inscripciones.BulkCreateAsWritten`.
- Inscripciones.CreateAll: the intended inserts; as written none of them is stored.
- Inscripciones.CreateAllShape: a property of the intended inserts.
- Inscripciones.NothingPendingAfter: a property of the intended bulk creation; as written everything stays pending (`Inscripciones.LockedLeavesPending`).
- Inscripciones.Repeated: lists the repeated courses in the order of first appearance. The page iterates `set(course_ids)`, whose order Python leaves arbitrary.
- Inscripciones.StatusCounts: as written, for a student with any enrollment `pages/04_Inscripciones.py:244` reads `e.course_id_ref`, whose AttributeError ends the script run, so the summary at lines 304-357 is never drawn for them. The model describes the summary as it would run.
- Rutas.DeleteItem: as written, when the plan in force has items, `pages/03_Rutas.py:71-75` reads `course_id_ref`, whose AttributeError ends the script run, so lines 104-357 are never drawn for that student. The model describes the action as it would run.
- Rutas.CloseAndReplace: never reached for a student whose plan in force has items, for the same reason.
- Rutas.CreateNextVersion: never reached for a student whose plan in force has items, for the same reason.
- Rutas.Summary: never drawn for a student whose plan in force has items, for the same reason.
- Planes.AddItem: takes the plan itself. The page picks it by its label "v<n>" at `pages/03_Planes.py:95-96`, and `.index` selects the first of several plans with the same version number.
- Estudiantes.ImportFile: the intended reading, in which an empty cell is the empty text. The page reads an empty cell as "nan", as `Estudiantes.ImportFileAsWritten` models (see Findings). `Estudiantes.FilledFileAgrees` shows the two agree on files without empty cells.
- Estudiantes.DeleteStudent: the intended delete with the database-side cascade. The page's own delete, which fails at the commit once the student has plans or enrollments, is `Estudiantes.DeleteAsWritten` (see Findings).
- Estudiantes.UpdateStudent: assumes the edit form is drawn. For a stored programme other than "MBA" and "EMBA" the page raises a ValueError first (see Findings).
- Auditoria.AuditLog: the query with the corrected student filter. The page's own query is `Auditoria.AuditLogAsWritten`.
- Auditoria.StudentOkExact: the corrected filter keeps only the chosen student's own Student entries. The comment at `pages/05_Auditoria.py:60` also speaks of matching enrollments and plans, which neither the code nor the model does.

## Findings

| source | as written | input that shows it | evidently intended | confidence | as-written member | corrected member |
|---|---|---|---|---|---|---|
| lib/metrics.py:73-76 | the dictionary comprehension keys both the NULL and the empty orientation group as "sin_orientacion", so the later group overwrites the earlier count | one completed elective with no orientation and one with an empty orientation: the counts total 1 while `count_electives_completed` is 2 | one "sin_orientacion" entry that adds both groups | not executed | Metrics.MergedGroupsUndercount | Metrics.ByOrientationTotal |
| pages/04_Inscripciones.py:49 | `enrollments.count(<generator>)` compares each enrollment with a generator object, so it is always 0 | a student enrolled twice in one course: the alert reports 0 enrollments of it | the number of enrollments with that `course_id` | not executed | Inscripciones.AsWrittenReportsZero | Inscripciones.DuplicateAlertsExact |
| pages/03_Planes.py:251 | the grade sum covers every enrollment with a grade, but it is divided by the number of completed enrollments | one completed course graded 80 and one failed course graded 40: the average shown is 120 | the mean grade of the completed enrollments | not executed | Planes.PromedioAsWrittenOverstates | Planes.PromedioWithinGrades |
| pages/02_Estudiantes.py:157-164 | `str(row.get("email", "")).strip()` turns an empty cell (NaN) into "nan", so the empty-field check passes | a file row with a nombre and an empty email cell imports a student whose email is "nan" | an empty cell is empty text, and the row is refused with "email o nombre vacíos" | not executed | Estudiantes.BlankEmailImported | Estudiantes.IntendedRejectsBlank |
| pages/03_Rutas.py:289 | `log_change` receives `motivo` both by position and by keyword, so it raises a TypeError after the close is committed at line 287 | a student whose only plan is in force, closed at `now`: afterwards no plan is in force and no successor exists | the close is logged and the successor version is created | not executed | Rutas.CloseAsWrittenLeavesNoPlan | Rutas.SuccessorInForce |
| pages/02_Estudiantes.py:79 | `session.delete(student)` without ORM-side cascade makes SQLAlchemy set `student_id` to NULL on the student's plans and enrollments. Those columns are NOT NULL, so the commit fails after the "eliminado" entry was logged | a student with one plan version: the delete leaves the student in place, while the log says "eliminado" | the database-side CASCADE that `lib/models.py:75` and `lib/models.py:102` declare removes the plans and enrollments with the student | not executed | Estudiantes.DeleteAsWrittenKeepsStudent | Estudiantes.DeleteCascadeKeepsReferences |
| pages/06_Reportes.py:22-72 | `course_demand[key]["Estudiantes Planned"]` counts joined plan-item rows, so a student with two open plans that both plan a course counts twice | one student, two open plans, each planning the same course: demand 2 | the number of distinct students planning the course | not executed | Reportes.DemandCountsItemsTwice | Reportes.StudentDemandCounts |
| pages/05_Auditoria.py:60-66 | the student filter keeps an entry when `entidad_id` equals the id OR `entidad == "Student"`, so every student's entries pass | a log holding one entry about another student is listed when a student is chosen | the entries about the chosen student: its own Student entries (the comment's matching of enrollments and plans is not modelled) | not executed | Auditoria.AsWrittenListsOtherStudent | Auditoria.StudentOkExact |
| pages/04_Inscripciones.py:197-200 | inside the page's session the loop flushes the insert and then calls `log_change`, whose own session cannot commit while the flushed insert holds SQLite's write lock; the "database is locked" error ends the run and the page's session closes without committing | a student with one planned item not yet enrolled: the button stores nothing and the item stays pending | one enrollment and one log entry per pending item | not executed | Inscripciones.LockedLeavesPending | Inscripciones.NothingPendingAfter |
| pages/02_Estudiantes.py:46 | `["MBA", "EMBA"].index(programa or "MBA")` raises a ValueError for any other stored programme, so the edit form with its update and delete buttons is never drawn | a student imported from a row with an empty programa cell has the programme "nan" | the box opens at a valid choice | not executed | Estudiantes.NanProgramaBlocksForm | Estudiantes.ProgramaIndex |
| lib/io_excel.py:85-105 | a blank Inicio or Final cell of the validated sheet is NaT, and `pd.notna` guards only the conversion to a date, so NaT reaches the field loop. There `NaT is not None` and NaT differs from every value, so NaT is written to the course (or a new course is built with it). Binding NaT to the `Date` column then fails the commit | a sheet with one row of a new MateriaID whose Final cell is empty: nothing is stored and the save error is reported | a blank date means no date: it keeps the stored one, and the import commits | not executed | IoExcel.BlankDateFailsImport | IoExcel.BlankDateKeepsStored |
