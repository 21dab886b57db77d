# scheda-volontari in Dafny

A model of the logic inside `app.py`, the Flask application in which volunteers record their
visits to assisted persons and an administrator reports on them. The database is modelled as
three in-memory tables: `volontari`, `assistiti` and `visite`.

- **Report query** (`query.dfy`, `filters.dfy`): `report`, `download_csv` and `download_pdf` build
  the same SQL text and parameter list from three optional criteria. The model gives the criteria
  their meaning as a predicate on visits (`Filters.Matches`). It builds the query twice: as the
  code is written (`QueryBuilder.BuildQuery`) and as evidently intended
  (`QueryBuilder.BuildQueryCorrected`). For the PostgreSQL dialect, the as-written builder is
  proved to produce the intended text. For SQLite, it is proved to lose the connective of every
  date conjunct (see Findings).
- **Statistics** (`counting.dfy`, `statistics.dfy`): the counting loops of `report` are methods
  with loop invariants. They are proved against counter maps defined by occurrence counts, and the
  totals, keys and sums of those maps are proved as lemmas.
- **Clean-ups** (`cleanup.dfy`): `clean` and `clean_volontari` are functions on the tables. They
  are proved to delete exactly the rows they should, to keep the UNIQUE and FOREIGN KEY
  constraints, and to be idempotent.
- **Volunteer form** (`submission.dfy`, `store.dfy`): the POST branches of `index` are specified
  as step functions on the tables. A `Database` class with the three tables and the session
  e-mail as fields implements those steps in place. It keeps the UNIQUE and FOREIGN KEY
  constraints as its invariant.
- **Downloads** (`export.dfy`): the CSV header row and table shape, and the 50-character
  truncation of PDF cells.

Nothing about the model depends on I/O. The dialect (whether `DATABASE_URL` is set), the
submitted form and the session e-mail are parameters or fields.

## Model

| member | source | states |
|---|---|---|
| Text.TextLe | app.py:163-168 | the text order in which TEXT dates are compared: code-point lexicographic, a prefix before its extensions; its order laws (reflexive, total, antisymmetric, transitive) are the lemmas below |
| Text.TextLeReflexive | app.py:163-168 | a date lies within the range whose start and end are that date |
| Text.TextLeTotal | app.py:36 | any two TEXT dates are comparable in the text order the date criteria use |
| Text.TextLeTransitive | app.py:296 | the text order of `BETWEEN` and of the date criteria is transitive |
| Text.TextLeAntisymmetric | app.py:36 | two dates each at most the other are equal |
| Text.Lower | app.py:54 | `.lower()` keeps the length, leaves no upper-case letter and changes only upper-case letters |
| Text.LowerIdempotent | app.py:65 | lower-casing the already lower-cased session e-mail again changes nothing |
| Schema.FindVolunteer | app.py:58-59 | the fetched volunteer has the e-mail asked for, and there is none exactly when no row has it |
| Schema.FindAssisted | app.py:91-92 | the fetched assisted person has the name asked for, and there is none exactly when no row has it |
| Schema.FindVolunteerUnique | app.py:26 | under the UNIQUE e-mail, the fetched row is the one row with that e-mail |
| Schema.FindAssistedUnique | app.py:29 | under the UNIQUE name, the fetched row is the one row with that name |
| Filters.Matches | app.py:160-168 | a visit matches exactly when it has the e-mail asked for and its date is within each given bound; an empty criterion imposes nothing, so a filter selects the intersection of its three single-criterion filters (FilterIsIntersection). ClausesDenoteFilter ties it to the query's conjuncts |
| Filters.JoinVisit | app.py:157-158 | a visit yields a joined row exactly when its volunteer and its assisted person exist, carrying their columns |
| Filters.Join | app.py:157-158 | the inner join lists no more rows than visits, each the joined row of some visit |
| Filters.JoinResolved | app.py:157-158 | when every visit finds its volunteer and assisted person, the join lists exactly one row per visit, in visit order |
| Filters.Select | app.py:156-171 | the report rows are the join of the visits that match the filter; their properties are the lemmas below and CleanedRangeReportsNothing |
| Filters.SelectRespectsDates | app.py:163-168 | every reported row satisfies the start and end criteria that are given |
| Filters.SelectCountsMatchingVisits | app.py:170-171 | under the foreign keys the report has exactly one row per matching visit, in table order |
| Filters.NoFilterSelectsAll | app.py:159-168 | with every criterion empty, every visit is selected |
| QueryBuilder.Params | app.py:159-168 | one parameter per conjunct |
| QueryBuilder.IntendedQuery | app.py:156-168 | the query meant by the code: the join, then " WHERE" before the first conjunct and " AND" before each later one; IntendedQueryHasOneWhere and ClausesDenoteFilter state what it says |
| QueryBuilder.SqliteAsWritten | app.py:161-167 | what the SQLite branch appends: " WHERE" before the e-mail conjunct only, each date conjunct bare; SqliteDatesBreakQuery and SqliteDateOnlyLosesWhere state the consequence |
| QueryBuilder.AsWrittenQuery | app.py:156-168 | the query text as written: the intended query under PostgreSQL, the join plus SqliteAsWritten under SQLite; BuildQuery is proved to produce it |
| QueryBuilder.Connective | app.py:164-167 | `' AND' if 'WHERE' in query else ' WHERE'`; ConnectiveAfter shows it sees exactly whether a conjunct was emitted |
| QueryBuilder.ParamsFollowCriteria | app.py:159-168 | the parameters are the non-empty criteria, in the order e-mail, start, end |
| QueryBuilder.ClausesDenoteFilter | app.py:160-168 | a visit satisfies all conjuncts of the query exactly when it matches the filter |
| QueryBuilder.QueryIgnoresValues | app.py:159-168 | the query text depends only on which criteria are present, never on their values |
| QueryBuilder.WhereClauseShape | app.py:164 | after a text without W, the WHERE clause holds "WHERE" exactly when it has a conjunct, and then only once |
| QueryBuilder.IntendedQueryHasOneWhere | app.py:156-168 | the intended query is the bare join when no criterion is given; otherwise it holds exactly one "WHERE" |
| QueryBuilder.ConnectiveAfter | app.py:164 | the test `'WHERE' in query` is true exactly when a conjunct has been emitted |
| QueryBuilder.AppendAsWritten | app.py:160-168 | one `if` body as written extends the dialect's as-written text by one conjunct |
| QueryBuilder.AddAsWritten | app.py:160-168 | one `if value:` as written adds its conjunct and its parameter exactly when the value is non-empty |
| QueryBuilder.BuildQuery | app.py:156-168 | the builder as written: the parameters are right, and the text is the intended query under PostgreSQL and the glued SQLite text otherwise |
| QueryBuilder.AppendIntended | app.py:160-168 | one `if` body with the intended grouping extends the WHERE clause by one conjunct |
| QueryBuilder.AddIntended | app.py:160-168 | one `if value:` with the intended grouping adds its conjunct and its parameter exactly when the value is non-empty |
| QueryBuilder.BuildQueryCorrected | app.py:156-168 | the builder with the intended grouping yields the intended query and the same parameters in both dialects |
| QueryBuilder.SqliteDateOnlyLosesWhere | app.py:164 | under SQLite a date-only filter yields a query without "WHERE", unlike the intended one |
| QueryBuilder.SqliteDatesBreakQuery | app.py:167 | under SQLite any date criterion makes the query differ from the intended one |
| QueryBuilder.SqliteStartDateExample | app.py:163-165 | a start date alone yields the join followed directly by ` vi.data_visita >= ?` |
| Counting.Tally | app.py:175-180 | a counter seeded with some keys at 0 after counting a list: each key maps to its number of occurrences; TallySnoc, TallySum and TallyKeys state its laws |
| Counting.TallySnoc | app.py:179-180 | counting one more row raises exactly its own key by one, adding the key if it is new |
| Counting.TallySum | app.py:178-180 | a counter sums to the number of rows counted, whatever keys it was seeded with |
| Counting.TallyKeys | app.py:175-180 | the keys are the seeded keys and the counted values; counted values have positive counts, and seeded keys never counted stay at 0 |
| Statistics.StatisticsOf | app.py:173-180 | the statistics of a row list: its length, the reception counter seeded with the three grades and the city counter; the lemmas below state its keys, counts and sums |
| Statistics.ComputeStatistics | app.py:173-180 | the loop yields the row count, the reception counter seeded with the three grades and the city counter |
| Statistics.CountersSumToTotal | app.py:174-180 | both counters sum to `totale_visite` |
| Statistics.ReceptionKeys | app.py:175-179 | Buona, Media and Scarsa are always keys; other keys are exactly the other reception values present; each key counts its rows |
| Statistics.CityKeys | app.py:176-180 | a city is a key exactly when some row has it, with a positive count equal to its number of rows |
| Statistics.TotalCountsSelectedVisits | app.py:170-174 | under the foreign keys the total is the number of visits the filter selects |
| Statistics.CountVisits | app.py:184 | the visits of an e-mail in the whole table; CountIsMultiplicity ties it to the e-mail column |
| Statistics.VolunteerStatsOf | app.py:182-185 | the dictionary after writing each volunteer's entry in table order, a later e-mail overwriting an earlier one; VolunteerStatsKeys and VolunteerStatsNames state its contents |
| Statistics.VolunteerStatistics | app.py:182-185 | the per-volunteer loop writes each volunteer's entry in table order |
| Statistics.VolunteerStatsKeys | app.py:182-185 | the entries are exactly the registered e-mails, each counting that e-mail's visits in the whole table, regardless of the filter |
| Statistics.VolunteerStatsNames | app.py:182-185 | under the UNIQUE e-mail each entry carries its own volunteer's names and count |
| Statistics.CountIsMultiplicity | app.py:184 | `COUNT(*) ... WHERE volontario_email = ?` is the number of occurrences of the e-mail in that column |
| Cleanup.InRange | app.py:292-296 | `data_visita BETWEEN start AND end` with bounds from `form.get`: false whenever a bound is missing (NULL), otherwise both text comparisons |
| Cleanup.DeleteVisitsBetween | app.py:296 | exactly the visits dated within the bounds are deleted; the others keep their multiplicity |
| Cleanup.PruneAssisted | app.py:297 | exactly the assisted persons no visit names are kept out |
| Cleanup.Clean | app.py:292-297 | volunteers are untouched, no visit in range remains, every remaining assisted person is named by a remaining visit |
| Cleanup.CleanVolontari | app.py:311 | exactly the volunteers no visit names are deleted; the other tables are untouched |
| Cleanup.CleanKeepsConsistency | app.py:296-297 | `clean` keeps the foreign keys |
| Cleanup.CleanVolontariKeepsConsistency | app.py:311 | `clean_volontari` keeps the foreign keys |
| Cleanup.CleanKeepsKeysUnique | app.py:296-297 | both clean-ups keep the UNIQUE constraints |
| Cleanup.MissingBoundDeletesNothing | app.py:292-296 | a missing form bound (NULL) deletes no visit |
| Cleanup.EmptyRangeDeletesNothing | app.py:296 | a start after the end deletes no visit |
| Cleanup.CleanedRangeReportsNothing | app.py:296 | after cleaning a range with an end bound, a report over that range is empty |
| Cleanup.CleanIdempotent | app.py:296-297 | `clean` twice with the same bounds is `clean` once |
| Cleanup.CleanVolontariIdempotent | app.py:311 | `clean_volontari` twice is `clean_volontari` once |
| Submission.FirstMissing | app.py:102-105 | there is no missing field exactly when all four visit fields are present; otherwise the one reported is the first missing one in reading order: every field before it is present |
| Submission.RegisterStep | app.py:64-82 | a taken e-mail changes nothing and reports the error; otherwise exactly one volunteer is appended and fetched |
| Submission.VisitFieldsChecked | app.py:102-105 | reading the four visit fields fails exactly when one of them is missing from the form |
| Submission.SubmitStep | app.py:83-115 | the visit branch as a function of the tables, the session e-mail and the form; SubmitOutcomes, SubmitKeepsInvariants and SubmitAddsAtMostOneVisit state what it does |
| Submission.SubmitOutcomes | app.py:83-115 | an unknown volunteer or a new assisted person without city changes nothing; a new assisted person with a city is committed whatever follows, even when a visit field is then missing; a visit is recorded exactly when the volunteer exists, the assisted person exists or has a city, and all fields are present, and it is the one row appended; the city message is shown exactly when the volunteer exists and a new assisted person has no city; the request fails with a missing field exactly when the volunteer exists, the assisted person exists or has a city, and a visit field is absent, and the field it names is a visit field the form lacks |
| Submission.MissingFieldKeepsNewAssisted | app.py:93-105 | a new assisted person with a city is committed, and stays, when a visit field is then missing and the request fails |
| Submission.RegisterKeepsInvariants | app.py:72-77 | registering keeps the constraints, and the row fetched after the insert is the new volunteer |
| Submission.SubmitKeepsInvariants | app.py:89-108 | submitting keeps the constraints: a visit is only inserted once its volunteer and assisted person exist |
| Submission.SubmitAddsAtMostOneVisit | app.py:106-109 | a recorded visit adds exactly one row, any other outcome none |
| Store.Database.constructor | app.py:18-43 | a fresh database has empty tables and satisfies the constraints |
| Store.Database.Show | app.py:116-123 | a GET shows the volunteer of the lower-cased session e-mail, if any |
| Store.Database.CheckEmail | app.py:53-63 | the lower-cased e-mail is stored in the session and looked up; the tables are unchanged |
| Store.Database.Register | app.py:64-82 | the in-place registration is RegisterStep on the lower-cased session e-mail and keeps the constraints |
| Store.Database.SubmitVisit | app.py:83-115 | the in-place visit submission is SubmitStep on the lower-cased session e-mail and keeps the constraints |
| Store.Database.ApplyVisit | app.py:84-115 | the statements of the visit branch, run in place, leave the tables and outcome SubmitStep describes |
| Store.Database.Post | app.py:52-115 | a POST keeps the constraints; only `check_email` changes the session, and it changes no table |
| Store.RegisterThenVisit | app.py:53-109 | checking an e-mail in any case, registering, then submitting a full visit records the visit under the lower-cased e-mail |
| Export.CsvTable | app.py:221-225 | the rows written: the header, then one row per report row; CsvTableShape states its shape |
| Export.CsvTableShape | app.py:221-225 | the CSV table is the header followed by every report row in order, all eight columns wide |
| Export.Truncate | app.py:275 | a cell keeps at most 50 characters, is a prefix of the value, and is the whole value when that is short enough |
| Export.PdfLine | app.py:273-276 | each PDF line pairs the truncated columns with the column widths |
| Export.PdfCellsArePrefixes | app.py:275 | every PDF cell shows the beginning of its value, and all of it up to 50 characters |

## Left out

- HTTP plumbing is not modelled: routing, templates, redirects, `send_file`, the admin password
  check (app.py:125-135), `logout` and `manuale`. The report filter's round trip through the
  session (app.py:148-154) is also left out, so the filter is a parameter.
- `get_db_connection` and the drivers are replaced by in-memory tables. Transactions, commits and
  connection handling are left out. Each step happens whole, except that when a visit field is
  missing, the assisted-person insert made before it stays.
- SQLite does not enforce FOREIGN KEY clauses unless asked to. The model proves that the code
  itself keeps them; it does not rely on the database.
- The `id SERIAL` columns are not modelled, because nothing in the core reads them.
- The join is modelled by first-match lookups. Under the UNIQUE keys this equals the SQL inner
  join.
- Rows come back in table order. SQL without `ORDER BY` promises no order.
- `index` writes its statements with `?` placeholders in both dialects (app.py:58-120). Under
  PostgreSQL psycopg2 expects `%s`; the model treats these statements as executed.
- Text.Lower: lower-cases ASCII letters only, whereas Python's `str.lower` also maps non-ASCII
  letters.
- Text.TextLe: is code-point order, which is SQLite's default collation. PostgreSQL compares by the
  database collation, which may order some strings differently.
- Export.CsvTableShape: the quoting and escaping done by `csv.writer` and the UTF-8 encoding are
  not modelled.
- The PDF header line and column widths (app.py:268-271) are page layout: only the constant
  headers and widths are modelled, not the header line FPDF draws.
- Filters.Select: the rows are those of the intended query, which only the PostgreSQL branch
  builds. Under SQLite any date criterion yields malformed SQL (see Findings); running that text
  is not modelled, so `report`, `download_csv` and `download_pdf` then fail instead of returning
  these rows.
- Export.PdfLine: FPDF's fonts, layout and output are not modelled. `str(item)` is the identity
  because every selected column is TEXT.
- Python dictionaries keep insertion order, and the template shows the statistics in that order.
  The maps of the model are unordered.
- Store.Database.Post: states only the constraints and which branches leave the tables or the
  session unchanged. The result of each branch is stated by CheckEmail, Register and SubmitVisit.
- Counting.SumValues: is a ghost function, so the sums are stated in lemmas, not in the
  loops' contracts.

## Findings

| source | as written | input that shows it | evidently intended | confidence | as-written member | corrected member |
|---|---|---|---|---|---|---|
| app.py:164 | The conditional expression binds more loosely than `+`. So the connective is only chosen under PostgreSQL, and the SQLite branch appends ` vi.data_visita >= ?` alone. | SQLite, e-mail empty, start `2024-01-01`, end empty: the query ends `a.nome_sigla vi.data_visita >= ?` | ` WHERE vi.data_visita >= ?` (or ` AND ...` after the e-mail conjunct) in both dialects | not executed | QueryBuilder.SqliteDateOnlyLosesWhere | QueryBuilder.BuildQueryCorrected |
| app.py:167 | The same grouping drops ` AND`/` WHERE` before ` vi.data_visita <= ?` under SQLite. | SQLite, e-mail `a@b.it`, end `2024-12-31`: the query ends `v.email = ? vi.data_visita <= ?` | ` AND vi.data_visita <= ?` | not executed | QueryBuilder.SqliteDatesBreakQuery | QueryBuilder.BuildQueryCorrected |
