# BadgerSpace ingestion and rules, in Dafny

BadgerSpace is a course-review site for UW–Madison. This project models its data-ingestion
pipeline and its small pure rules, and proves what each of them promises:

- **Degree-plan scanner** (`TermScanner`, `DegreePlan`). Lines of degree-plan text are
  scanned in order. A line naming a season and a year sets the current term. Every
  upper-case course code is emitted with that term. Duplicate (code, term) pairs are
  dropped, keeping the first. The import then inserts one (user, code, semester) row per
  entry unless that row exists. `lib/pdf.ts` and `scripts/parse-degree-plan.ts` hold the
  same scanner; one model serves both.
- **Enroll payload parser** (`EnrollParser`, over the JSON value model `Js`). Rows of a
  captured schedule payload come in three shapes, and each row is reduced to a course
  code, a section and a list of instructor names.
- **HAR filtering** (`Har`, `EnrollRoute`, `HarExtract`). The entries of a captured
  browser session are filtered by host, content and JSON shape. The admin import route
  merges items per (code, section) and writes them. The extraction script either applies
  the payloads or names an output file for each.
- **Upsert engine** (`Store`, `ScheduleUpsert`, `GuideCatalog`, `CourseImport`). The
  database is a class holding maps and sets, and every "upsert with an empty update" is
  insert-if-absent. Each loop is modelled as a method proved equal to a specification
  function, and the lemmas describe that function: counts, idempotence, what is skipped
  and what is left alone.
- **Small rules**:
  - `Grades`: the rating-to-letter mapping and the average;
  - `Validators`: the review, vote and report request schemas, as parsers;
  - `Access`: review redaction;
  - `RateLimit`: the per-key rate limiter, a class over a dictionary;
  - `Calendar`: the month grid builder.

Outside calls become parameters:

- `JSON.parse` is a function returning an `Option`.
- Base64 decoding is a function on strings.
- The PDF text, the catalog titles and the HAR file contents are inputs.
- The clock is an input (`now`, the weekday of the first of the month, the number of days).

JavaScript semantics are written out where the code relies on them:

- `||` falls through on falsy values.
- Property access on `null` or `undefined` throws, and the exception ends the surrounding
  `try`.
- `\s` is JavaScript's whitespace set.
- A regex with the `i` flag but no `u` flag folds case in ASCII only.

## Model

| member | source | states |
|---|---|---|
| TermScanner.FindTermSpec | lib/pdf.ts:12-14 | a line announces a term exactly when some position holds a season word in any case, whitespace and `20dd`; the announced term is `<year>-<Season>` with only the season's first letter upper case, and it is the match at the leftmost position that has one |
| TermScanner.FindTermNone | lib/pdf.ts:12 | with no match at or after a position, the search from there finds nothing |
| TermScanner.FindTermReaches | lib/pdf.ts:12 | a match at a position is found by a search starting anywhere up to it |
| TermScanner.SeasonMatchIsTerm | lib/pdf.ts:12-14 | a match of one season alternative has the word at the position in any case, and its value is the `20dd` year found after a whitespace run, `-`, and the season as written in the alternative list |
| TermScanner.FindTermLeftmost | lib/pdf.ts:12-14 | the search gives the match at the leftmost matching position |
| TermScanner.TermAfterNone | lib/pdf.ts:10-15 | lines before any term line leave the current term absent |
| TermScanner.TermAfterLatest | lib/pdf.ts:10-15 | the current term is that of the latest term line, whatever follows it |
| TermScanner.TermAfterIsTerm | lib/pdf.ts:12-14 | every term in force is a normalised `<year>-<Season>` |
| TermScanner.CodesOfShape | lib/pdf.ts:16-17 | every emitted code is an `[A-Z&]` department of two or more characters directly followed by 3–4 digits and an optional upper-case letter, with no whitespace |
| TermScanner.IsCodeChars | lib/pdf.ts:16-17 | codes hold only upper-case letters, `&` and digits |
| TermScanner.ScanLines | lib/pdf.ts:11-20 | the line loop equals the specification: the term is updated before the line's codes are tagged |
| TermScanner.PushCodes | lib/pdf.ts:16-19 | the inner loop appends every code of the line, in order, tagged with the current term |
| TermScanner.ScanShape | lib/pdf.ts:11-19 | every raw entry has a well-formed code and either no term or a normalised one |
| TermScanner.KeepFirst | lib/pdf.ts:21-27 | the `seen`-set filter equals first-occurrence deduplication by key |
| TermScanner.ExtractCourses | lib/pdf.ts:7-27 | the whole scanner (also `extractCourses` of scripts/parse-degree-plan.ts) equals its specification |
| TermScanner.DedupFirstOccurrences | lib/pdf.ts:21-27 | the filter keeps exactly the first entry of each key, in the order of those first entries, and loses no key |
| TermScanner.DedupNoDuplicateKeys | lib/pdf.ts:21-27 | no two kept entries share a key |
| TermScanner.KeyInjective | lib/pdf.ts:23 | for scanner output the string key `code|term` determines the code and the term |
| TermScanner.KeySplit | lib/pdf.ts:23 | a key `code|term` splits back into its code and its term when the code holds no `|` |
| TermScanner.DedupKeepsEveryPair | lib/pdf.ts:21-27 | no well-formed (code, term) pair is dropped |
| TermScanner.ExtractKeepsEachPairOnce | lib/pdf.ts:16-27 | the result holds every raw pair once and nothing else |
| TermScanner.ExtractWellFormed | lib/pdf.ts:16-27 | every result entry is well formed and no entry repeats |
| TermScanner.DedupWellFormed | lib/pdf.ts:21-27 | the filter keeps well-formed entries well formed and leaves no entry twice |
| TermScanner.ExtractEmpty | lib/pdf.ts:7-8 | empty text yields no entries |
| TermScanner.ExampleCodeMatch | lib/pdf.ts:16 | "MATH 521" matches with groups MATH and 521 |
| TermScanner.ExampleCodeLine | lib/pdf.ts:16-17 | the line "MATH 521" yields the code MATH521 |
| TermScanner.ExampleLowerCaseDept | scripts/parse-degree-plan.ts:28 | without the `i` flag "Math 521" yields no code |
| TermScanner.ExampleTermLine | lib/pdf.ts:12-14 | "Fall 2025" announces 2025-Fall |
| TermScanner.ExampleTermLineHasNoCode | lib/pdf.ts:16 | "Fall 2025" holds no code |
| TermScanner.ExampleCodeLineHasNoTerm | lib/pdf.ts:12 | "MATH 521" announces no term |
| TermScanner.ExampleTermCarried | lib/pdf.ts:10-15 | a term carries to the next line; a code line alone has no term |
| TermScanner.ExampleCarryForward | lib/pdf.ts:11-19 | a term line then a code line yield the code with that term |
| DegreePlan.UpsertRows | scripts/parse-degree-plan.ts:63-75 | one insert-if-absent row per entry, each counted, rows keyed by (user, code, term or "unknown") |
| DegreePlan.ImportDegreePlan | scripts/parse-degree-plan.ts:44-76 | a missing e-mail or an unknown user stops the import before any row is written; otherwise rows are added and the count is the number of scanned entries |
| DegreePlan.SemesterInjective | scripts/parse-degree-plan.ts:67-68 | a normalised term is never "unknown", so the semester keeps "no term" apart from every term |
| DegreePlan.RowsSize | scripts/parse-degree-plan.ts:66-68 | distinct well-formed entries give as many distinct rows |
| DegreePlan.RowInjective | scripts/parse-degree-plan.ts:66-68 | two well-formed entries give the same row only when they are the same entry |
| DegreePlan.RowsCard | scripts/parse-degree-plan.ts:66-68 | pairwise different rows are as many as the entries |
| DegreePlan.ImportCountsDistinctRows | scripts/parse-degree-plan.ts:63-75 | the count equals the number of distinct rows the import writes |
| DegreePlan.ReimportAddsNothing | scripts/parse-degree-plan.ts:66-70 | importing the same plan again adds no row |
| Js.Or | lib/enroll-parser.ts:13 | `a || b` is truthy exactly when either operand is |
| Js.Get | lib/enroll-parser.ts:13 | property access throws exactly on `null` and `undefined` |
| EnrollParser.MapNames | lib/enroll-parser.ts:15-16 | mapping the instructor entries keeps their number unless an entry throws |
| EnrollParser.KeepTruthy | lib/enroll-parser.ts:17 | `.filter(Boolean)` keeps exactly the truthy names, no more |
| EnrollParser.ParseEnrollJSON | lib/enroll-parser.ts:7-24 | the row loop equals the specification of the parser |
| EnrollParser.RowItemsErrSticks | lib/enroll-parser.ts:12-23 | once a row throws, the whole walk throws |
| EnrollParser.RowItemsWellFormed | lib/enroll-parser.ts:12-18 | at most one item per row, each with a non-empty, space-free code and truthy instructor names |
| EnrollParser.ParseEnrollWellFormed | lib/enroll-parser.ts:7-24 | every parsed item is well formed |
| EnrollParser.NullRowEmptiesResult | lib/enroll-parser.ts:8-23 | a `null` row makes the whole result empty |
| EnrollParser.MalformedGivesNothing | lib/enroll-parser.ts:8-23 | unparseable JSON yields no items rather than an exception |
| EnrollParser.NoRowListGivesNothing | lib/enroll-parser.ts:10 | a value that is not an array and has no truthy `results` or `courses` yields no rows |
| EnrollParser.FixtureItems | tests/scrape-uw.test.ts:6-15 | the three-shape fixture yields MATH521/001/[Prof A, Prof B], CS400/002/[TA C], ECON101/003/[Prof D] |
| Har.EnrollHostIgnoresCase | app/api/admin/import/enroll/route.ts:31 | the host test ignores the case of the URL |
| Har.SpaceBeforeJson | app/api/admin/import/enroll/route.ts:38 | a leading whitespace character never changes whether a body is taken |
| Har.LeadingSpaceBeforeJson | app/api/admin/import/enroll/route.ts:38 | a space and a newline before `{}` do not stop the body from being taken |
| Har.MarkupIsNotJson | app/api/admin/import/enroll/route.ts:38 | a markup page is not taken for a payload |
| EnrollRoute.PostStatus | app/api/admin/import/enroll/route.ts:12-20 | the response is 403 exactly for a non-admin; 400 exactly for an admin whose form is unreadable, whose term is missing, whose file is missing or empty, or whose upload yields no readable text; 500 for an admin whose `file` field is a non-empty string, which has no `arrayBuffer` |
| EnrollRoute.ImportNeverRefuses | app/api/admin/import/enroll/route.ts:48-56 | once the upload is read, the import answers 200 or 500, never 400 or 403 |
| EnrollRoute.ReadUpload | app/api/admin/import/enroll/route.ts:22-46 | the entry loop equals the specification of the collected bodies |
| EnrollRoute.RawUploadIsOnePayload | app/api/admin/import/enroll/route.ts:40-43 | an upload that is not a HAR is one payload, taken whole |
| EnrollRoute.EntryBody | app/api/admin/import/enroll/route.ts:29-39 | a body taken from one HAR entry looks like JSON |
| EnrollRoute.BodiesAreJson | app/api/admin/import/enroll/route.ts:29-39 | every collected body looks like JSON, at most one per entry |
| EnrollRoute.OtherHostSkipped | app/api/admin/import/enroll/route.ts:31 | an entry from another host contributes nothing |
| EnrollRoute.Distinct | app/api/admin/import/enroll/route.ts:52 | `Array.from(new Set(xs))` has the same elements, none twice |
| EnrollRoute.DistinctAbsorbs | app/api/admin/import/enroll/route.ts:52 | taking distinct elements early does not change the union |
| EnrollRoute.MergeKeyedKeys | app/api/admin/import/enroll/route.ts:49-53 | the merged keys are the distinct keys in order of first appearance |
| EnrollRoute.MergeKeyedSpec | app/api/admin/import/enroll/route.ts:49-53 | each merged entry has the code and section of the last item with its key and the duplicate-free union of all its lists, in first-seen order |
| EnrollRoute.MergedEntryOther | app/api/admin/import/enroll/route.ts:49-53 | the merged entry of another key is unchanged by one more item |
| EnrollRoute.MergedEntryNew | app/api/admin/import/enroll/route.ts:49-53 | the entry written for an item has its code and section and the union of all lists for its key |
| EnrollRoute.MergeItems | app/api/admin/import/enroll/route.ts:49-53 | the merge loop equals its specification |
| EnrollRoute.ParseAll | app/api/admin/import/enroll/route.ts:48 | the `flatMap` equals the concatenated parses |
| EnrollRoute.Import | app/api/admin/import/enroll/route.ts:48-56 | parse, merge and upsert equal the specified outcome |
| EnrollRoute.Post | app/api/admin/import/enroll/route.ts:11-57 | the handler equals the specified response and store |
| EnrollRoute.RefusedRequestWritesNothing | app/api/admin/import/enroll/route.ts:13-19 | a 403 or 400 response leaves the store unchanged, and a non-admin always gets 403 |
| EnrollRoute.ImportedCounts | app/api/admin/import/enroll/route.ts:55-56 | the reported counts are those of the upsert on the merged items |
| EnrollRoute.MergedKeysDistinct | app/api/admin/import/enroll/route.ts:49-53 | merged items have pairwise distinct keys |
| EnrollRoute.RepeatedUploadIdempotent | app/api/admin/import/enroll/route.ts:48-56 | uploading the same file again changes nothing and gives the same response (the store is keyed by the corrected section `""` for a falsy section, where the source creates the row with `null`; see Findings) |
| ScheduleUpsert.OfferingId | lib/schedule.ts:15-19 | an offering's id is the index of its first row, or the next index for a new one |
| ScheduleUpsert.InsertOffering | lib/schedule.ts:15-19 | the offering upsert inserts only an absent row and keeps earlier rows and ids (the store is keyed by the corrected section `""` for a falsy section, where the source creates the row with `null`; see Findings) |
| ScheduleUpsert.LinkedNames | lib/schedule.ts:21-23 | the linked names are trimmed and non-empty |
| ScheduleUpsert.LinkedNamesFrom | lib/schedule.ts:21-23 | every linked name is the trimmed text of a string entry of the instructor list |
| ScheduleUpsert.LinkAllClosedForm | lib/schedule.ts:21-40 | the instructor loop links every trimmed non-empty name, counts each once, and throws exactly on a non-string entry |
| ScheduleUpsert.LinkInstructors | lib/schedule.ts:21-40 | the instructor loop on the store equals its specification |
| ScheduleUpsert.UpsertSchedule | lib/schedule.ts:9-43 | the store becomes that of the run; the counts are returned unless an exception ended the run (the store is keyed by the corrected section `""` for a falsy section, where the source creates the row with `null`; see Findings) |
| ScheduleUpsert.LinkName | lib/schedule.ts:24-38 | the three upserts of one name add the instructor, its offering link and its course link to the store, and nothing else |
| ScheduleUpsert.UpsertOffering | lib/schedule.ts:15-19 | the offering upsert on the store inserts the row only when it is absent (the store is keyed by the corrected section `""` for a falsy section, where the source creates the row with `null`; see Findings) |
| ScheduleUpsert.UpsertAndLink | lib/schedule.ts:15-40 | the offering upsert then the instructor loop leave the store as the specification of both, linking under the id of the offering's first row |
| ScheduleUpsert.ItemStepKnown | lib/schedule.ts:15-20 | an item with a known course and a usable section counts one offering and adds the instructor loop's links |
| ScheduleUpsert.UpsertConsistent | lib/schedule.ts:15-38 | upserting an offering of an existing course and linking names to it keeps every link pointing at existing rows |
| ScheduleUpsert.UpsertItem | lib/schedule.ts:13-40 | one pass of the item loop: an unknown course is skipped, a usable one gets its offering upserted, counted and its instructors linked, a missing section throws |
| ScheduleUpsert.ScheduleGrows | lib/schedule.ts:15-38 | the run only inserts: existing offerings keep their rows and ids, no link is removed |
| ScheduleUpsert.ScheduleIdempotent | lib/schedule.ts:12-41 | running again on the resulting store changes nothing and reports the same counts (the store is keyed by the corrected section `""` for a falsy section, where the source creates the row with `null`; see Findings) |
| ScheduleUpsert.ScheduleSkipsUnknown | lib/schedule.ts:13-14 | items whose course is unknown are skipped |
| ScheduleUpsert.ScheduleCounts | lib/schedule.ts:10-42 | one offering per known item even when it already existed, one link per non-empty name |
| ScheduleUpsert.ScheduleConsistent | lib/schedule.ts:12-41 | links only refer to existing offerings, courses and instructors |
| ScheduleUpsert.EveryNameLinked | lib/schedule.ts:21-38 | each non-empty name of a known item is linked to its offering and its course |
| ScheduleUpsert.AsWrittenSectionlessAlwaysInserts | lib/schedule.ts:15-19 | as written, a sectionless offering is looked up under `''` but stored as `null`, so it is inserted again |
| ScheduleUpsert.AsWrittenRerunDuplicates | lib/schedule.ts:15-19 | as written, importing a sectionless item twice leaves two identical rows |
| HarExtract.SafeName | scripts/har-extract-enroll.ts:70 | the name holds only letters, digits and `_`, starting as the URL does |
| HarExtract.SafeNameSpec | scripts/har-extract-enroll.ts:70 | no two underscores in a row, and every letter and digit of the URL kept in order |
| HarExtract.SafeNameSqueezes | scripts/har-extract-enroll.ts:70 | the name equals the reference: every character other than a letter or digit replaced by `_`, then each run of `_` squeezed to one; so each maximal run of such characters becomes exactly one `_` |
| HarExtract.FileNameShape | scripts/har-extract-enroll.ts:70-71 | the name is the index padded to four digits, `_`, the first 100 characters of the safe name (letters, digits and `_` only), and `.json` |
| HarExtract.ExtractEntrySound | scripts/har-extract-enroll.ts:52-62 | a payload comes only from an enroll-host entry whose response passes the text, mime, decoding and JSON tests |
| HarExtract.ExtractEntryComplete | scripts/har-extract-enroll.ts:52-62 | every such entry yields its (decoded) body |
| HarExtract.ExtractCounts | scripts/har-extract-enroll.ts:49-75 | apply mode counts the parsed items, out mode one per payload, neither mode nothing |
| HarExtract.UsePayloadOn | scripts/har-extract-enroll.ts:63-75 | one payload on the store equals its specification |
| HarExtract.ApplyEntry | scripts/har-extract-enroll.ts:51-75 | one loop turn on the store equals its specification |
| HarExtract.RunExtract | scripts/har-extract-enroll.ts:29-79 | the script equals its specified report and store |
| HarExtract.ExtractReport | scripts/har-extract-enroll.ts:63-78 | a finished run reports the item total with `--apply`, one file per payload with `--out` (store untouched), and 0 otherwise |
| HarExtract.ArgumentsCheckedFirst | scripts/har-extract-enroll.ts:38-45 | a missing `--har`, or `--apply` without `--term`, fails before reading and leaves the store |
| GuideCatalog.FirstCodeGroups | scripts/scrape-uw.ts:61 | the leftmost match of the code pattern, and none when no position matches |
| GuideCatalog.CodeGroupsShape | scripts/scrape-uw.ts:61-63 | the letter group and the number group form a code |
| GuideCatalog.CodeGroupsPlace | scripts/scrape-uw.ts:61 | the groups sit in the title with only whitespace between them |
| GuideCatalog.FirstCreditsNumeral | scripts/scrape-uw.ts:62 | the credits text is the match at the leftmost position that has one, and it is a digit run with an optional `.` and second digit run |
| GuideCatalog.CreditsAtShape | scripts/scrape-uw.ts:62 | a match is a numeral of the form digits, optionally `.` digits, sitting in the title and followed by a whitespace run and `credit` |
| GuideCatalog.FirstCreditsLeftmost | scripts/scrape-uw.ts:62 | the first match from a position is at the leftmost position from there that has one |
| GuideCatalog.NameOf | scripts/scrape-uw.ts:64 | the name is the trimmed text between the first em dash and the next one (or the end of the title); it is the whole title when that text is blank or when there is no em dash; a non-empty title gives a non-empty name |
| GuideCatalog.SecondPieces | scripts/scrape-uw.ts:64 | the second piece of `split` is the text between the first separator and the next one, or the end |
| GuideCatalog.ParseGuideCatalog | scripts/scrape-uw.ts:53-72 | the block loop equals the specification |
| GuideCatalog.TitleItemWellFormed | scripts/scrape-uw.ts:58-68 | an item has a code, a non-empty name, its department group and credits starting with a digit |
| GuideCatalog.CatalogItemsWellFormed | scripts/scrape-uw.ts:55-71 | every item is well formed, at most one per title |
| GuideCatalog.TitleWithoutCode | scripts/scrape-uw.ts:58-66 | a blank title or one without a code contributes nothing |
| GuideCatalog.UpsertCatalog | scripts/scrape-uw.ts:74-92 | the loop on the store equals its specification |
| GuideCatalog.CatalogCourseFate | scripts/scrape-uw.ts:75-91 | a code no kept item has is untouched; any other is present with each field set by the last item that sets it |
| GuideCatalog.CatalogDepartmentFate | scripts/scrape-uw.ts:77-85 | departments are only added, named by their own code, and come from kept items |
| GuideCatalog.CatalogDeptPresent | scripts/scrape-uw.ts:78-85 | the department of every kept item is present afterwards |
| GuideCatalog.CatalogRunIdempotent | scripts/scrape-uw.ts:74-92 | running the same items again changes nothing |
| CourseImport.BuildRow | scripts/import-courses.ts:51-52 | the `forEach` equals the specified row |
| CourseImport.RowOfSpec | scripts/import-courses.ts:48-52 | a header's cell is the trimmed column under its last occurrence, `""` when missing |
| CourseImport.RowOfKeys | scripts/import-courses.ts:51-52 | the row has a cell for exactly the headers |
| CourseImport.FirstFilled | scripts/import-courses.ts:56 | the department code is the first non-empty of the three columns |
| CourseImport.NonEmptyLines | scripts/import-courses.ts:46 | only non-empty lines are kept |
| CourseImport.ParseCSV | scripts/import-courses.ts:45-62 | no lines give no courses; otherwise one course per data line |
| CourseImport.HeaderFound | scripts/import-courses.ts:48 | headers are trimmed and lower-cased |
| CourseImport.BlankCSV | scripts/import-courses.ts:46-47 | only blank lines give no courses |
| CourseImport.Normalize | scripts/import-courses.ts:64-72 | the code is upper case without whitespace, the name trimmed, the rest unchanged |
| CourseImport.NormalizeIdempotent | scripts/import-courses.ts:64-72 | normalising twice is normalising once |
| CourseImport.DeptCodeOf | scripts/import-courses.ts:79 | the department column when set, otherwise a non-empty fallback |
| CourseImport.DeptFallback | scripts/import-courses.ts:79 | the fallback is the code's leading letters, upper-cased |
| CourseImport.ImportOne | scripts/import-courses.ts:77-101 | one loop turn on the store equals its specification |
| CourseImport.UpsertCourses | scripts/import-courses.ts:74-104 | the loop on the store equals its specification |
| CourseImport.ImportCounts | scripts/import-courses.ts:74-104 | created + updated is the number of usable rows; created is the number of new codes |
| CourseImport.ImportLeavesOthers | scripts/import-courses.ts:76-101 | a course no usable row names is untouched |
| CourseImport.ImportStepDepartment | scripts/import-courses.ts:79-88 | a usable row's department exists afterwards, named by its name column or its code |
| Grades.RatingToGPA | lib/grades.ts:4-8 | the grade point lies in [0, 4] and is the rating minus one inside [1, 5] |
| Grades.GpaToLetterIsBestReached | lib/grades.ts:11-20 | the letter is the best one whose threshold the clamped grade point reaches |
| Grades.GpaToLetterMonotone | lib/grades.ts:11-20 | a higher grade point never gives a worse letter |
| Grades.RatingToLetterMonotone | lib/grades.ts:23-25 | a higher rating never gives a worse letter |
| Grades.LetterExamples | tests/grades.test.ts:5-23 | the thresholds at their floors, and 5→A, 4.5→AB, 3→C |
| Grades.AverageBounds | lib/grades.ts:27-30 | the average of numbers in [lo, hi] lies in [lo, hi] |
| Grades.AverageBetweenMinAndMax | lib/grades.ts:27-30 | the average lies between the smallest and largest number |
| Grades.AverageEmpty | lib/grades.ts:28 | the average of no numbers is 0 |
| Access.RedactUnlessOneReview | lib/access.ts:1-3 | reviews are shown exactly for a count of at least one; missing and 0 redact |
| Access.RedactedText | lib/access.ts:5-8 | gated text is the text for a reviewer and `""` for anyone else |
| Validators.SemesterGroups | lib/validators.ts:3 | the whole string is `20dd-` and one of the four seasons as written |
| Validators.SemesterGroupsRoundTrip | lib/validators.ts:3 | every such string is matched with its year and season as groups |
| Validators.SemesterIsScannerTerm | lib/validators.ts:3 | accepted semesters are exactly the scanner's normalised terms |
| Validators.SeasonFirstRejected | tests/validators.test.ts:19-23 | a season-first semester such as "Fall 2025" is rejected |
| Validators.TrimmedText | lib/validators.ts:6 | a string field passes when its trimmed length is in bounds, yielding the trimmed text |
| Validators.OptionalText | lib/validators.ts:8-9 | an absent field passes; a present one must pass the rule |
| Validators.Rating | lib/validators.ts:11-14 | a rating is an integer from 1 to 5 |
| Validators.RatingRoundTrip | lib/validators.ts:11-14 | every whole rating from 1 to 5 sent as a number is accepted as itself |
| Validators.OptionalRating | lib/validators.ts:19-22 | an absent rating passes; a present one must be an integer from 1 to 5 |
| Validators.ParseCreate | lib/validators.ts:5-15 | a review is accepted exactly when every field passes its rule, and comes back trimmed and in bounds |
| Validators.CreateRoundTrip | lib/validators.ts:5-15 | every in-bounds review is accepted as sent and comes back unchanged |
| Validators.CreateReparse | lib/validators.ts:5-15 | re-sending a parsed review gives the same review |
| Validators.ShortContentRejected | tests/validators.test.ts:25-29 | content shorter than 50 characters is rejected |
| Validators.BadSemesterRejected | lib/validators.ts:7 | a semester not of the form `<year>-<Season>` is rejected |
| Validators.ParseUpdate | lib/validators.ts:17-23 | an update is accepted exactly when every present field passes its rule |
| Validators.SingleRatingUpdate | tests/validators.test.ts:31-34 | `{ ratingContent: 4 }` is accepted and changes only that rating |
| Validators.EmptyUpdate | lib/validators.ts:17-23 | an empty update is accepted and changes nothing |
| Validators.UpdateAcceptsCreateValues | lib/validators.ts:10-23 | content and ratings the create schema accepts, the update schema accepts |
| Validators.ParseVote | lib/validators.ts:25 | a vote is accepted exactly when it is 1 or -1 |
| Validators.ParseReport | lib/validators.ts:27 | a reason is accepted when its trimmed length is 5–300, yielding the trimmed text |
| Validators.ReportIgnoresPadding | lib/validators.ts:27 | surrounding whitespace changes neither the verdict nor the reason kept |
| RateLimit.Limiter.constructor | lib/rate-limit.ts:3 | the dictionary starts empty |
| RateLimit.Limiter.RateLimit | lib/rate-limit.ts:5-18 | the call's verdict and the new dictionary are those of the specification |
| RateLimit.NewKeyStartsAtZero | lib/rate-limit.ts:8 | a new key is allowed exactly when the limit is positive, and then holds one token stamped now |
| RateLimit.ExpiredEntryResets | lib/rate-limit.ts:9-12 | an entry more than an hour old counts from zero and is restamped even when refused |
| RateLimit.InWindow | lib/rate-limit.ts:13-17 | within the hour a key is allowed exactly below the limit; allowed adds one token and restamps, refused changes nothing |
| RateLimit.OtherKeysUntouched | lib/rate-limit.ts:8-16 | other keys are neither added, removed nor changed |
| RateLimit.KeysGrowByKey | lib/rate-limit.ts:8-16 | only the called key may be added, and nothing is removed |
| RateLimit.WithinLimitPreserved | lib/rate-limit.ts:13-15 | with one limit, stored counts stay between 0 and the limit |
| RateLimit.BurstAllowsUpToLimit | lib/rate-limit.ts:5-18 | n calls at one instant on a fresh key are allowed min(n, limit) times |
| Calendar.Offset | components/Calendar.tsx:10 | the Monday-first offset is below 7; Monday gives 0, Sunday 6 |
| Calendar.BuildCalendar | components/Calendar.tsx:5-18 | ceil((offset + days) / 7) rows of 7 cells; cell k is day k − offset + 1 inside the month and empty elsewhere; the days read in order are 1..days |
| Calendar.AppendWeek | components/Calendar.tsx:14 | pushing a full week laid out cell by cell keeps every row 7 cells laid out cell by cell |
| Calendar.RowsCover | components/Calendar.tsx:11-16 | the ceil((offset + days) / 7) rows have room for the leading empty cells and every day |
| Calendar.FlattenCells | components/Calendar.tsx:12-16 | the grid read row by row is the cell sequence |
| Calendar.PresentCells | components/Calendar.tsx:11-15 | the days among the first n cells are 1, 2, … up to the last day reached |
| Calendar.TrailingEmptyOnlyInLastRow | components/Calendar.tsx:16 | empty cells after the last day appear only in the final row |
| Calendar.NoEmptyLastRow | components/Calendar.tsx:12-16 | the last row holds the last day: no empty trailing row |
| Calendar.GridShowsMonth | components/Calendar.tsx:11-16 | the days read row by row are exactly 1..days, and the first row starts with the offset's empty cells |

## Left out

- The PDF text extraction (`pdfParse`), cheerio's HTML selection, `fetch`, file reads and writes, and `Buffer` base64 decoding. Their results are inputs, or function parameters.
- The file path of an extracted payload (`path.resolve`) and the directory creation. The model keeps the file name and the text written.
- Console output, `process.exit` and the argument parsing of the scripts. The model keeps the argument checks that stop a script, as error results.
- ScheduleUpsert.InsertOffering: a row for a falsy section is created with the section `""` it is looked up by, not with the `null` that lib/schedule.ts:17 writes (see Findings; ScheduleUpsert.AsWrittenRerunDuplicates keeps the as-written behaviour).
- ScheduleUpsert.UpsertOffering: uses the corrected section `""`, as InsertOffering does.
- ScheduleUpsert.UpsertSchedule: uses the corrected section `""`, as InsertOffering does.
- ScheduleUpsert.ScheduleIdempotent: holds for the corrected section `""`; with the source's `null` a sectionless item is inserted again on every run.
- EnrollRoute.RepeatedUploadIdempotent: holds for the corrected section `""`, as ScheduleIdempotent does.
- Prisma errors, unique-constraint races, transactions and the schema. The store is in-memory maps and sets, and each upsert is insert-if-absent or an update of named fields.
- A course created with no department: the schema is not part of this model. A create with an undefined `departmentId` is modelled as succeeding with no department.
- `Number()` parsing of credits and level. They are kept as the numeral text they were read from.
- Fractional numbers inside JSON payloads: the JSON value model has integer numbers only.
- The `isFinite`/NaN branch of `ratingToGPA`. Floating-point rounding in `average`: numbers are exact reals.
- NaN as a review count in `shouldRedactReviews`.
- Non-ASCII case mapping and UTF-16 string lengths. `toUpperCase`, `toLowerCase` and length bounds act per code point, with ASCII case mapping.
- Property names inherited from `Object.prototype`, such as a CSV header named `constructor` or a rate-limit key `__proto__`.
- HAR entry lists that are array-like objects rather than arrays, and base64 text that is not a string.
- Object identity in `new Set(...)`: instructor entries are compared by value.
- A `term` form field sent as a file: the term is a string. A `file` field sent as text is modelled (`FileField.TextField`).
- The JSON input mode of scripts/import-courses.ts (lines 123-125). Only the CSV path and `upsertCourses` are modelled.
- The degree-plan upload route (app/api/import/degree-plan/route.ts), which repeats the import loop of scripts/parse-degree-plan.ts.
- The `Calendar` component's rendering. `buildCalendar` takes the weekday of the first and the month length instead of a `Date`.
- DegreePlan.ReimportAddsNothing: stated on the sets of rows, where it follows from the insert-if-absent upsert alone.
- GuideCatalog: no concrete title such as "MATH 521 — Real Analysis I — 3 credits" is evaluated. The code, credits and name rules are stated for every title instead, by CodeGroupsShape, FirstCreditsNumeral and NameOf.

## Findings

| source | as written | input that shows it | evidently intended | confidence | as-written member | corrected member |
|---|---|---|---|---|---|---|
| lib/schedule.ts:16-17 | the offering is looked up with section `s.section \|\| ''` but created with `s.section \|\| null`; a NULL section never equals `''`, so a sectionless offering is never found again | an item with a known course and no section, imported twice | look up and create with the same section value, so a re-import finds the row | medium (the database schema is not part of this model), not executed | ScheduleUpsert.AsWrittenRerunDuplicates | ScheduleUpsert.ScheduleIdempotent |
