# MediSys lambdas in Dafny

MediSys is a portal for diagnostic reports. Laboratories upload CSV files of
test results. Healthcare staff read the reports, receive notifications about
them and look at analytics. Administrators create users. This project models
the Python back end of the portal, one AWS Lambda handler per module, and
proves properties about it:

- `Ingest` and `Upload` (lambda/process/handler.py). Ingestion groups the rows
  of a MediSys CSV file into one report per patient. It derives the clinic from
  the S3 key, builds the stored items and queues an SQS message per report. It
  dispatches S3 and EventBridge events.
- `Legacy` (lambda/index.py). The older single-report parser: a key/value
  header up to a `Test` row, a dictionary pass for the tests, and a search for
  the `Remarks` row. All three share one CSV reader. Its handler stores the
  report and mails the healthcare group.
- `Roles`, `Table`, `Analytics` and `AnalyticsHandler`
  (lambda/analytics/handler.py). Role resolution admin > healthcare > lab, and
  the date filter. The counting pass of `generate_analytics` with its trend,
  test-type and clinic lists.
- `Reports` (lambda/get_reports/handler.py). Who may list which reports. The
  newest-first sort of a full listing, done in place on an array.
- `Notifications` (lambda/get_notifications/handler.py). The healthcare-only
  dispatch. Formatting of queued messages, and acknowledgement.
- `CreateUser` (lambda/create_user/handler.py). The admin check from the group
  claims. Ordered validation of the request body, the attribute list, and the
  retry loop of the temporary password generator.
- `Text`, `Seqs`, `Json` and `Wrappers` hold the Python string and list
  operations the handlers rely on. `strip()` uses Python's whitespace set;
  `split` and `join` are written for a one-character separator. String `<=`
  is code-point order.

AWS calls, clocks, uuids and `secrets.choice` become inputs. Examples are
downloaded rows, fetched items, received messages, put failures as a set of
positions, and clocks as functions of the report's position. Their effects
become returned records: stored items, outgoing messages, the user-pool call
and its arguments.

Loops in the source are methods with loop invariants. Each is proved equal to
a specification function, and the properties are proved about that function:
- the CSV fold;
- the per-file loop;
- the role loop;
- the date filter;
- the counting loops;
- the message loop;
- the required-field loop;
- the password retry loop;
- the legacy reader passes.

`sort` is an insertion sort on an array. It is proved to produce the
newest-first order, to permute its input, and to be stable: the reports of any
one timestamp keep their input order.

The portal's browser-side CSV validator and its notification reconciler run
in the web page, not in these lambdas, and are not modelled.

## Model

| member | source | states |
|---|---|---|
| Ingest.CleanRow | lambda/process/handler.py:29 | every cell of a cleaned row is stripped (no whitespace at either end) |
| Ingest.PatientIdStripped | lambda/process/handler.py:29-31 | the second `strip()` of the patient id and of the note is the identity on cleaned cells |
| Ingest.OpenReport | lambda/process/handler.py:43-55 | a new report carries the row's patient id, no tests and no notes |
| Ingest.AddRow | lambda/process/handler.py:58-75 | adding a row never changes the report's patient |
| Ingest.ValidRows | lambda/process/handler.py:31-34 | the rows kept for grouping are exactly the ones with a non-empty patient id |
| Ingest.ParseMedisysCsv | lambda/process/handler.py:15-91 | the loop with its `current` report returns exactly the specification fold `GroupReports` |
| Ingest.Starts | lambda/process/handler.py:37 | report starts are strictly increasing row positions, the first valid row always among them |
| Ingest.StartsExactly | lambda/process/handler.py:37-55 | a row opens a report exactly when it is the first valid row or its id differs from the previous valid row's |
| Ingest.NamedTests | lambda/process/handler.py:69-70 | only tests with a non-empty name are kept, at most one per row |
| Ingest.Notes | lambda/process/handler.py:73-75 | only non-empty notes are collected |
| Ingest.FoldFollowsRuns | lambda/process/handler.py:37-85 | after any prefix of valid rows the parser's state is the run reports, with the last run still open |
| Ingest.GroupReportsFollowRuns | lambda/process/handler.py:15-91 | the parse is one report per maximal run of equal patient ids, in input order; each report opens from the run's first row and adds every row of the run (named tests, de-duplicated notes) |
| Ingest.RunSharesPatient | lambda/process/handler.py:37 | every row of a run has the patient id of the row that opened it |
| Ingest.AdjacentRunsDiffer | lambda/process/handler.py:37-40 | consecutive runs start with different patient ids |
| Ingest.ReportsAlternate | lambda/process/handler.py:37-55 | two consecutive reports never belong to the same patient |
| Ingest.SkippedRowChangesNothing | lambda/process/handler.py:31-34 | inserting a row without a patient id anywhere leaves the parse unchanged |
| Seqs.Dedup | lambda/process/handler.py:74-75 | the de-duplicated list holds each element of the input once |
| Seqs.DedupFirstOccurrenceOrder | lambda/process/handler.py:74-75 | de-duplication keeps elements in the order of their first occurrence |
| Upload.ExtractClinicId | lambda/process/handler.py:98-120 | a key outside both upload folders gives `unknown`; a recognised key gives a clinic without `/` |
| Upload.Segment | lambda/process/handler.py:103-116 | the n-th `/`-segment of the key when it exists, and it has no `/` |
| Upload.ExtractClinicIdInvertsUiKey | lambda/process/handler.py:103-108 | `public/uploads/<clinic>/<file>` gives back `<clinic>` |
| Upload.ExtractClinicIdInvertsCliKey | lambda/process/handler.py:111-116 | `uploads/<clinic>/<file>` gives back `<clinic>` |
| Upload.PrivateUploadIsUnknown | lambda/process/handler.py:103-120 | any `private/uploads/...` key gives `unknown` |
| Upload.SourceOf | lambda/process/handler.py:268 | the source tag is `ui_upload` or `cli_upload` |
| Upload.SourceOfUploadKey | lambda/process/handler.py:268 | for an accepted key, the tag is `ui_upload` exactly when the key is under `public/uploads/` |
| Upload.Remarks | lambda/process/handler.py:253 | a single note is the remarks as it is |
| Upload.RemarksEmptyIff | lambda/process/handler.py:253 | for non-empty notes, the remarks are empty exactly when there are no notes |
| Upload.ParsedRemarksEmptyIff | lambda/process/handler.py:253 | a parsed report's remarks are empty exactly when it has no notes |
| Upload.ClinicOf | lambda/process/handler.py:227 | the file's own clinic wins when non-empty, else the clinic from the key |
| Upload.ItemFor | lambda/process/handler.py:227-269 | the stored item: generated id, patient id and name, every `patient_info` field, clinic in both places, stamps, key and bucket, the report's tests and joined remarks, and the upload source tag of its key |
| Upload.ItemClinicFromUiPath | lambda/process/handler.py:227 | a report without a clinic, uploaded through the web page, is filed under the clinic of its path |
| Upload.ItemClinicFromCliPath | lambda/process/handler.py:227 | the same for a command-line upload key |
| Upload.Summaries | lambda/process/handler.py:141-148 | the summary holds the first three tests (or all, when fewer), in order, each summarised field by field |
| Upload.Notify | lambda/process/handler.py:122-176 | nothing is queued exactly when no queue is configured; otherwise the message goes to that queue with the three attributes, `ClinicId` the item's clinic |
| Upload.FileReports | lambda/process/handler.py:190-212 | a file yields reports only when its key is accepted, it downloads, it is non-empty, it parses and it has a patient; conversely such a file always yields them |
| Upload.Written | lambda/process/handler.py:220-309 | the positions of the items written are, in increasing order, exactly those whose write did not raise |
| Upload.WrittenNonEmptyIff | lambda/process/handler.py:304-312 | some item is written exactly when some write succeeds |
| Upload.ProcessSingleFile | lambda/process/handler.py:183-317 | success as specified; a rejected file stores and sends nothing; otherwise exactly the items of the successful writes are stored, in order, each followed by its message when a queue is configured |
| Upload.RecordFile | lambda/process/handler.py:356-372 | only S3 records with a bucket and a non-empty decoded key announce a file, and that file is the decoded key |
| Upload.ProcessedFiles | lambda/process/handler.py:352-381 | the count of processed files never exceeds the number of records |
| Upload.NonS3RecordsCountNothing | lambda/process/handler.py:356-358 | records from other sources are never counted |
| Upload.Process | lambda/process/handler.py:319-427 | 500 without a table; 200 with the processed count for S3 records; 400 for an unknown event or an EventBridge event without bucket or key; otherwise 200 with one or zero files |
| Notifications.NotificationRoundTripIdentity | lambda/process/handler.py:133-139 | a message queued by ingestion is read back by the poller with its id, receipt handle, type `NEW_REPORT`, report id and timestamp |
| Notifications.NotificationRoundTripPatient | lambda/process/handler.py:136-138 | ... and with the item's patient name, patient id and clinic |
| Notifications.NotificationRoundTripContents | lambda/process/handler.py:140-172 | ... and with its test count, test summary, remarks flag, creation time and `ClinicId` attribute |
| Wrappers.MapGet | lambda/get_notifications/handler.py:132-141 | `d.get(key, default)`: the value when the key is present, else the default |
| Notifications.ParseMessage | lambda/get_notifications/handler.py:126-149 | a message gives a notification exactly when it has an id, a receipt handle and a JSON-object body; id and handle are copied |
| Notifications.Parsed | lambda/get_notifications/handler.py:124-149 | there are never more notifications than messages |
| Notifications.ParsedKeepsWellFormed | lambda/get_notifications/handler.py:124-145 | a batch of well-formed messages loses none, and keeps their order |
| Notifications.ParsedFromMessages | lambda/get_notifications/handler.py:124-149 | every notification is the formatting of some received message |
| Notifications.Poll | lambda/get_notifications/handler.py:105-164 | the polling loop with its skip-on-error returns exactly `Parsed` of the received messages |
| Notifications.Role | lambda/get_notifications/handler.py:51 | the `custom:role` claim, or `user` when it is absent |
| Notifications.Acknowledge | lambda/get_notifications/handler.py:170-200 | 200 exactly when the message id is present and non-empty, echoing it; 400 otherwise |
| Notifications.Handle | lambda/get_notifications/handler.py:15-103 | preflight answered at once; 401 without claims; 403 unless healthcare; 500 for an admitted caller when no queue is configured; with a queue, a GET answers 200 with the parsed messages when receiving succeeds and 500 when it raises, a DELETE answers `Acknowledge` of the path's `messageId` (500 when the path parameters are null), and another method gets 405; 200 only for an admitted caller with a queue |
| Roles.Groups | lambda/analytics/handler.py:43 | no groups for a missing or empty claim; otherwise comma-free groups that join back to the claim, which with `Text.SplitJoin` makes them exactly the comma split |
| Roles.FirstListed | lambda/analytics/handler.py:49-53 | the first role of the priority list that the caller has, none when it has none of them |
| Roles.PrimaryRole | lambda/analytics/handler.py:48-56 | the highest-priority group the caller holds when there is one; otherwise the non-empty `custom:role`, else no role |
| Roles.ResolvePrimaryRole | lambda/get_reports/handler.py:41-55 | the loop with `break` computes `PrimaryRole` of the claims |
| Roles.AdminFirst | lambda/get_reports/handler.py:47-51 | membership of `admin` decides the role |
| Roles.HealthcareSecond | lambda/get_reports/handler.py:47-51 | `healthcare` outranks `lab` and the custom role, not `admin` |
| Roles.LabThird | lambda/get_reports/handler.py:47-51 | `lab` outranks the custom role when neither `admin` nor `healthcare` is held |
| Roles.CustomRoleFallback | lambda/get_reports/handler.py:54-55 | without the three groups the non-empty custom role is used, else none |
| Roles.SpacedGroupIgnored | lambda/get_reports/handler.py:41 | `lab, admin` resolves to `lab`: the groups are not trimmed |
| Roles.ParseInt | lambda/get_reports/handler.py:61 | `int()` only succeeds on a string with something left after stripping |
| Roles.ShowInt | lambda/get_reports/handler.py:61 | the decimal form of an integer has no surrounding whitespace |
| Roles.ParseIntShowInt | lambda/get_reports/handler.py:61 | `int(str(n)) == n` for every integer |
| Roles.IntParam | lambda/analytics/handler.py:59-60 | the default when the parameter is absent, else `int()` of its value |
| Table.ClinicItems | lambda/get_reports/handler.py:99-105 | the clinic index returns exactly the items of that clinic |
| Table.Take | lambda/get_reports/handler.py:79 | a limited read returns a prefix of at most `limit` items, all of them when there are fewer |
| Text.Strip | lambda/process/handler.py:29 | `strip()` keeps a trimmed middle part |
| Text.StripKeepsMiddle | lambda/process/handler.py:29 | `strip()` returns a contiguous slice and removes only whitespace around it |
| Text.StripTrimmed | lambda/process/handler.py:31 | `strip()` leaves a trimmed string alone, so it is idempotent |
| Text.Split | lambda/process/handler.py:104 | `split('/')`: pieces without the separator |
| Text.JoinSplit | lambda/process/handler.py:104 | joining the pieces of a split gives back the string |
| Text.SplitJoin | lambda/analytics/handler.py:43 | splitting a join of separator-free pieces gives back the pieces |
| Text.StrLeTotal | lambda/analytics/handler.py:117 | string `<=` is total |
| Text.StrLeTransitive | lambda/get_reports/handler.py:83 | string `<=` is transitive |
| Text.StrLeAntisymmetric | lambda/analytics/handler.py:252 | string `<=` is antisymmetric |
| Reports.Insert | lambda/get_reports/handler.py:83 | inserting one item lengthens the list by one |
| Reports.InsertPermutes | lambda/get_reports/handler.py:83 | insertion adds exactly the item (as multisets) |
| Reports.InsertKeepsOrder | lambda/get_reports/handler.py:83 | insertion into a newest-first list keeps it newest first |
| Reports.NewestFirstSortsAndPermutes | lambda/get_reports/handler.py:83 | the sort by timestamp, descending, is newest first and a permutation of its input |
| Reports.NewestFirstOfOrdered | lambda/get_reports/handler.py:83 | an already newest-first list, ties included, is unchanged |
| Reports.InsertStable | lambda/get_reports/handler.py:83 | inserting a report places it after every report of its own timestamp and leaves their order alone |
| Reports.NewestFirstStable | lambda/get_reports/handler.py:83 | the sort is stable: for every timestamp, the reports carrying it come out in their input order |
| Reports.InsertAt | lambda/get_reports/handler.py:83 | one insertion step in place: the prefix becomes `Insert` of the element, the rest of the array is untouched |
| Reports.SortNewestFirst | lambda/get_reports/handler.py:83 | the in-place sort leaves the array as `NewestFirst` of its old contents |
| Reports.QueryClinicScoped | lambda/get_reports/handler.py:66-105 | a clinic query returns stored reports of that clinic only |
| Reports.GetReports | lambda/get_reports/handler.py:17-144 | 401 without claims; 500 for a non-integer limit; 400 for a lab user without clinic; 403 for other roles; 200 exactly for an admitted caller (healthcare, admin, or lab with a clinic) with a limit of at least 1, and 500 when the table refuses a smaller limit; on 200, lab users get their clinic's newest reports, others the filtered clinic or the sorted first `limit` items |
| AnalyticsHandler.Since | lambda/analytics/handler.py:114-118 | the kept reports are exactly those whose timestamp string is `>=` the start date |
| AnalyticsHandler.FilterSince | lambda/analytics/handler.py:114-118 | the filter loop computes `Since` |
| AnalyticsHandler.Handle | lambda/analytics/handler.py:19-152 | the handler steps compute the specification `Expected` |
| AnalyticsHandler.ExpectedStatus | lambda/analytics/handler.py:27-152 | 401 without claims; 500 when `timeRange` is not an integer or the start date falls outside years 1 to 9999 (`OverflowError`); 400 for a lab user without clinic; 403 for other roles; 200 exactly when the start date exists and a scope exists; no analytics unless 200 |
| AnalyticsHandler.MillionDaysRefused | lambda/analytics/handler.py:60-64 | a range of a million days back from 2026-10-15 is refused with 500 whoever asks |
| AnalyticsHandler.ExpectedCountsInRange | lambda/analytics/handler.py:113-130 | on success, the analytics are those of the in-scope reports since the start date; the metadata's total equals the summary's report count |
| AnalyticsHandler.StaffSeeAllClinics | lambda/analytics/handler.py:72-80 | healthcare and admin users aggregate every dated report of every clinic; no user clinic in the metadata |
| AnalyticsHandler.LabSeesOwnClinic | lambda/analytics/handler.py:82-100 | a lab user's analytics use only its own clinic's reports, and its clinic is in the metadata |
| Analytics.DayOf | lambda/analytics/handler.py:195 | the day is the first (up to) ten characters of the timestamp |
| Analytics.BucketOf | lambda/analytics/handler.py:208-224 | a test is in the critical bucket exactly when its flag is `Y` |
| Analytics.IncLookup | lambda/analytics/handler.py:192-205 | a `defaultdict`/`Counter` increment adds one to that key only |
| Analytics.AddTest | lambda/analytics/handler.py:202-224 | one test counts its type and exactly one bucket; the report's first critical test counts the report once, for the clinic and the day |
| Analytics.AddTests | lambda/analytics/handler.py:202-224 | the inner loop never changes the report-level fields |
| Analytics.AddTestsTypes | lambda/analytics/handler.py:204-205 | the tests add their types, in order, to the Counter and its key order |
| Analytics.AddTestsBuckets | lambda/analytics/handler.py:208-224 | each status count grows by the number of tests in that bucket |
| Analytics.AddTestsCritical | lambda/analytics/handler.py:211-217 | a report with any number of critical tests is counted critical once |
| Analytics.CriticalReports | lambda/analytics/handler.py:200-217 | the critical reports are exactly those with a critical test |
| Analytics.TallyStep | lambda/analytics/handler.py:187-196 | one report adds its patient, its clinic and one count for its clinic and its day |
| Analytics.TallySets | lambda/analytics/handler.py:189-191 | the patient and clinic sets are the distinct ids of the reports |
| Analytics.TallyPerReport | lambda/analytics/handler.py:192-196 | the clinic and day counters count the reports per clinic and per day |
| Analytics.TallyCritical | lambda/analytics/handler.py:213-216 | the critical counters count the reports with a critical test, in total, per clinic and per day |
| Analytics.TallyTypes | lambda/analytics/handler.py:204-205 | the type Counter counts every test type, keyed in order of first appearance |
| Analytics.TallyBuckets | lambda/analytics/handler.py:211-224 | the status counts count the tests of each bucket |
| Analytics.Entries | lambda/analytics/handler.py:243 | the Counter's items, in key order, with their counts |
| Analytics.ByCount | lambda/analytics/handler.py:243 | the ranking holds the same entries |
| Analytics.ByCountOrdered | lambda/analytics/handler.py:243 | the ranking is by count, largest first |
| Analytics.SortAsc | lambda/analytics/handler.py:252 | `sorted(keys)` holds the same keys |
| Analytics.SortAscSorted | lambda/analytics/handler.py:252 | `sorted(keys)` is ascending, and strictly so for distinct keys |
| Analytics.Trends | lambda/analytics/handler.py:227-237 | one point per day of the range, reading that day's counters |
| Analytics.GenerateAnalytics | lambda/analytics/handler.py:154-273 | no reports give the empty answer; the method computes `AnalyticsOf` |
| Analytics.CountReports | lambda/analytics/handler.py:186-224 | the counting loop computes the tally of all reports |
| Analytics.CountTests | lambda/analytics/handler.py:202-224 | the inner loop computes `AddTests` |
| Analytics.TrendList | lambda/analytics/handler.py:227-237 | the trend loop computes `Trends` |
| Analytics.TypeSlices | lambda/analytics/handler.py:240-248 | the test-type loop computes the coloured slices |
| Analytics.ClinicList | lambda/analytics/handler.py:251-257 | the clinic loop computes the clinic rows |
| Analytics.SummaryCounts | lambda/analytics/handler.py:260-266 | the summary counts reports, distinct patients and clinics, and critical reports, which are at most all reports |
| Analytics.StatusCoversTests | lambda/analytics/handler.py:211-224 | the three status counts add up to the number of tests |
| Analytics.BucketsCoverTests | lambda/analytics/handler.py:211-224 | every bucket list splits exactly into the three buckets |
| Analytics.CriticalWithinClinic | lambda/analytics/handler.py:192-215 | a clinic never has more critical reports than reports |
| Analytics.CriticalWithinDay | lambda/analytics/handler.py:196-216 | a day never has more critical reports than reports |
| Analytics.TrendsCountDays | lambda/analytics/handler.py:227-237 | one point per day, each counting that day's reports and its critical reports, the latter no more than the former |
| Analytics.TrendsAscending | lambda/analytics/handler.py:230-232 | with a strictly increasing date format, the trend runs from the oldest day to today |
| Analytics.MostCommonEntries | lambda/analytics/handler.py:243 | `most_common(n)`: min(n, keys) Counter entries, largest count first, each with its count, no key twice, and every key left out counting no more than any kept one |
| Analytics.ByCountDistinct | lambda/analytics/handler.py:243 | sorting entries by count neither duplicates nor merges them |
| Analytics.TopTypesRanked | lambda/analytics/handler.py:240-248 | at most 8 slices, largest first, each a distinct test type with its number of tests and the palette colour at its position; no type left out has more tests than a shown one |
| Analytics.ClinicRowsSorted | lambda/analytics/handler.py:251-257 | every active clinic once, in ascending id order |
| Analytics.ClinicRowsCount | lambda/analytics/handler.py:253-257 | each clinic row counts that clinic's reports and critical reports, the latter no more than the former |
| Analytics.ClinicRowsTotal | lambda/analytics/handler.py:251-265 | the clinic rows add up to the report count, and there is one row per active clinic |
| Analytics.ClinicKeys | lambda/analytics/handler.py:191-192 | the clinic set and the clinic counter's keys are the same |
| CreateUser.LastGroupsClaim | lambda/create_user/handler.py:54-58 | the value of the last claim whose key mentions `group`; none when no key does |
| CreateUser.Lookup | lambda/create_user/handler.py:49-50 | `claims.get(key)`: a present pair, or none when no claim has that key |
| CreateUser.FindGroupsClaim | lambda/create_user/handler.py:45-58 | the direct lookup followed by the claims loop computes `LastGroupsClaim` |
| CreateUser.StripAll | lambda/create_user/handler.py:75 | every piece is stripped |
| CreateUser.NonBlank | lambda/create_user/handler.py:75 | the kept pieces are exactly the non-empty ones |
| CreateUser.ParseGroups | lambda/create_user/handler.py:72-81 | a string is split on commas, trimmed and cleared of blanks; a list is kept; anything else gives no groups |
| CreateUser.AdminCheck | lambda/create_user/handler.py:92-104 | a group that is `admin` in any case makes an admin before the role claim is read (`or` short-circuits); otherwise the check raises (401) exactly when the `custom:role` claim is not a string; the caller is an admin exactly when a group or a string role claim lower-cases to `admin` |
| CreateUser.GroupAdminWithOddRoleClaim | lambda/create_user/handler.py:92-104 | a caller in the `admin` group whose `custom:role` claim is not a string is still an admin |
| CreateUser.SpacedAdminAccepted | lambda/create_user/handler.py:75-95 | `lab, Admin` makes an admin: groups are trimmed and lower-cased here |
| CreateUser.AdminByGroup | lambda/create_user/handler.py:94-104 | any group that lower-cases to `admin` makes an admin, whatever the role claim holds |
| CreateUser.FirstMissing | lambda/create_user/handler.py:160-167 | none exactly when every required field is given; else the first one missing, in list order |
| CreateUser.CheckRequired | lambda/create_user/handler.py:160-167 | the loop stops at `FirstMissing` |
| CreateUser.Attributes | lambda/create_user/handler.py:182-191 | email, email_verified, given_name and role, in that order, plus the clinic when given |
| CreateUser.AlphabetAt | lambda/create_user/handler.py:265 | the 70-character alphabet: 26 lower-case letters, 26 upper-case letters, 10 digits, 8 symbols, in that order |
| CreateUser.Candidate | lambda/create_user/handler.py:267 | a candidate is twelve draws from the alphabet |
| CreateUser.CandidateOk | lambda/create_user/handler.py:266-272 | an accepted candidate is twelve alphabet characters with each class present |
| CreateUser.FirstAccepted | lambda/create_user/handler.py:266-272 | the first attempt whose candidate passes, with every earlier attempt refused |
| CreateUser.Draw | lambda/create_user/handler.py:267 | the twelve draws of one attempt |
| CreateUser.GenerateTempPassword | lambda/create_user/handler.py:263-272 | returns the first accepted candidate, which meets every rule |
| CreateUser.AcceptableCandidate | lambda/create_user/handler.py:268-272 | a candidate with one character of each class is accepted |
| CreateUser.LettersOnlyRefused | lambda/create_user/handler.py:268-272 | a candidate of letters only is refused |
| CreateUser.CheckAdmin | lambda/create_user/handler.py:33-146 | the admin check steps compute `AdminCheck` |
| CreateUser.CreateFromBody | lambda/create_user/handler.py:150-261 | the body steps compute `CreateFor` |
| CreateUser.Handle | lambda/create_user/handler.py:7-261 | the handler computes `Expected` |
| CreateUser.OnlyAdminsCreate | lambda/create_user/handler.py:19-146 | preflight answered; a non-admin is refused with 403, a failed check with 401; the user pool is called only for an admin with a body |
| CreateUser.CallOnlyWhenValid | lambda/create_user/handler.py:160-209 | the pool is called only with email, name, a valid role and, for a lab user, a clinic; it is called with the email, the attributes, the password and the role |
| CreateUser.MissingFieldsInOrder | lambda/create_user/handler.py:160-167 | missing fields are reported in the order email, name, role |
| CreateUser.LabNeedsClinic | lambda/create_user/handler.py:190-197 | a lab user without a clinic is refused before the pool is called |
| CreateUser.CreatedReturnsPassword | lambda/create_user/handler.py:202-242 | a success reply carries the user name, the temporary password the user was created with, and the pool's id |
| Legacy.HeaderKey | lambda/index.py:26 | the key has the cell's length |
| Legacy.HeaderKeyChars | lambda/index.py:26 | the key has no spaces; each character is the cell's, lower-cased, `_` for a space |
| Legacy.ScanHeader | lambda/index.py:20-26 | the header loop stops after the `Test` row, or at the end of the file |
| Legacy.HeaderStops | lambda/index.py:20-24 | the loop raises exactly when a row without cells comes before any `Test` row |
| Legacy.HeaderKeys | lambda/index.py:25-26 | the patient information holds a key exactly when some header entry row has it |
| Legacy.HeaderKeeps | lambda/index.py:25-26 | keys without an entry keep their value |
| Legacy.HeaderLastWins | lambda/index.py:25-26 | the last entry row for a key gives its value |
| Legacy.LastIndex | lambda/index.py:29-30 | the last position of a column name, -1 when absent; `DictReader` keeps the last of duplicate names |
| Legacy.Column | lambda/index.py:31-36 | no column when the name is absent (indexing raises); `None` when the row is too short |
| Legacy.ColumnCell | lambda/index.py:31-36 | a cell read under a name is the row's cell at the name's last position |
| Legacy.TestOfRow | lambda/index.py:31-37 | a row is skipped exactly when its `Test` cell is empty, and raises when a needed column is missing; otherwise it gives those four cells |
| Legacy.TestsBetween | lambda/index.py:30-37 | no more tests than rows read |
| Legacy.TestsBetweenRaised | lambda/index.py:30-37 | once the pass has raised, reading further rows does not undo that |
| Legacy.TestsFromRows | lambda/index.py:30-37 | every test comes from a row of the pass |
| Legacy.RowsGiveTests | lambda/index.py:31-37 | every row with a test name adds its test |
| Legacy.StandardTestsRead | lambda/index.py:31-37 | under the usual column names, every row of four or more cells with a test name becomes that test, in order |
| Legacy.RemarksFound | lambda/index.py:42 | the second cell of the first `Remarks` row from the reader's position; `''` when there is none; raises on a row without cells or a one-cell `Remarks` row |
| Legacy.ReadHeader | lambda/index.py:20-26 | the header loop computes `ScanHeader` |
| Legacy.ReadTests | lambda/index.py:29-37 | the test loop computes `TestsBetween` |
| Legacy.FindRemarks | lambda/index.py:42 | the remarks search computes `RemarksFrom` at the reader's position |
| Legacy.ParseMedicalCsv | lambda/index.py:14-43 | the three passes over one reader, with the test pass starting at the `Test` row, compute the corrected parse `ParseCsv` |
| Legacy.ParseMedicalCsvAsWritten | lambda/index.py:14-43 | the three passes as written, the test pass reading the whole file under the first row's names, compute `ParseCsvAsWritten` |
| Legacy.ParseCsvFacts | lambda/index.py:14-43 | a blank row before `Test` raises; the patient information holds exactly the header keys, each with its last value; a file without `Test` has no tests and no remarks |
| Legacy.ParseCsvReadsTestSection | lambda/index.py:29-37 | with the usual test header, the tests are exactly the data rows with a test name |
| Legacy.TestsAsWrittenMissesTests | lambda/index.py:29 | with column names from the first row, the example file's test is missed |
| Legacy.TestsReadFromTestRow | lambda/index.py:29-37 | with column names from the `Test` row, the example file's test is read |
| Legacy.ClinicOf | lambda/index.py:62 | the second `/`-segment when the key has a `/`, else `unknown`; never contains `/` |
| Legacy.ClinicOfCliKey | lambda/index.py:62 | `uploads/<clinic>/<file>` gives its clinic |
| Legacy.ClinicOfUiKey | lambda/index.py:62 | `public/uploads/<clinic>/<file>` gives `uploads`, not the clinic |
| Legacy.ItemFor | lambda/index.py:62-75 | clinic from the key, patient id and name defaulting to `unknown`, and the parsed information, tests and remarks |
| Legacy.EmailOf | lambda/index.py:87 | a user's first `email` attribute; none when it has none |
| Legacy.RecipientsAsWritten | lambda/index.py:86-87 | no more recipients than users |
| Legacy.Recipients | lambda/index.py:86-87 | an address is a recipient exactly when some user has it as email |
| Legacy.RecipientsAsWrittenUsesFirstAttribute | lambda/index.py:86 | a user listing `sub` before `email` is sent to its `sub` value |
| Legacy.Handle | lambda/index.py:45-134 | the handler steps compute `Expected` under the reading asked for: `AsWritten` is the code as written (its parse and its recipient list), `Intended` the same handler with both corrected |
| Legacy.ExpectedStoresParsed | lambda/index.py:49-134 | under either reading: 200 or 500; an item is stored only when the file parses and the put succeeds; a 200 has stored it, mailed the reading's recipients and confirmed to the uploader exactly when one is given; under the intended reading only healthcare addresses are mailed |
| Legacy.HandlerAsWrittenMisaddresses | lambda/index.py:80-105 | as written the handler mails a user listing `sub` before `email` at its `sub` value; as intended, at its address |

## Left out

- Every boto3 call (S3, DynamoDB, SQS, Cognito, SES) is an input or an output
  record. Scan and query pagination (`LastEvaluatedKey`) is not modelled: a
  read gives all matching items, or the first `limit` of them. DynamoDB's
  1 MB page size is not modelled.
- `datetime.now()`, `uuid.uuid4()` and `secrets.choice` are parameters.
- `strftime` is a date-formatting function parameter. Date arithmetic with
  `timedelta` is a day number minus an offset. Days are proleptic Gregorian
  ordinals, and a start date outside years 1 to 9999 raises as in Python.
- The `csv` module's quoting, dialects and line splitting are not modelled.
  `process_single_file` reads `DictReader` rows as given lists of name and cell
  pairs, and `parse_medical_csv` reads `csv.reader` rows as lists of cells.
  `DictReader`'s extra-field key (`None`) is not modelled.
- `urllib.parse.unquote_plus` is a function parameter.
- `json.loads` and `json.dumps` are not modelled: bodies are `Json.Value`
  trees. Decimal-to-float encoding and the CORS header dictionaries are also
  not modelled. Responses keep the status code and the payload fields only.
- Logging, `print` and traceback output are left out. So is the read-back
  `get_item` check in `process_single_file`, which only logs.
- In `index.py` the event's `Records` are read outside the `try`. A malformed
  event fails the invocation instead of answering 500. The model takes the
  bucket and the key as given.
- `get_notifications` fills its response's `timestamp` with the session's
  region name. That field, and the receive options (10 messages, wait and
  visibility times), are not modelled.
- The browser-side CSV validator and notification reconciler are not among
  these lambdas.
- Text.Lower: lower-cases ASCII letters only. Python's `lower()` also maps
  other Unicode letters.
- Roles.ParseInt: accepts surrounding whitespace, a sign and ASCII digits.
  Python's `int()` also accepts underscores between digits and non-ASCII
  digits.
- CreateUser.GenerateTempPassword: tries at most `fuel` attempts. The source
  retries without bound, so the model returns None when all `fuel` candidates
  are refused.
- CreateUser.Handle: takes the temporary password as a parameter. How it is
  drawn is modelled separately by `GenerateTempPassword`.
- CreateUser.ParseGroups: a claim list is kept as it is. Elements that are not
  strings are left out, because the model's list holds strings only. Body
  values that are not strings are also left out: the body is a string map.
- Analytics.TrendsAscending: is proved for date formatters that are strictly
  increasing, which `strftime('%Y-%m-%d')` is for years 1 to 9999.
- Ingest.CleanRow: raw rows hold string cells only, and a missing cell is an
  absent column read as `''`. `DictReader` gives a row shorter than the header
  `None` for its missing cells, and line 29 keeps them. The source then writes
  `None` into the patient name (`None Doe`) and stores `None` test fields. A
  `None` patient id or note raises on `strip()`, which skips the rest of that
  row after any report it opened and any test it appended. None of this is
  modelled.
- AnalyticsHandler.Scope: a lab user's reports are the clinic's items in table
  order. The source queries the ClinicIndex, which returns them in ascending
  timestamp order. The order changes which of two equally frequent test types
  `most_common` lists first, and so the colours they get. The counts and the
  set of reports are not affected.
- Reports.GetReports: the clinic index is read as the clinic's items sorted
  newest first by timestamp. The index's own sort key is not modelled.
- AnalyticsHandler.Expected: one day `today` serves both the start date and the
  trend days. The source reads the clock twice, once for the start date and
  once for the trend days, so a request that runs across midnight can see two
  different days. That case is not modelled.
- Notifications.Handle: an absent `httpMethod` reads as `GET`. A key that is
  present with the value `null` cannot be represented, because the request's
  method is an optional string. For that input the source falls through to the
  405 answer.

## Findings

| source | as written | input that shows it | evidently intended | confidence | as-written member | corrected member |
|---|---|---|---|---|---|---|
| lambda/index.py:29-37 | `csv.DictReader` over the whole file takes its column names from the file's first row, a header row such as `Patient ID,P1` | `Patient ID,P1` / `Test,Result,Unit,Reference Range` / `Glucose,5,mmol/L,3-6`: no column is named `Test`, so no test is read | the columns are named by the `Test` row and the test section is read | not executed | Legacy.TestsAsWrittenMissesTests | Legacy.TestsReadFromTestRow |
| lambda/index.py:86-87 | a user with an `email` attribute is mailed at the value of its first attribute, whatever that is | a user with attributes `sub=abc`, `email=a@b` is mailed at `abc` | the value of the `email` attribute | not executed | Legacy.RecipientsAsWrittenUsesFirstAttribute | Legacy.Recipients |

`Legacy.Handle` takes a reading. Under `AsWritten` it runs the parse as written
(`Legacy.ParseMedicalCsvAsWritten`, specified by `Legacy.ParseCsvAsWritten`) and
mails `Legacy.RecipientsAsWritten`. Under `Intended` it runs the corrected parse
`Legacy.ParseMedicalCsv` (specified by `Legacy.ParseCsv`) and mails
`Legacy.Recipients`. The lemmas about the parse are stated for the corrected
form.
