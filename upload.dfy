/**
 * The file-level part of report ingestion (lambda/process/handler.py): which
 * uploads are accepted, the clinic id taken from the upload path, the record
 * stored per report, the notification queued per stored report, and the
 * dispatch over the two event shapes that announce an upload.
 */
module Upload {
  import opened Wrappers
  import opened Text
  import Json
  import opened Ingest
  import Seqs

  const UiPrefix := "public/uploads/"
  const CliPrefix := "uploads/"

  // ---------------------------------------------------------------------------
  // Clinic id from the object key

  /**
   * `extract_clinic_id_from_key`: the path segment after `public/uploads/` or
   * after `uploads/`, and `unknown` for any other key.
   */
  function ExtractClinicId(key: string): (clinic: string)
    ensures !StartsWith(key, UiPrefix) && !StartsWith(key, CliPrefix) ==> clinic == "unknown"
    ensures StartsWith(key, UiPrefix) || StartsWith(key, CliPrefix) ==> '/' !in clinic
  {
    if StartsWith(key, UiPrefix) then Segment(key, 2)
    else if StartsWith(key, CliPrefix) then Segment(key, 1)
    else "unknown"
  }

  /** The `n`-th `/`-separated segment of a key, or `unknown` when there are fewer. */
  function Segment(key: string, n: nat): (seg: string)
    ensures '/' !in seg
    ensures |Split(key, '/')| > n ==> seg == Split(key, '/')[n]
  {
    var parts := Split(key, '/');
    if |parts| > n then parts[n] else "unknown"
  }

  /** The key the web upload writes: `public/uploads/<clinic>/<file>`. */
  function UiKey(clinic: string, file: string): string {
    UiPrefix + clinic + "/" + file
  }

  /** The key of a command-line upload: `uploads/<clinic>/<file>`. */
  function CliKey(clinic: string, file: string): string {
    CliPrefix + clinic + "/" + file
  }

  /** The clinic written into an upload key is the one read back from it. */
  lemma ExtractClinicIdInvertsUiKey(clinic: string, file: string)
    requires '/' !in clinic
    ensures ExtractClinicId(UiKey(clinic, file)) == clinic
  {
    UiKeySegments(clinic, file);
    assert StartsWith(UiKey(clinic, file), UiPrefix);
  }

  lemma ExtractClinicIdInvertsCliKey(clinic: string, file: string)
    requires '/' !in clinic
    ensures ExtractClinicId(CliKey(clinic, file)) == clinic
  {
    CliKeySegments(clinic, file);
    CliKeyPrefixes(clinic, file);
  }

  lemma CliKeyPrefixes(clinic: string, file: string)
    ensures StartsWith(CliKey(clinic, file), CliPrefix)
    ensures !StartsWith(CliKey(clinic, file), UiPrefix)
  {
    NotStartsWith(CliKey(clinic, file), UiPrefix, 1);
  }

  lemma UiKeySegments(clinic: string, file: string)
    requires '/' !in clinic
    ensures Segment(UiKey(clinic, file), 2) == clinic
  {
    var tail := clinic + ['/'] + file;
    var mid := "uploads" + ['/'] + tail;
    assert UiKey(clinic, file) == "public" + ['/'] + mid;
    SplitAfterPrefix("public", '/', mid);
    SplitAfterPrefix("uploads", '/', tail);
    SplitAfterPrefix(clinic, '/', file);
    assert Split(UiKey(clinic, file), '/')[1..] == Split(mid, '/');
    assert Split(mid, '/')[1..] == Split(tail, '/');
  }

  lemma CliKeySegments(clinic: string, file: string)
    requires '/' !in clinic
    ensures Segment(CliKey(clinic, file), 1) == clinic
  {
    var tail := clinic + ['/'] + file;
    assert CliKey(clinic, file) == "uploads" + ['/'] + tail;
    SplitAfterPrefix("uploads", '/', tail);
    SplitAfterPrefix(clinic, '/', file);
  }

  /** Keys under any other folder, such as `private/uploads/`, give `unknown`. */
  lemma PrivateUploadIsUnknown(rest: string)
    ensures ExtractClinicId("private/uploads/" + rest) == "unknown"
  {
    var key := "private/uploads/" + rest;
    NotStartsWith(key, UiPrefix, 1);
    NotStartsWith(key, CliPrefix, 0);
  }

  // ---------------------------------------------------------------------------
  // The record stored per report

  /** An object announced by an upload event. */
  datatype Upload = Upload(bucket: string, key: string)

  /** Only objects under `public/uploads/` or `uploads/` are processed. */
  predicate IsUploadKey(key: string) {
    StartsWith(key, UiPrefix) || StartsWith(key, CliPrefix)
  }

  const UiUpload := "ui_upload"
  const CliUpload := "cli_upload"

  /** The `source` attribute: files under `public/` came from the web page, the others from the command line. */
  function SourceOf(key: string): (source: string)
    ensures source == UiUpload || source == CliUpload
  {
    if StartsWith(key, "public/") then UiUpload else CliUpload
  }

  /** For an accepted key, the web-page tag is given exactly to the keys under `public/uploads/`. */
  lemma SourceOfUploadKey(key: string)
    requires IsUploadKey(key)
    ensures SourceOf(key) == UiUpload <==> StartsWith(key, UiPrefix)
  {
    if StartsWith(key, UiPrefix) {
      assert key[..7] == UiPrefix[..7];
    } else {
      NotStartsWith(key, "public/", 0);
    }
  }

  /** The report's notes joined with `. `; no notes give the empty string. */
  function Remarks(notes: seq<string>): (remarks: string)
    ensures |notes| == 1 ==> remarks == notes[0]
  {
    if notes != [] then Join(notes, ". ") else ""
  }

  lemma {:induction false} JoinKeepsFirst(parts: seq<string>, delim: string)
    requires parts != []
    ensures |Join(parts, delim)| >= |parts[0]|
  {
  }

  /** Notes are never empty strings, so the remarks are empty exactly when there are no notes. */
  lemma RemarksEmptyIff(notes: seq<string>)
    requires forall i :: 0 <= i < |notes| ==> notes[i] != ""
    ensures Remarks(notes) == "" <==> notes == []
  {
    if notes != [] {
      JoinKeepsFirst(notes, ". ");
    }
  }

  datatype PatientInfo = PatientInfo(
    patientName: string, patientId: string, patientDob: string, patientGender: string,
    testDate: string, reportDate: string, orderingPhysician: string, clinicId: string)

  /** The DynamoDB item written for one report. */
  datatype Item = Item(
    reportId: string, clinicId: string, patientId: string, patientName: string,
    timestamp: string, s3Key: string, s3Bucket: string, status: string,
    patientInfo: PatientInfo, testResults: seq<TestResult>, remarks: string,
    processingTime: string, source: string)

  /** The clinic of a report: the one in the file when it names one, otherwise the one in the upload path. */
  function ClinicOf(r: Report, key: string): (clinic: string)
    ensures r.clinicId != "" ==> clinic == r.clinicId
    ensures r.clinicId == "" ==> clinic == ExtractClinicId(key)
  {
    if r.clinicId != "" then r.clinicId else ExtractClinicId(key)
  }

  /** The item for report `r` of `file`, under the generated id `id`, stamped with `now`. */
  function ItemFor(file: Upload, r: Report, id: string, now: string): (item: Item)
    ensures item.reportId == id && item.patientId == r.patientId && item.patientInfo.patientId == r.patientId
    ensures item.clinicId == item.patientInfo.clinicId == ClinicOf(r, file.key)
    ensures item.timestamp == item.processingTime == now && item.status == "processed"
    ensures item.s3Key == file.key && item.s3Bucket == file.bucket
    ensures item.testResults == r.testResults && item.remarks == Remarks(r.notes)
    ensures item.patientName == item.patientInfo.patientName == r.patientName
    ensures item.patientInfo.patientDob == r.patientDob && item.patientInfo.patientGender == r.patientGender
    ensures item.patientInfo.testDate == r.testDate && item.patientInfo.reportDate == r.reportDate
    ensures item.patientInfo.orderingPhysician == r.orderingPhysician
    ensures item.source == SourceOf(file.key)
  {
    var clinic := ClinicOf(r, file.key);
    var info := PatientInfo(r.patientName, r.patientId, r.patientDob, r.patientGender,
                            r.testDate, r.reportDate, r.orderingPhysician, clinic);
    Item(id, clinic, r.patientId, r.patientName, now, file.key, file.bucket, "processed",
         info, r.testResults, Remarks(r.notes), now, SourceOf(file.key))
  }

  /** A report without its own clinic, uploaded through the web page, is filed under the clinic of its path. */
  lemma ItemClinicFromUiPath(r: Report, clinic: string, name: string, bucket: string, id: string, now: string)
    requires '/' !in clinic
    ensures ItemFor(Upload(bucket, UiKey(clinic, name)), r, id, now).clinicId
            == (if r.clinicId != "" then r.clinicId else clinic)
  {
    ExtractClinicIdInvertsUiKey(clinic, name);
  }

  lemma ItemClinicFromCliPath(r: Report, clinic: string, name: string, bucket: string, id: string, now: string)
    requires '/' !in clinic
    ensures ItemFor(Upload(bucket, CliKey(clinic, name)), r, id, now).clinicId
            == (if r.clinicId != "" then r.clinicId else clinic)
  {
    ExtractClinicIdInvertsCliKey(clinic, name);
  }

  /** The notes of a parsed report are non-empty strings, so its remarks are empty exactly when it has no notes. */
  lemma ParsedRemarksEmptyIff(rows: seq<RawRow>, k: nat)
    requires k < |GroupReports(rows)|
    ensures Remarks(GroupReports(rows)[k].notes) == "" <==> GroupReports(rows)[k].notes == []
  {
    ParsedNotesNonEmpty(rows, k);
    RemarksEmptyIff(GroupReports(rows)[k].notes);
  }

  lemma ParsedNotesNonEmpty(rows: seq<RawRow>, k: nat)
    requires k < |GroupReports(rows)|
    ensures forall i :: 0 <= i < |GroupReports(rows)[k].notes| ==> GroupReports(rows)[k].notes[i] != ""
  {
    GroupReportsFollowRuns(rows);
    var v := ValidRows(rows);
    var run := RunOf(v, k);
    assert GroupReports(rows)[k] == RunReport(run);
    var notes := GroupReports(rows)[k].notes;
    assert notes == Seqs.Dedup(Notes(run));
    forall i | 0 <= i < |notes| ensures notes[i] != "" {
      assert notes[i] in Notes(run);
    }
  }

  // ---------------------------------------------------------------------------
  // The notification queued per stored report

  /** A message handed to the notification queue. */
  datatype Outgoing = Outgoing(queueUrl: string, body: Json.Value, attributes: map<string, string>)

  const SummaryLength := 3

  function TestSummary(t: TestResult): Json.Value {
    Json.Obj(map["test_name" := Json.Str(t.testName), "result" := Json.Str(t.result),
                 "unit" := Json.Str(t.unit), "status" := Json.Str(t.status)])
  }

  /** The first three tests of a report, in order, as summaries. */
  function Summaries(tests: seq<TestResult>): (summary: seq<Json.Value>)
    ensures |summary| == if |tests| < SummaryLength then |tests| else SummaryLength
    ensures forall i :: 0 <= i < |summary| ==> summary[i] == TestSummary(tests[i])
  {
    var n := if |tests| < SummaryLength then |tests| else SummaryLength;
    seq(n, i requires 0 <= i < n => TestSummary(tests[i]))
  }

  /** The JSON body of the `NEW_REPORT` message for a stored item. */
  function NotificationBody(item: Item, createdAt: string): Json.Value {
    Json.Obj(map[
      "type" := Json.Str("NEW_REPORT"),
      "report_id" := Json.Str(item.reportId),
      "patient_name" := Json.Str(item.patientName),
      "patient_id" := Json.Str(item.patientId),
      "clinic_id" := Json.Str(item.clinicId),
      "timestamp" := Json.Str(item.timestamp),
      "test_count" := Json.Int(|item.testResults|),
      "test_summary" := Json.Arr(Summaries(item.testResults)),
      "has_remarks" := Json.Bool(item.remarks != ""),
      "created_at" := Json.Str(createdAt)])
  }

  /** The message attributes: report type, clinic and priority. */
  function NotificationAttributes(clinic: string): map<string, string> {
    map["ReportType" := "DIAGNOSTIC_REPORT", "ClinicId" := clinic, "Priority" := "NORMAL"]
  }

  /** `send_sqs_notification`: nothing is queued when no queue is configured. */
  function Notify(queueUrl: string, item: Item, createdAt: string): (msg: Option<Outgoing>)
    ensures msg.None? <==> queueUrl == ""
    ensures msg.Some? ==> msg.value.queueUrl == queueUrl && msg.value.attributes.Keys == {"ReportType", "ClinicId", "Priority"}
                          && msg.value.attributes["ClinicId"] == item.clinicId
  {
    if queueUrl == "" then None
    else Some(Outgoing(queueUrl, NotificationBody(item, createdAt), NotificationAttributes(item.clinicId)))
  }

  // ---------------------------------------------------------------------------
  // One uploaded file

  /** What the download gave: nothing, or the decoded text and the rows the csv reader yields (None when it raises). */
  datatype Fetch = FetchFailed | Fetched(content: string, rows: Option<seq<RawRow>>)

  /**
   * What processing a file takes from its surroundings, by report position: the
   * generated report ids, the clock readings for the item and for the message,
   * the positions whose `put_item` raises, and the configured queue URL.
   */
  datatype Env = Env(reportId: nat -> string, now: nat -> string, createdAt: nat -> string,
                     putFails: set<nat>, queueUrl: string)

  /** The reports of an accepted, non-empty, readable upload with at least one patient; None when the file is rejected. */
  function FileReports(file: Upload, fetch: Fetch): (reports: Option<seq<Report>>)
    ensures reports.Some? ==> IsUploadKey(file.key) && reports.value != []
    ensures reports.Some? ==> fetch.Fetched? && fetch.content != "" && fetch.rows.Some? && reports.value == GroupReports(fetch.rows.value)
    ensures (IsUploadKey(file.key) && fetch.Fetched? && fetch.content != "" && fetch.rows.Some?
             && GroupReports(fetch.rows.value) != []) ==> reports.Some?
  {
    if !IsUploadKey(file.key) then None
    else match fetch
      case FetchFailed => None
      case Fetched(content, rows) =>
        if content == "" || rows.None? then None
        else
          var reports := GroupReports(rows.value);
          if reports == [] then None else Some(reports)
  }

  /** The positions below `n` whose item was written, in order. */
  function Written(fails: set<nat>, n: nat): (done: seq<nat>)
    ensures forall j :: 0 <= j < |done| ==> done[j] < n
    ensures forall i: nat :: i in done <==> i < n && i !in fails
    ensures forall j, k :: 0 <= j < k < |done| ==> done[j] < done[k]
  {
    if n == 0 then [] else Written(fails, n - 1) + (if n - 1 in fails then [] else [n - 1])
  }

  lemma WrittenNext(fails: set<nat>, i: nat)
    ensures Written(fails, i + 1) == Written(fails, i) + (if i in fails then [] else [i])
  {
  }

  function ItemAt(file: Upload, reports: seq<Report>, env: Env, i: nat): Item
    requires i < |reports|
  {
    ItemFor(file, reports[i], env.reportId(i), env.now(i))
  }

  /** `stored` holds the items of the reports at positions `done`, in that order. */
  predicate StoredAre(stored: seq<Item>, file: Upload, reports: seq<Report>, env: Env, done: seq<nat>) {
    && |stored| == |done|
    && forall j :: 0 <= j < |done| ==> done[j] < |reports| && stored[j] == ItemAt(file, reports, env, done[j])
  }

  /** `sent` holds one message per stored item when a queue is configured, and none otherwise. */
  predicate SentAre(sent: seq<Outgoing>, stored: seq<Item>, env: Env, done: seq<nat>)
    requires |stored| == |done|
  {
    if env.queueUrl == "" then sent == []
    else |sent| == |stored|
         && forall j :: 0 <= j < |sent| ==> Notify(env.queueUrl, stored[j], env.createdAt(done[j])) == Some(sent[j])
  }

  lemma StoredStep(stored: seq<Item>, sent: seq<Outgoing>, file: Upload, reports: seq<Report>, env: Env,
                   done: seq<nat>, i: nat, msg: Option<Outgoing>)
    requires StoredAre(stored, file, reports, env, done) && SentAre(sent, stored, env, done)
    requires i < |reports| && msg == Notify(env.queueUrl, ItemAt(file, reports, env, i), env.createdAt(i))
    ensures var stored' := stored + [ItemAt(file, reports, env, i)];
            var sent' := if msg.Some? then sent + [msg.value] else sent;
            StoredAre(stored', file, reports, env, done + [i]) && SentAre(sent', stored', env, done + [i])
  {
  }

  /** `process_single_file` reports success when at least one report of an accepted file was stored. */
  predicate FileSucceeds(file: Upload, fetch: Fetch, env: Env) {
    FileReports(file, fetch).Some?
    && exists i :: 0 <= i < |FileReports(file, fetch).value| && i !in env.putFails
  }

  /** Some item is written exactly when some write succeeds. */
  lemma WrittenNonEmptyIff(fails: set<nat>, n: nat)
    ensures Written(fails, n) != [] <==> exists i :: 0 <= i < n && i !in fails
  {
    var done := Written(fails, n);
    if done != [] {
      assert done[0] in done;
    } else {
      forall i | 0 <= i < n ensures i in fails {
        assert i !in done;
      }
    }
  }

  /**
   * `process_single_file`: parses an accepted upload, writes one item per
   * patient report (a report whose write raises is skipped), queues a message
   * for each written item, and reports whether anything was written.
   */
  method ProcessSingleFile(file: Upload, fetch: Fetch, env: Env) returns (ok: bool, stored: seq<Item>, sent: seq<Outgoing>)
    ensures ok == FileSucceeds(file, fetch, env)
    ensures FileReports(file, fetch).None? ==> stored == [] && sent == []
    ensures FileReports(file, fetch).Some? ==>
              var reports := FileReports(file, fetch).value;
              var done := Written(env.putFails, |reports|);
              StoredAre(stored, file, reports, env, done) && SentAre(sent, stored, env, done)
  {
    ok, stored, sent := false, [], [];
    if !(StartsWith(file.key, UiPrefix) || StartsWith(file.key, CliPrefix)) {
      return;
    }
    if fetch.FetchFailed? || fetch.content == "" || fetch.rows.None? {
      return;
    }
    var reports := ParseMedisysCsv(fetch.rows.value);
    if reports == [] {
      return;
    }
    var processed := 0;
    ghost var done: seq<nat> := [];
    for i := 0 to |reports|
      invariant done == Written(env.putFails, i)
      invariant processed == |stored|
      invariant StoredAre(stored, file, reports, env, done)
      invariant SentAre(sent, stored, env, done)
    {
      if i in env.putFails {
        // the write raised: the report is skipped and nothing is queued for it
        WrittenNext(env.putFails, i);
        continue;
      }
      var item := ItemFor(file, reports[i], env.reportId(i), env.now(i));
      var msg := Notify(env.queueUrl, item, env.createdAt(i));
      StoredStep(stored, sent, file, reports, env, done, i, msg);
      WrittenNext(env.putFails, i);
      stored := stored + [item];
      if msg.Some? {
        sent := sent + [msg.value];
      }
      done := done + [i];
      processed := processed + 1;
    }
    ok := processed > 0;
    WrittenNonEmptyIff(env.putFails, |reports|);
  }

  // ---------------------------------------------------------------------------
  // The event handler

  /** One entry of an event's `Records`; an absent field is the empty string. */
  datatype S3Record = S3Record(eventSource: string, bucket: string, key: string)

  /** An event with a `Records` list, or any other event with its `source`, `detail-type` and detail object. */
  datatype Event =
    | Records(records: seq<S3Record>)
    | Other(source: string, detailType: string, bucket: string, key: string)

  datatype Response = Response(status: int, processed: nat)

  /** The upload a record announces: only S3 records with a bucket and a key, whose key is URL-decoded. */
  function RecordFile(rec: S3Record, unquote: string -> string): (file: Option<Upload>)
    ensures file.Some? ==> rec.eventSource == "aws:s3" && file.value.bucket == rec.bucket != "" && file.value.key != ""
    ensures rec.eventSource == "aws:s3" && rec.bucket != "" && rec.key != "" && unquote(rec.key) != ""
            ==> file == Some(Upload(rec.bucket, unquote(rec.key)))
  {
    if rec.eventSource != "aws:s3" then None
    else
      var key := if rec.key != "" then unquote(rec.key) else rec.key;
      if rec.bucket == "" || key == "" then None else Some(Upload(rec.bucket, key))
  }

  /** Whether record `i` names a file that was processed successfully. */
  predicate RecordSucceeds(rec: S3Record, i: nat, unquote: string -> string, fetchOf: nat -> Fetch, envOf: nat -> Env) {
    match RecordFile(rec, unquote)
    case Some(file) => FileSucceeds(file, fetchOf(i), envOf(i))
    case None => false
  }

  /** The number of the first `n` records whose file was processed successfully. */
  function ProcessedFiles(records: seq<S3Record>, n: nat, unquote: string -> string,
                          fetchOf: nat -> Fetch, envOf: nat -> Env): (count: nat)
    requires n <= |records|
    ensures count <= n
  {
    if n == 0 then 0
    else ProcessedFiles(records, n - 1, unquote, fetchOf, envOf)
         + (if RecordSucceeds(records[n - 1], n - 1, unquote, fetchOf, envOf) then 1 else 0)
  }

  /** Records that do not come from S3 are never counted. */
  lemma {:induction false} NonS3RecordsCountNothing(records: seq<S3Record>, n: nat, unquote: string -> string,
                                                   fetchOf: nat -> Fetch, envOf: nat -> Env)
    requires n <= |records|
    requires forall i :: 0 <= i < n ==> records[i].eventSource != "aws:s3"
    ensures ProcessedFiles(records, n, unquote, fetchOf, envOf) == 0
  {
    if n > 0 {
      NonS3RecordsCountNothing(records, n - 1, unquote, fetchOf, envOf);
    }
  }

  /**
   * The handler `process`: without a configured table it fails with 500; for
   * an S3 notification it processes every record in turn; for an EventBridge
   * "Object Created" event it processes the one object named in the detail
   * (its key is used as given); any other event is rejected with 400.
   */
  method Process(tableName: string, event: Event, unquote: string -> string,
                 fetchOf: nat -> Fetch, envOf: nat -> Env) returns (response: Response)
    ensures tableName == "" ==> response == Response(500, 0)
    ensures tableName != "" && event.Records? ==>
              response == Response(200, ProcessedFiles(event.records, |event.records|, unquote, fetchOf, envOf))
    ensures tableName != "" && event.Other? ==>
              if event.source != "aws.s3" || event.detailType != "Object Created" then response == Response(400, 0)
              else if event.bucket == "" || event.key == "" then response == Response(400, 0)
              else response == Response(200, if FileSucceeds(Upload(event.bucket, event.key), fetchOf(0), envOf(0)) then 1 else 0)
  {
    if tableName == "" {
      return Response(500, 0);
    }
    match event
    case Records(records) =>
      var processedFiles := 0;
      for i := 0 to |records|
        invariant processedFiles == ProcessedFiles(records, i, unquote, fetchOf, envOf)
      {
        var rec := records[i];
        if rec.eventSource != "aws:s3" {
          continue;
        }
        var key := rec.key;
        if key != "" {
          key := unquote(key);
        }
        if rec.bucket == "" || key == "" {
          continue;
        }
        var success, _, _ := ProcessSingleFile(Upload(rec.bucket, key), fetchOf(i), envOf(i));
        if success {
          processedFiles := processedFiles + 1;
        }
      }
      return Response(200, processedFiles);
    case Other(source, detailType, bucket, key) =>
      if source != "aws.s3" || detailType != "Object Created" {
        return Response(400, 0);
      }
      if bucket == "" || key == "" {
        return Response(400, 0);
      }
      var success, _, _ := ProcessSingleFile(Upload(bucket, key), fetchOf(0), envOf(0));
      return Response(200, if success then 1 else 0);
  }
}
