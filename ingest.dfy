/**
 * Report ingestion (lambda/process/handler.py): the MediSys CSV is read row by
 * row into one report per run of consecutive rows of the same patient; each
 * report is stored with the clinic id taken from the CSV or, failing that, from
 * the upload path, and announced on the notification queue.
 *
 * The CSV text itself is split into rows by Python's `csv.DictReader`; the model
 * starts from those rows. S3, DynamoDB and SQS calls are replaced by inputs.
 */
module Ingest {
  import opened Wrappers
  import opened Text
  import opened Seqs

  /** One `csv.DictReader` row: (column name, cell) pairs in header order. */
  datatype RawRow = RawRow(cells: seq<(string, string)>)

  /** A cleaned row: stripped column names to stripped cells. */
  type Row = map<string, string>

  /**
   * Cleaning of a row: columns with an empty name are dropped, names and cells
   * are stripped, and of two names that strip to the same key the later wins.
   */
  function CleanRow(raw: RawRow): (row: Row)
    ensures forall k :: k in row ==> IsTrimmed(row[k])
  {
    CleanCells(raw.cells)
  }

  function CleanCells(cells: seq<(string, string)>): (row: Row)
    ensures forall k :: k in row ==> IsTrimmed(row[k])
  {
    if cells == [] then map[]
    else
      var row := CleanCells(cells[..|cells| - 1]);
      var (name, cell) := cells[|cells| - 1];
      if name == "" then row else row[Strip(name) := Strip(cell)]
  }

  /** `cleaned_row.get(name, '')`. */
  function Field(row: Row, name: string): string {
    if name in row then row[name] else ""
  }

  datatype TestResult = TestResult(
    testType: string, testName: string, result: string, unit: string,
    referenceRange: string, status: string, criticalFlag: string)

  datatype Report = Report(
    patientId: string, patientName: string, patientDob: string, patientGender: string,
    clinicId: string, testDate: string, orderingPhysician: string, reportDate: string,
    reportId: string, testResults: seq<TestResult>, notes: seq<string>)

  /** The row's patient id; cleaning has already stripped it, so the second `strip()` of the source is left out (see `PatientIdStripped`). */
  function PatientId(row: Row): string {
    Field(row, "patient_id")
  }

  function TestOf(row: Row): TestResult {
    TestResult(Field(row, "test_type"), Field(row, "test_name"), Field(row, "result_value"),
               Field(row, "result_unit"), Field(row, "reference_range"), Field(row, "status"),
               Field(row, "critical_flag"))
  }

  /** The row's note; as for the patient id, stripping the cleaned cell again changes nothing. */
  function NoteOf(row: Row): string {
    Field(row, "notes")
  }

  /** The source strips the patient id and the note of a cleaned row once more; on cleaned cells that is the identity. */
  lemma PatientIdStripped(raw: RawRow)
    ensures Strip(PatientId(CleanRow(raw))) == PatientId(CleanRow(raw))
    ensures Strip(NoteOf(CleanRow(raw))) == NoteOf(CleanRow(raw))
  {
    var row := CleanRow(raw);
    if "patient_id" in row {
      StripTrimmed(row["patient_id"]);
    }
    if "notes" in row {
      StripTrimmed(row["notes"]);
    }
  }

  /** The report a row opens: the patient fields of that row, no tests and no notes yet. */
  function OpenReport(row: Row): (r: Report)
    ensures r.patientId == PatientId(row) && r.testResults == [] && r.notes == []
  {
    Report(PatientId(row), Strip(Field(row, "first_name") + " " + Field(row, "last_name")),
           Field(row, "patient_dob"), Field(row, "patient_gender"), Field(row, "clinic_id"),
           Field(row, "test_date"), Field(row, "ordering_physician"), Field(row, "report_date"),
           Field(row, "report_id"), [], [])
  }

  /** What one row adds to its patient's report: its test when it names one, its note when new. */
  function AddRow(r: Report, row: Row): (r': Report)
    ensures r'.patientId == r.patientId
  {
    var test := TestOf(row);
    var note := NoteOf(row);
    r.(testResults := if test.testName != "" then r.testResults + [test] else r.testResults,
       notes := if note != "" && note !in r.notes then r.notes + [note] else r.notes)
  }

  // ---------------------------------------------------------------------------
  // The parser's state after a prefix of the rows

  /** The cleaned rows that carry a patient id, in input order. */
  function ValidRows(rows: seq<RawRow>): (v: seq<Row>)
    ensures forall j :: 0 <= j < |v| ==> PatientId(v[j]) != ""
  {
    if rows == [] then []
    else
      var v := ValidRows(rows[..|rows| - 1]);
      var row := CleanRow(rows[|rows| - 1]);
      if PatientId(row) == "" then v else v + [row]
  }

  /** The finished reports and the report under construction. */
  datatype Scan = Scan(done: seq<Report>, current: Option<Report>)

  /** One valid row: it continues the current report when the patient ids agree, and otherwise closes it and opens a new one. */
  function Step(s: Scan, row: Row): Scan {
    if s.current.Some? && s.current.value.patientId == PatientId(row) then
      Scan(s.done, Some(AddRow(s.current.value, row)))
    else
      Scan(s.done + (if s.current.Some? then [s.current.value] else []), Some(AddRow(OpenReport(row), row)))
  }

  function Fold(v: seq<Row>): Scan {
    if v == [] then Scan([], None) else Step(Fold(v[..|v| - 1]), v[|v| - 1])
  }

  /** All reports of a scan, the one under construction last. */
  function Finish(s: Scan): seq<Report> {
    s.done + (if s.current.Some? then [s.current.value] else [])
  }

  /** The reports `parse_medisys_csv` returns for `rows`. */
  function GroupReports(rows: seq<RawRow>): seq<Report> {
    Finish(Fold(ValidRows(rows)))
  }

  lemma ValidRowsNext(rows: seq<RawRow>, i: nat)
    requires i < |rows|
    ensures ValidRows(rows[..i + 1]) ==
            (if PatientId(CleanRow(rows[i])) == "" then ValidRows(rows[..i]) else ValidRows(rows[..i]) + [CleanRow(rows[i])])
  {
    assert rows[..i + 1][..i] == rows[..i];
  }

  lemma FoldSnoc(v: seq<Row>, row: Row)
    ensures Fold(v + [row]) == Step(Fold(v), row)
  {
    assert (v + [row])[..|v|] == v;
  }

  // ---------------------------------------------------------------------------
  // The parser

  /**
   * `parse_medisys_csv`: one pass over the rows with the report under
   * construction in `current`; a row whose patient id differs from the current
   * report's closes that report and opens the next one.
   */
  method ParseMedisysCsv(rows: seq<RawRow>) returns (reports: seq<Report>)
    ensures reports == GroupReports(rows)
  {
    reports := [];
    var current: Option<Report> := None;
    ghost var v: seq<Row> := [];
    for i := 0 to |rows|
      invariant v == ValidRows(rows[..i])
      invariant Fold(v) == Scan(reports, current)
    {
      ValidRowsNext(rows, i);
      var row := CleanRow(rows[i]);
      var patientId := PatientId(row);
      if patientId == "" {
        continue;
      }
      FoldSnoc(v, row);
      v := v + [row];
      var cur: Report;
      if current.None? || current.value.patientId != patientId {
        if current.Some? {
          reports := reports + [current.value];
        }
        cur := OpenReport(row);
      } else {
        cur := current.value;
      }
      ghost var before := cur;
      var test := TestOf(row);
      if test.testName != "" {
        cur := cur.(testResults := cur.testResults + [test]);
      }
      var note := NoteOf(row);
      if note != "" && note !in cur.notes {
        cur := cur.(notes := cur.notes + [note]);
      }
      assert cur == AddRow(before, row);
      current := Some(cur);
    }
    assert rows[..|rows|] == rows;
    if current.Some? {
      reports := reports + [current.value];
    }
  }

  // ---------------------------------------------------------------------------
  // The grouping, described run by run

  /** Indices of the valid rows that open a report: the first row and every row whose id differs from its predecessor's. */
  function Starts(v: seq<Row>): (s: seq<nat>)
    ensures |s| <= |v|
    ensures forall k :: 0 <= k < |s| ==> s[k] < |v|
    ensures forall k :: 0 <= k < |s| - 1 ==> s[k] < s[k + 1]
    ensures v != [] ==> s != [] && s[0] == 0
  {
    if v == [] then []
    else
      var s := Starts(v[..|v| - 1]);
      if |v| > 1 && PatientId(v[|v| - 2]) == PatientId(v[|v| - 1]) then s else s + [|v| - 1]
  }

  lemma StartsNext(v: seq<Row>, row: Row)
    ensures Starts(v + [row]) ==
            if v != [] && PatientId(v[|v| - 1]) == PatientId(row) then Starts(v) else Starts(v) + [|v|]
  {
    assert (v + [row])[..|v|] == v;
  }

  /** A row opens a report exactly when it is the first valid row or its patient id differs from the previous valid row's. */
  lemma {:induction false} StartsExactly(v: seq<Row>, i: nat)
    requires i < |v|
    ensures i in Starts(v) <==> i == 0 || PatientId(v[i - 1]) != PatientId(v[i])
  {
    if i < |v| - 1 {
      var init := v[..|v| - 1];
      StartsExactly(init, i);
      assert init[i] == v[i];
      assert i > 0 ==> init[i - 1] == v[i - 1];
    }
  }

  /** One past the last row of run `k`. */
  function RunEnd(v: seq<Row>, k: nat): (e: nat)
    requires k < |Starts(v)|
    ensures Starts(v)[k] < e <= |v|
  {
    if k + 1 < |Starts(v)| then Starts(v)[k + 1] else |v|
  }

  /** The tests the rows name, in row order. */
  function NamedTests(run: seq<Row>): (tests: seq<TestResult>)
    ensures |tests| <= |run|
    ensures forall i :: 0 <= i < |tests| ==> tests[i].testName != ""
  {
    if run == [] then []
    else
      var tests := NamedTests(run[..|run| - 1]);
      var test := TestOf(run[|run| - 1]);
      if test.testName != "" then tests + [test] else tests
  }

  /** The non-empty notes of the rows, in row order, repeats included. */
  function Notes(run: seq<Row>): (notes: seq<string>)
    ensures |notes| <= |run|
    ensures forall i :: 0 <= i < |notes| ==> notes[i] != ""
  {
    if run == [] then []
    else
      var notes := Notes(run[..|run| - 1]);
      var note := NoteOf(run[|run| - 1]);
      if note != "" then notes + [note] else notes
  }

  /**
   * The report of one run: the patient fields of its first row, the tests the
   * run names and its non-empty notes, each kept at its first occurrence.
   */
  function RunReport(run: seq<Row>): Report
    requires run != []
  {
    OpenReport(run[0]).(testResults := NamedTests(run), notes := Dedup(Notes(run)))
  }

  lemma RunReportExtend(v: seq<Row>, a: nat, b: nat)
    requires a < b < |v|
    ensures RunReport(v[a..b + 1]) == AddRow(RunReport(v[a..b]), v[b])
  {
    var run, run' := v[a..b], v[a..b + 1];
    assert run'[..|run|] == run;
    assert run'[|run|] == v[b];
    var notes := Notes(run');
    if NoteOf(v[b]) != "" {
      assert notes[..|notes| - 1] == Notes(run);
    }
  }

  lemma RunReportSingle(run: seq<Row>)
    requires |run| == 1
    ensures RunReport(run) == AddRow(OpenReport(run[0]), run[0])
  {
    var row := run[0];
    assert run[..0] == [];
    var test, note := TestOf(row), NoteOf(row);
    assert NamedTests(run) == if test.testName != "" then [test] else [];
    var notes := if note != "" then [note] else [];
    assert Notes(run) == notes;
    assert notes[..0] == [];
    assert Dedup(notes) == notes;
  }


  /** Run `k` of the valid rows `v`. */
  function RunOf(v: seq<Row>, k: nat): (run: seq<Row>)
    requires k < |Starts(v)|
    ensures run != []
  {
    v[Starts(v)[k]..RunEnd(v, k)]
  }

  /** One report per run, in order. */
  function RunReports(v: seq<Row>): (reports: seq<Report>)
    ensures |reports| == |Starts(v)|
  {
    seq(|Starts(v)|, k requires 0 <= k < |Starts(v)| => RunReport(RunOf(v, k)))
  }

  /** A row that continues the last run leaves the runs before it alone. */
  lemma RunsContinued(init: seq<Row>, row: Row)
    requires init != [] && PatientId(init[|init| - 1]) == PatientId(row)
    ensures Starts(init + [row]) == Starts(init)
    ensures forall k :: 0 <= k < |Starts(init)| - 1 ==> RunOf(init + [row], k) == RunOf(init, k)
  {
    var v, s := init + [row], Starts(init);
    StartsNext(init, row);
    forall k | 0 <= k < |s| - 1 ensures RunOf(v, k) == RunOf(init, k) {
      SliceSnoc(init, row, s[k], s[k + 1]);
    }
  }

  /** ... and lengthens the last run by one row. */
  lemma LastRunContinued(init: seq<Row>, row: Row)
    requires init != [] && PatientId(init[|init| - 1]) == PatientId(row)
    ensures var last := |Starts(init)| - 1;
            RunReport(RunOf(init + [row], last)) == AddRow(RunReport(RunOf(init, last)), row)
  {
    var v, s := init + [row], Starts(init);
    StartsNext(init, row);
    var last := |s| - 1;
    var a := s[last];
    assert RunOf(v, last) == v[a..|init| + 1];
    assert RunOf(init, last) == init[a..|init|];
    SliceSnoc(init, row, a, |init|);
    assert v[|init|] == row;
    RunReportExtend(v, a, |init|);
  }

  /** A row that does not continue the last run opens a run of its own ... */
  lemma StartsOpened(init: seq<Row>, row: Row)
    requires init == [] || PatientId(init[|init| - 1]) != PatientId(row)
    ensures Starts(init + [row]) == Starts(init) + [|init|]
  {
    StartsNext(init, row);
  }

  /** ... leaves the other runs alone ... */
  lemma OldRunsKept(init: seq<Row>, row: Row)
    requires init == [] || PatientId(init[|init| - 1]) != PatientId(row)
    ensures |Starts(init + [row])| == |Starts(init)| + 1
    ensures forall k :: 0 <= k < |Starts(init)| ==> RunOf(init + [row], k) == RunOf(init, k)
  {
    var v, s := init + [row], Starts(init);
    StartsOpened(init, row);
    forall k | 0 <= k < |s| ensures RunOf(v, k) == RunOf(init, k) {
      SliceSnoc(init, row, s[k], RunEnd(init, k));
    }
  }

  /** ... and its report is the row's own. */
  lemma NewRunOpened(init: seq<Row>, row: Row)
    requires init == [] || PatientId(init[|init| - 1]) != PatientId(row)
    ensures |Starts(init)| < |Starts(init + [row])|
    ensures RunReport(RunOf(init + [row], |Starts(init)|)) == AddRow(OpenReport(row), row)
  {
    var v := init + [row];
    StartsOpened(init, row);
    assert RunOf(v, |Starts(init)|) == v[|init|..|v|];
    RunReportSingle(v[|init|..|v|]);
  }

  lemma SliceSnoc(init: seq<Row>, row: Row, a: nat, b: nat)
    requires a <= b <= |init|
    ensures (init + [row])[a..b] == init[a..b]
  {
  }

  /** The reports of a scan are those of the runs of `v`. */
  predicate ReportsMatchRuns(reports: seq<Report>, v: seq<Row>) {
    |reports| == |Starts(v)| && forall k :: 0 <= k < |reports| ==> reports[k] == RunReport(RunOf(v, k))
  }

  lemma FoldStepContinues(st: Scan, row: Row)
    requires st.current.Some? && st.current.value.patientId == PatientId(row)
    ensures Finish(Step(st, row)) == st.done + [AddRow(st.current.value, row)]
  {
  }

  lemma FoldStepOpens(st: Scan, row: Row)
    requires st.current.None? || st.current.value.patientId != PatientId(row)
    ensures Finish(Step(st, row)) == Finish(st) + [AddRow(OpenReport(row), row)]
  {
  }

  lemma RunsMatchContinued(init: seq<Row>, row: Row, prev: seq<Report>, r: seq<Report>)
    requires init != [] && PatientId(init[|init| - 1]) == PatientId(row)
    requires ReportsMatchRuns(prev, init)
    requires r == prev[..|prev| - 1] + [AddRow(prev[|prev| - 1], row)]
    ensures ReportsMatchRuns(r, init + [row])
  {
    var v := init + [row];
    RunsContinued(init, row);
    var last := |prev| - 1;
    assert |r| == |prev|;
    forall k | 0 <= k < |r| ensures r[k] == RunReport(RunOf(v, k)) {
      if k < last {
        assert r[k] == prev[k] == RunReport(RunOf(init, k));
        assert RunOf(v, k) == RunOf(init, k);
      } else {
        assert k == last == |Starts(init)| - 1;
        LastRunContinued(init, row);
        assert r[k] == AddRow(prev[last], row);
        assert prev[last] == RunReport(RunOf(init, last));
      }
    }
  }

  lemma RunsMatchOpened(init: seq<Row>, row: Row, prev: seq<Report>, r: seq<Report>)
    requires init == [] || PatientId(init[|init| - 1]) != PatientId(row)
    requires ReportsMatchRuns(prev, init)
    requires r == prev + [AddRow(OpenReport(row), row)]
    ensures ReportsMatchRuns(r, init + [row])
  {
    StartsOpened(init, row);
    OldRunsKept(init, row);
    NewRunOpened(init, row);
    ReportsAppended(init + [row], prev, AddRow(OpenReport(row), row), r);
  }

  /** Appending the report of the new last run to the reports of the earlier runs gives the reports of every run. */
  lemma ReportsAppended(v: seq<Row>, prev: seq<Report>, last: Report, r: seq<Report>)
    requires |Starts(v)| == |prev| + 1
    requires forall k :: 0 <= k < |prev| ==> prev[k] == RunReport(RunOf(v, k))
    requires RunReport(RunOf(v, |prev|)) == last
    requires r == prev + [last]
    ensures ReportsMatchRuns(r, v)
  {
    forall k | 0 <= k < |r| ensures r[k] == RunReport(RunOf(v, k)) {
      if k < |prev| {
        assert r[k] == prev[k];
      }
    }
  }

  /** The parser's state after the valid rows `v`: the reports of the runs, the last one still under construction. */
  lemma {:induction false} FoldFollowsRuns(v: seq<Row>)
    ensures ReportsMatchRuns(Finish(Fold(v)), v)
    ensures v == [] <==> Fold(v).current.None?
    ensures v != [] ==> Fold(v).current.value.patientId == PatientId(v[|v| - 1])
  {
    if v != [] {
      var init, row := v[..|v| - 1], v[|v| - 1];
      assert v == init + [row];
      FoldFollowsRuns(init);
      FoldSnoc(init, row);
      var st := Fold(init);
      if st.current.Some? && st.current.value.patientId == PatientId(row) {
        FoldStepContinues(st, row);
        assert Finish(st) == st.done + [st.current.value];
        RunsMatchContinued(init, row, Finish(st), Finish(Fold(v)));
      } else {
        FoldStepOpens(st, row);
        RunsMatchOpened(init, row, Finish(st), Finish(Fold(v)));
      }
    }
  }

  /**
   * `parse_medisys_csv` in declarative form: one report per maximal run of
   * valid rows with equal patient ids, in input order, each built from its run
   * alone.
   */
  lemma GroupReportsFollowRuns(rows: seq<RawRow>)
    ensures GroupReports(rows) == RunReports(ValidRows(rows))
  {
    var v := ValidRows(rows);
    FoldFollowsRuns(v);
    assert ReportsMatchRuns(GroupReports(rows), v);
  }

  lemma {:induction false} StartsSorted(v: seq<Row>, j: nat, l: nat)
    requires j < l < |Starts(v)|
    ensures Starts(v)[j] < Starts(v)[l]
    decreases l - j
  {
    if j + 1 < l {
      StartsSorted(v, j, l - 1);
    }
  }

  /** Every row of run `k` carries the patient id of the row that opens it. */
  lemma {:induction false} RunSharesPatient(v: seq<Row>, k: nat, i: nat)
    requires k < |Starts(v)| && Starts(v)[k] <= i < RunEnd(v, k)
    ensures PatientId(v[i]) == PatientId(v[Starts(v)[k]])
    decreases i
  {
    var s := Starts(v);
    if i > s[k] {
      if i in s {
        var j :| 0 <= j < |s| && s[j] == i;
        if j <= k {
          if j < k { StartsSorted(v, j, k); }
        } else {
          if k + 1 < j { StartsSorted(v, k + 1, j); }
        }
        assert false;
      }
      StartsExactly(v, i);
      RunSharesPatient(v, k, i - 1);
    }
  }

  lemma AdjacentRunsDiffer(v: seq<Row>, k: nat)
    requires k + 1 < |Starts(v)|
    ensures PatientId(RunOf(v, k)[0]) != PatientId(RunOf(v, k + 1)[0])
  {
    var s := Starts(v);
    var a, b := s[k], s[k + 1];
    assert RunEnd(v, k) == b;
    assert RunOf(v, k)[0] == v[a] && RunOf(v, k + 1)[0] == v[b];
    RunSharesPatient(v, k, b - 1);
    StartsExactly(v, b);
    assert b in s && b > 0;
  }

  lemma RunReportPatient(run: seq<Row>)
    requires run != []
    ensures RunReport(run).patientId == PatientId(run[0])
  {
  }

  /** Two reports in a row never belong to the same patient: equal ids in consecutive rows always merge. */
  lemma ReportsAlternate(rows: seq<RawRow>)
    ensures var reports := GroupReports(rows);
            forall k :: 0 <= k < |reports| - 1 ==> reports[k].patientId != reports[k + 1].patientId
  {
    var v, reports := ValidRows(rows), GroupReports(rows);
    GroupReportsFollowRuns(rows);
    forall k | 0 <= k < |reports| - 1 ensures reports[k].patientId != reports[k + 1].patientId {
      AdjacentRunsDiffer(v, k);
      RunReportPatient(RunOf(v, k));
      RunReportPatient(RunOf(v, k + 1));
    }
  }

  lemma {:induction false} ValidRowsConcat(a: seq<RawRow>, b: seq<RawRow>)
    ensures ValidRows(a + b) == ValidRows(a) + ValidRows(b)
    decreases |b|
  {
    if b == [] {
      assert a + b == a;
    } else {
      var b', raw := b[..|b| - 1], b[|b| - 1];
      ValidRowsConcat(a, b');
      DropLastOfAppend(a, b);
      var c := CleanRow(raw);
      assert ValidRows(a + b) == if PatientId(c) == "" then ValidRows(a + b') else ValidRows(a + b') + [c];
      assert ValidRows(b) == if PatientId(c) == "" then ValidRows(b') else ValidRows(b') + [c];
      AppendAssoc(ValidRows(a), ValidRows(b'), [c]);
    }
  }

  /** A row without a patient id changes no report, wherever it stands. */
  lemma SkippedRowChangesNothing(a: seq<RawRow>, raw: RawRow, b: seq<RawRow>)
    requires PatientId(CleanRow(raw)) == ""
    ensures GroupReports(a + [raw] + b) == GroupReports(a + b)
  {
    ValidRowsConcat(a + [raw], b);
    ValidRowsConcat(a, [raw]);
    ValidRowsConcat(a, b);
    ValidRowsNext([raw], 0);
    assert [raw][..0] == [];
    assert [raw][..1] == [raw];
  }
}
