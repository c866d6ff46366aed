/**
 * The legacy upload handler (lambda/index.py). `parse_medical_csv` reads a
 * key/value header section up to the `Test` row, the test rows through a
 * dictionary reader, and a `Remarks` row that follows the header, all from the
 * rows of one CSV file. The header loop and the remarks search share one row
 * reader. The handler then stores one item per file and mails the healthcare
 * users and the uploader.
 *
 * A CSV file is given as the rows `csv.reader` yields, each a sequence of
 * cells. A blank line is a row with no cells.
 */
module Legacy {
  import opened Wrappers
  import opened Text
  import Upload

  type Row = seq<string>

  // ---------------------------------------------------------------------------
  // The header section

  /**
   * `row[0].lower().replace(' ', '_')`: lower case, with spaces turned into
   * underscores. The key is as long as the cell because `Text.Lower` maps ASCII
   * letters only; Python's `lower()` can lengthen a string (`'İ'` lower-cases to
   * two code points).
   */
  function HeaderKey(cell: string): (key: string)
    ensures |key| == |cell|
  {
    ReplaceChar(Lower(cell), ' ', '_')
  }

  /** A header key has no spaces; each character is the cell's, lower-cased, with `_` for a space. */
  lemma HeaderKeyChars(cell: string)
    ensures ' ' !in HeaderKey(cell)
    ensures forall k :: 0 <= k < |cell| ==> HeaderKey(cell)[k] == (if cell[k] == ' ' then '_' else LowerChar(cell[k]))
  {
  }

  /** A row the header loop reads past: it has cells and its first cell is not `Test`. */
  predicate Continues(row: Row) {
    row != [] && row[0] != "Test"
  }

  /** A header row that adds an entry: a first cell other than `Test` and a non-empty second cell. */
  predicate IsEntry(row: Row) {
    |row| >= 2 && row[0] != "" && row[0] != "Test" && row[1] != ""
  }

  /** Where the header loop stopped: the patient information read, the reader's position, and whether a `Test` row was met. */
  datatype HeaderScan = HeaderScan(data: map<string, string>, next: nat, found: bool)

  /**
   * The header loop from row `i` on, with `data` read so far. None where a row
   * without cells makes `row[0]` raise.
   */
  function ScanHeader(rows: seq<Row>, i: nat, data: map<string, string>): (r: Option<HeaderScan>)
    requires i <= |rows|
    ensures r.Some? ==> i <= r.value.next <= |rows|
    ensures r.Some? && !r.value.found ==> r.value.next == |rows|
    ensures r.Some? && r.value.found ==> i < r.value.next && rows[r.value.next - 1] != [] && rows[r.value.next - 1][0] == "Test"
    decreases |rows| - i
  {
    if i == |rows| then Some(HeaderScan(data, |rows|, false))
    else if rows[i] == [] then None
    else if rows[i][0] == "" then ScanHeader(rows, i + 1, data)
    else if rows[i][0] == "Test" then Some(HeaderScan(data, i + 1, true))
    else if |rows[i]| >= 2 && rows[i][1] != "" then ScanHeader(rows, i + 1, data[HeaderKey(rows[i][0]) := rows[i][1]])
    else ScanHeader(rows, i + 1, data)
  }

  /**
   * The header loop raises exactly when a row without cells comes before any
   * `Test` row, and it reads every row before the one it stops at.
   */
  lemma {:induction false} HeaderStops(rows: seq<Row>, i: nat, data: map<string, string>)
    requires i <= |rows|
    ensures var r := ScanHeader(rows, i, data);
            && (r.None? <==> exists j :: i <= j < |rows| && rows[j] == [] && forall k :: i <= k < j ==> Continues(rows[k]))
            && (r.Some? && !r.value.found ==> forall k :: i <= k < |rows| ==> Continues(rows[k]))
            && (r.Some? && r.value.found ==> forall k :: i <= k < r.value.next - 1 ==> Continues(rows[k]))
    decreases |rows| - i
  {
    if i < |rows| && rows[i] != [] && rows[i][0] != "Test" {
      var data' := if rows[i][0] != "" && |rows[i]| >= 2 && rows[i][1] != "" then data[HeaderKey(rows[i][0]) := rows[i][1]] else data;
      assert ScanHeader(rows, i, data) == ScanHeader(rows, i + 1, data');
      HeaderStops(rows, i + 1, data');
      BlankFirstStep(rows, i);
    }
  }

  /** A row the header loop reads past does not change whether a blank row comes first. */
  lemma BlankFirstStep(rows: seq<Row>, i: nat)
    requires i < |rows| && Continues(rows[i])
    ensures (exists j :: i <= j < |rows| && rows[j] == [] && forall k :: i <= k < j ==> Continues(rows[k]))
            <==> (exists j :: i + 1 <= j < |rows| && rows[j] == [] && forall k :: i + 1 <= k < j ==> Continues(rows[k]))
  {
    if exists j :: i + 1 <= j < |rows| && rows[j] == [] && forall k :: i + 1 <= k < j ==> Continues(rows[k]) {
      var j :| i + 1 <= j < |rows| && rows[j] == [] && forall k :: i + 1 <= k < j ==> Continues(rows[k]);
      assert forall k :: i <= k < j ==> Continues(rows[k]);
    }
  }

  /** The end of the rows the header loop read as entries: the `Test` row, or the end of the file. */
  function HeaderEnd(s: HeaderScan): nat {
    if s.found && s.next > 0 then s.next - 1 else s.next
  }

  /** Row `j` is an entry and no later entry before `end` has the same key, so its value is the one kept. */
  predicate LastEntry(rows: seq<Row>, j: nat, end: nat)
    requires j < end <= |rows|
  {
    IsEntry(rows[j]) && forall k :: j < k < end && IsEntry(rows[k]) ==> HeaderKey(rows[k][0]) != HeaderKey(rows[j][0])
  }

  /** Some entry row in `[i, end)` has key `key`. */
  predicate HasEntry(rows: seq<Row>, i: nat, end: nat, key: string)
    requires end <= |rows|
  {
    exists j :: i <= j < end && IsEntry(rows[j]) && HeaderKey(rows[j][0]) == key
  }

  /** An entry for `key` from row `i` on is at row `i` or after it. */
  lemma HasEntryFrom(rows: seq<Row>, i: nat, end: nat, key: string)
    requires i < end <= |rows|
    ensures HasEntry(rows, i, end, key) <==> (IsEntry(rows[i]) && HeaderKey(rows[i][0]) == key) || HasEntry(rows, i + 1, end, key)
  {
    if HasEntry(rows, i, end, key) {
      var j :| i <= j < end && IsEntry(rows[j]) && HeaderKey(rows[j][0]) == key;
      if j > i {
        assert HasEntry(rows, i + 1, end, key);
      }
    }
  }

  /** The last entry for a key has no later entry for it. */
  lemma LastEntryUnique(rows: seq<Row>, j: nat, end: nat)
    requires j < end <= |rows| && LastEntry(rows, j, end)
    ensures !HasEntry(rows, j + 1, end, HeaderKey(rows[j][0]))
  {
  }

  /** The rows after `i` that the header loop read as entries are those it reads from `i + 1` with the entry at `i` applied. */
  lemma ScanHeaderStep(rows: seq<Row>, i: nat, data: map<string, string>)
    requires i < |rows| && ScanHeader(rows, i, data).Some? && rows[i][0] != "Test"
    ensures var data' := if IsEntry(rows[i]) then data[HeaderKey(rows[i][0]) := rows[i][1]] else data;
            && ScanHeader(rows, i + 1, data') == ScanHeader(rows, i, data)
            && i < HeaderEnd(ScanHeader(rows, i, data).value)
  {
  }

  /** The patient information holds a key exactly when an entry row of the header has it, or it was there before. */
  lemma {:induction false} HeaderKeys(rows: seq<Row>, i: nat, data: map<string, string>)
    requires i <= |rows| && ScanHeader(rows, i, data).Some?
    ensures var s := ScanHeader(rows, i, data).value;
            HeaderEnd(s) <= |rows| && forall key :: key in s.data <==> key in data || HasEntry(rows, i, HeaderEnd(s), key)
    decreases |rows| - i
  {
    var s := ScanHeader(rows, i, data).value;
    var end := HeaderEnd(s);
    if i < |rows| && rows[i][0] != "Test" {
      var data' := if IsEntry(rows[i]) then data[HeaderKey(rows[i][0]) := rows[i][1]] else data;
      ScanHeaderStep(rows, i, data);
      HeaderKeys(rows, i + 1, data');
      forall k ensures k in s.data <==> k in data || HasEntry(rows, i, end, k) {
        HasEntryFrom(rows, i, end, k);
      }
    }
  }

  /** A key no entry row of the header has keeps its earlier value. */
  lemma {:induction false} HeaderKeeps(rows: seq<Row>, i: nat, data: map<string, string>)
    requires i <= |rows| && ScanHeader(rows, i, data).Some?
    ensures var s := ScanHeader(rows, i, data).value;
            HeaderEnd(s) <= |rows| && forall key :: key in data && !HasEntry(rows, i, HeaderEnd(s), key) ==> key in s.data && s.data[key] == data[key]
    decreases |rows| - i
  {
    var s := ScanHeader(rows, i, data).value;
    var end := HeaderEnd(s);
    if i < |rows| && rows[i][0] != "Test" {
      var data' := if IsEntry(rows[i]) then data[HeaderKey(rows[i][0]) := rows[i][1]] else data;
      ScanHeaderStep(rows, i, data);
      HeaderKeeps(rows, i + 1, data');
      forall k | k in data && !HasEntry(rows, i, end, k) ensures k in data' && data'[k] == data[k] && !HasEntry(rows, i + 1, end, k) {
        HasEntryFrom(rows, i, end, k);
      }
    }
  }

  /** The last entry row of the header for a key gives that key's value: a later duplicate overwrites an earlier one. */
  lemma {:induction false} HeaderLastWins(rows: seq<Row>, i: nat, data: map<string, string>)
    requires i <= |rows| && ScanHeader(rows, i, data).Some?
    ensures var s := ScanHeader(rows, i, data).value;
            && HeaderEnd(s) <= |rows|
            && forall j :: i <= j < HeaderEnd(s) && LastEntry(rows, j, HeaderEnd(s)) ==>
                 HeaderKey(rows[j][0]) in s.data && s.data[HeaderKey(rows[j][0])] == rows[j][1]
    decreases |rows| - i
  {
    var s := ScanHeader(rows, i, data).value;
    var end := HeaderEnd(s);
    if i < |rows| && rows[i][0] != "Test" {
      var data' := if IsEntry(rows[i]) then data[HeaderKey(rows[i][0]) := rows[i][1]] else data;
      ScanHeaderStep(rows, i, data);
      assert ScanHeader(rows, i + 1, data').value == s;
      HeaderLastWins(rows, i + 1, data');
      forall j | i <= j < end && LastEntry(rows, j, end)
        ensures HeaderKey(rows[j][0]) in s.data && s.data[HeaderKey(rows[j][0])] == rows[j][1]
      {
        if j == i {
          var key := HeaderKey(rows[i][0]);
          LastEntryUnique(rows, i, end);
          HeaderKeeps(rows, i + 1, data');
          assert key in data' && data'[key] == rows[i][1];
        }
      }
    }
  }

  // ---------------------------------------------------------------------------
  // The dictionary reader

  /** The last position of `name` among the column names, or -1. */
  function LastIndex(names: seq<string>, name: string): (t: int)
    ensures -1 <= t < |names|
    ensures t == -1 <==> name !in names
    ensures t >= 0 ==> names[t] == name && forall j :: t < j < |names| ==> names[j] != name
  {
    if names == [] then -1
    else if names[|names| - 1] == name then |names| - 1
    else
      var t := LastIndex(names[..|names| - 1], name);
      assert names == names[..|names| - 1] + [names[|names| - 1]];
      t
  }

  /**
   * Column `name` of a row read by `csv.DictReader` with column names `names`:
   * None when there is no such column (indexing raises), Some(None) when the
   * row is too short (the reader fills in None), else the cell. With repeated
   * names the last column wins.
   */
  function Column(names: seq<string>, row: Row, name: string): (c: Option<Option<string>>)
    ensures c.None? <==> name !in names
    ensures c == Some(None) <==> name in names && LastIndex(names, name) >= |row|
  {
    var t := LastIndex(names, name);
    if t < 0 then None else if t < |row| then Some(Some(row[t])) else Some(None)
  }

  /** A cell read under a column name is the row's cell at the last position of that name. */
  lemma ColumnCell(names: seq<string>, row: Row, name: string)
    requires Column(names, row, name).Some? && Column(names, row, name).value.Some?
    ensures var t := LastIndex(names, name);
            && 0 <= t < |row| && names[t] == name && row[t] == Column(names, row, name).value.value
            && forall j :: t < j < |names| ==> names[j] != name
  {
  }

  /** `test_row.get('Test')` as a string, with a missing column or cell read as empty. */
  function TestCell(names: seq<string>, row: Row): string {
    match Column(names, row, "Test")
    case Some(Some(test)) => test
    case _ => ""
  }

  datatype TestRecord = TestRecord(testName: string, result: Option<string>, unit: Option<string>, referenceRange: Option<string>)

  /** What the test pass does with one row: passes over it, takes a test from it, or raises a KeyError. */
  datatype RowTest = Skip | Take(test: TestRecord) | Raise

  /** One row of the test pass: kept when its `Test` cell is non-empty, which then needs the other three columns to exist. */
  function TestOfRow(names: seq<string>, row: Row): (r: RowTest)
    ensures r.Skip? <==> TestCell(names, row) == ""
    ensures r.Raise? <==> TestCell(names, row) != "" && ("Result" !in names || "Unit" !in names || "Reference Range" !in names)
    ensures r.Take? ==>
              && r.test.testName == TestCell(names, row)
              && Column(names, row, "Result") == Some(r.test.result)
              && Column(names, row, "Unit") == Some(r.test.unit)
              && Column(names, row, "Reference Range") == Some(r.test.referenceRange)
  {
    var test := TestCell(names, row);
    if test == "" then Skip
    else
      var result, unit, range := Column(names, row, "Result"), Column(names, row, "Unit"), Column(names, row, "Reference Range");
      if result.None? || unit.None? || range.None? then Raise
      else Take(TestRecord(test, result.value, unit.value, range.value))
  }

  /**
   * The tests the dictionary reader with column names `names` yields from rows
   * `lo` up to `hi`: rows without cells are passed over; None once a lookup
   * has raised.
   */
  function TestsBetween(names: seq<string>, rows: seq<Row>, lo: nat, hi: nat): (tests: Option<seq<TestRecord>>)
    requires lo <= hi <= |rows|
    ensures tests.Some? ==> |tests.value| <= hi - lo
    decreases hi
  {
    if hi == lo then Some([])
    else
      match TestsBetween(names, rows, lo, hi - 1)
      case None => None
      case Some(tests) =>
        if rows[hi - 1] == [] then Some(tests)
        else
          match TestOfRow(names, rows[hi - 1])
          case Skip => Some(tests)
          case Take(t) => Some(tests + [t])
          case Raise => None
  }

  /** Once the pass has raised, reading further rows does not bring it back. */
  lemma {:induction false} TestsBetweenRaised(names: seq<string>, rows: seq<Row>, lo: nat, mid: nat, hi: nat)
    requires lo <= mid <= hi <= |rows| && TestsBetween(names, rows, lo, mid).None?
    ensures TestsBetween(names, rows, lo, hi).None?
    decreases hi
  {
    if hi > mid {
      TestsBetweenRaised(names, rows, lo, mid, hi - 1);
    }
  }

  /** Every test read comes from a row of the pass: the test taken from that row. */
  lemma {:induction false} TestsFromRows(names: seq<string>, rows: seq<Row>, lo: nat, hi: nat)
    requires lo <= hi <= |rows| && TestsBetween(names, rows, lo, hi).Some?
    ensures forall t :: t in TestsBetween(names, rows, lo, hi).value ==>
              exists j :: lo <= j < hi && rows[j] != [] && TestOfRow(names, rows[j]) == Take(t)
    decreases hi
  {
    if hi > lo {
      TestsFromRows(names, rows, lo, hi - 1);
    }
  }

  /** The pass keeps every row with a test name: each such row adds its test. */
  lemma {:induction false} RowsGiveTests(names: seq<string>, rows: seq<Row>, lo: nat, hi: nat)
    requires lo <= hi <= |rows| && TestsBetween(names, rows, lo, hi).Some?
    ensures forall j :: lo <= j < hi && rows[j] != [] && TestCell(names, rows[j]) != "" ==>
              TestOfRow(names, rows[j]).Take? && TestOfRow(names, rows[j]).test in TestsBetween(names, rows, lo, hi).value
    decreases hi
  {
    if hi > lo {
      RowsGiveTests(names, rows, lo, hi - 1);
    }
  }

  /**
   * As the source reads the tests: a second `csv.DictReader` over the whole
   * file takes its column names from the file's first row, which is a header
   * row, not the `Test` row.
   */
  function TestsAsWritten(rows: seq<Row>): Option<seq<TestRecord>> {
    if rows == [] then Some([]) else TestsBetween(rows[0], rows, 1, |rows|)
  }

  /** The evidently intended reading: the `Test` row names the columns of the rows after it; with no `Test` row there are no tests. */
  function Tests(rows: seq<Row>, header: HeaderScan): Option<seq<TestRecord>>
    requires header.next <= |rows|
  {
    if header.found && header.next > 0 then TestsBetween(rows[header.next - 1], rows, header.next, |rows|) else Some([])
  }

  const StandardColumns: seq<string> := ["Test", "Result", "Unit", "Reference Range"]

  /** The test a row of the usual layout holds. */
  function StandardTest(row: Row): TestRecord
    requires |row| >= 4
  {
    TestRecord(row[0], Some(row[1]), Some(row[2]), Some(row[3]))
  }

  lemma StandardColumnsRead(row: Row)
    requires |row| >= 4
    ensures TestCell(StandardColumns, row) == row[0]
    ensures row[0] != "" ==> TestOfRow(StandardColumns, row) == Take(StandardTest(row))
  {
    var n := StandardColumns;
    assert n[0] == "Test" && n[1] == "Result" && n[2] == "Unit" && n[3] == "Reference Range";
    assert |n[1]| != |"Test"| && n[2][0] != "Test"[0] && |n[3]| != |"Test"|;
    assert |n[2]| != |"Result"| && |n[3]| != |"Result"|;
    assert |n[3]| != |"Unit"|;
    assert LastIndex(n, "Reference Range") == 3;
    assert LastIndex(n, "Unit") == 2;
    assert LastIndex(n, "Result") == 1;
    assert LastIndex(n, "Test") == 0;
  }

  /** The tests of a section of the usual layout: one per row with a test name, in order. */
  function StandardTests(rows: seq<Row>, lo: nat, hi: nat): seq<TestRecord>
    requires lo <= hi <= |rows|
    requires forall j :: lo <= j < hi ==> rows[j] == [] || |rows[j]| >= 4
    decreases hi
  {
    if hi == lo then []
    else if rows[hi - 1] == [] || rows[hi - 1][0] == "" then StandardTests(rows, lo, hi - 1)
    else StandardTests(rows, lo, hi - 1) + [StandardTest(rows[hi - 1])]
  }

  /** Under the usual column names every row of four or more cells with a test name becomes that test, in order, and nothing raises. */
  lemma {:induction false} StandardTestsRead(rows: seq<Row>, lo: nat, hi: nat)
    requires lo <= hi <= |rows|
    requires forall j :: lo <= j < hi ==> rows[j] == [] || |rows[j]| >= 4
    ensures TestsBetween(StandardColumns, rows, lo, hi) == Some(StandardTests(rows, lo, hi))
    decreases hi
  {
    if hi > lo {
      StandardTestsRead(rows, lo, hi - 1);
      if rows[hi - 1] != [] {
        StandardColumnsRead(rows[hi - 1]);
      }
    }
  }

  // ---------------------------------------------------------------------------
  // The remarks search

  /** The rows in `[i, j)` all have cells and none is a `Remarks` row. */
  predicate NoRemarksIn(rows: seq<Row>, i: nat, j: nat)
    requires i <= j <= |rows|
  {
    forall k :: i <= k < j ==> rows[k] != [] && rows[k][0] != "Remarks"
  }

  /**
   * `next((row[1] for row in reader if row[0] == 'Remarks'), '')` with the
   * reader at row `i`: the second cell of the first `Remarks` row, or empty
   * when the rows run out. None where a row without cells, or a `Remarks` row
   * with one cell, raises.
   */
  function RemarksFrom(rows: seq<Row>, i: nat): Option<string>
    requires i <= |rows|
    decreases |rows| - i
  {
    if i == |rows| then Some("")
    else if rows[i] == [] then None
    else if rows[i][0] == "Remarks" then (if |rows[i]| >= 2 then Some(rows[i][1]) else None)
    else RemarksFrom(rows, i + 1)
  }

  /**
   * The remarks are the second cell of the first `Remarks` row from `i` on
   * (None when that row has one cell), None when a row without cells comes
   * first, and empty when there is neither.
   */
  lemma {:induction false} RemarksFound(rows: seq<Row>, i: nat)
    requires i <= |rows|
    ensures NoRemarksIn(rows, i, |rows|) ==> RemarksFrom(rows, i) == Some("")
    ensures forall j :: i <= j < |rows| && NoRemarksIn(rows, i, j) && rows[j] != [] && rows[j][0] == "Remarks" ==>
              RemarksFrom(rows, i) == (if |rows[j]| >= 2 then Some(rows[j][1]) else None)
    ensures forall j :: i <= j < |rows| && NoRemarksIn(rows, i, j) && rows[j] == [] ==> RemarksFrom(rows, i).None?
    decreases |rows| - i
  {
    if i < |rows| && rows[i] != [] && rows[i][0] != "Remarks" {
      RemarksFound(rows, i + 1);
      assert forall j :: i + 1 <= j <= |rows| && NoRemarksIn(rows, i, j) ==> NoRemarksIn(rows, i + 1, j);
    }
  }

  // ---------------------------------------------------------------------------
  // The whole parse

  datatype Parsed = Parsed(patientInfo: map<string, string>, tests: seq<TestRecord>, remarks: string)

  /** `parse_medical_csv` with the test pass read from the `Test` row on; None where it raises. */
  function ParseCsv(rows: seq<Row>): Option<Parsed> {
    match ScanHeader(rows, 0, map[])
    case None => None
    case Some(header) =>
      match Tests(rows, header)
      case None => None
      case Some(tests) =>
        match RemarksFrom(rows, header.next)
        case None => None
        case Some(remarks) => Some(Parsed(header.data, tests, remarks))
  }

  /** `parse_medical_csv` as written, with the test pass's column names taken from the first row. */
  function ParseCsvAsWritten(rows: seq<Row>): Option<Parsed> {
    match ScanHeader(rows, 0, map[])
    case None => None
    case Some(header) =>
      match TestsAsWritten(rows)
      case None => None
      case Some(tests) =>
        match RemarksFrom(rows, header.next)
        case None => None
        case Some(remarks) => Some(Parsed(header.data, tests, remarks))
  }

  /** The header loop of `parse_medical_csv`; the scan's `next` is where it leaves the shared reader. */
  method ReadHeader(rows: seq<Row>) returns (header: Option<HeaderScan>)
    ensures header == ScanHeader(rows, 0, map[])
  {
    var data: map<string, string> := map[];
    var pos := 0;
    while pos < |rows|
      invariant pos <= |rows|
      invariant ScanHeader(rows, pos, data) == ScanHeader(rows, 0, map[])
      decreases |rows| - pos
    {
      var row := rows[pos];
      if row == [] {
        return None;
      }
      pos := pos + 1;
      if row[0] == "" {
        continue;
      }
      if row[0] == "Test" {
        return Some(HeaderScan(data, pos, true));
      }
      if |row| >= 2 && row[1] != "" {
        data := data[HeaderKey(row[0]) := row[1]];
      }
    }
    return Some(HeaderScan(data, pos, false));
  }

  /** The loop over the dictionary reader's rows from `lo` on, under column names `names`. */
  method ReadTests(names: seq<string>, rows: seq<Row>, lo: nat) returns (tests: Option<seq<TestRecord>>)
    requires lo <= |rows|
    ensures tests == TestsBetween(names, rows, lo, |rows|)
  {
    var read: seq<TestRecord> := [];
    for j := lo to |rows|
      invariant TestsBetween(names, rows, lo, j) == Some(read)
    {
      var row := rows[j];
      if row != [] {
        var step := TestOfRow(names, row);
        if step.Raise? {
          TestsBetweenRaised(names, rows, lo, j + 1, |rows|);
          return None;
        }
        if step.Take? {
          read := read + [step.test];
        }
      }
    }
    return Some(read);
  }

  /** The remarks search, going on over the shared reader from row `pos`. */
  method FindRemarks(rows: seq<Row>, pos: nat) returns (remarks: Option<string>)
    requires pos <= |rows|
    ensures remarks == RemarksFrom(rows, pos)
  {
    var k := pos;
    while k < |rows|
      invariant pos <= k <= |rows|
      invariant RemarksFrom(rows, k) == RemarksFrom(rows, pos)
      decreases |rows| - k
    {
      var row := rows[k];
      if row == [] {
        return None;
      }
      if row[0] == "Remarks" {
        if |row| < 2 {
          return None;
        }
        return Some(row[1]);
      }
      k := k + 1;
    }
    return Some("");
  }

  /**
   * `parse_medical_csv`: the header loop fills the patient information, the
   * test pass collects the tests, and the remarks search goes on from where
   * the header loop left the shared reader.
   */
  method ParseMedicalCsv(rows: seq<Row>) returns (parsed: Option<Parsed>)
    ensures parsed == ParseCsv(rows)
  {
    var header := ReadHeader(rows);
    if header.None? {
      return None;
    }
    var h := header.value;
    var tests: Option<seq<TestRecord>> := Some([]);
    if h.found && h.next > 0 {
      tests := ReadTests(rows[h.next - 1], rows, h.next);
    }
    assert tests == Tests(rows, h);
    if tests.None? {
      return None;
    }
    var remarks := FindRemarks(rows, h.next);
    if remarks.None? {
      return None;
    }
    assert ParseCsv(rows) == Some(Parsed(h.data, tests.value, remarks.value));
    return Some(Parsed(h.data, tests.value, remarks.value));
  }

  /** `parse_medical_csv` as written: the test pass reads the whole file under the first row's column names. */
  method ParseMedicalCsvAsWritten(rows: seq<Row>) returns (parsed: Option<Parsed>)
    ensures parsed == ParseCsvAsWritten(rows)
  {
    var header := ReadHeader(rows);
    if header.None? {
      return None;
    }
    var h := header.value;
    var tests: Option<seq<TestRecord>> := Some([]);
    if rows != [] {
      tests := ReadTests(rows[0], rows, 1);
    }
    assert tests == TestsAsWritten(rows);
    if tests.None? {
      return None;
    }
    var remarks := FindRemarks(rows, h.next);
    if remarks.None? {
      return None;
    }
    return Some(Parsed(h.data, tests.value, remarks.value));
  }

  /**
   * What the parse promises: a blank row met before the `Test` row raises; the
   * patient information holds exactly the keys of the header entries, each
   * with its last value; without a `Test` row there are neither tests nor
   * remarks.
   */
  lemma ParseCsvFacts(rows: seq<Row>)
    ensures (exists j :: 0 <= j < |rows| && rows[j] == [] && forall k :: 0 <= k < j ==> Continues(rows[k])) ==> ParseCsv(rows).None?
    ensures ParseCsv(rows).Some? ==>
              var h := ScanHeader(rows, 0, map[]).value;
              && HeaderEnd(h) <= |rows|
              && (forall key :: key in ParseCsv(rows).value.patientInfo <==> HasEntry(rows, 0, HeaderEnd(h), key))
              && (forall j :: 0 <= j < HeaderEnd(h) && LastEntry(rows, j, HeaderEnd(h)) ==>
                    ParseCsv(rows).value.patientInfo[HeaderKey(rows[j][0])] == rows[j][1])
    ensures ParseCsv(rows).Some? && (forall k :: 0 <= k < |rows| ==> Continues(rows[k])) ==>
              ParseCsv(rows).value.tests == [] && ParseCsv(rows).value.remarks == ""
  {
    HeaderStops(rows, 0, map[]);
    if ParseCsv(rows).Some? {
      HeaderKeys(rows, 0, map[]);
      HeaderLastWins(rows, 0, map[]);
    }
  }

  /**
   * With the usual `Test, Result, Unit, Reference Range` row and data rows of
   * four cells or none, the tests are exactly the data rows with a test name,
   * in order.
   */
  lemma ParseCsvReadsTestSection(rows: seq<Row>)
    requires ParseCsv(rows).Some?
    requires var h := ScanHeader(rows, 0, map[]).value;
             && h.found && rows[h.next - 1] == StandardColumns
             && forall j :: h.next <= j < |rows| ==> rows[j] == [] || |rows[j]| >= 4
    ensures var h := ScanHeader(rows, 0, map[]).value;
            ParseCsv(rows).value.tests == StandardTests(rows, h.next, |rows|)
  {
    var h := ScanHeader(rows, 0, map[]).value;
    StandardTestsRead(rows, h.next, |rows|);
  }

  /** A report as the usual layout writes it: the header reads the patient, the tests are missed as written and read as intended. */
  const ExampleReport: seq<Row> := [["Patient ID", "P1"], StandardColumns, ["Glucose", "5", "mmol/L", "3-6"]]

  lemma ExampleHeader()
    ensures ScanHeader(ExampleReport, 0, map[]) == Some(HeaderScan(map[HeaderKey("Patient ID") := "P1"], 2, true))
  {
    var rows := ExampleReport;
    assert |rows[0][0]| != |"Test"| && rows[0][0] != "" && rows[0][1] != "";
    assert rows[1][0] == "Test";
  }

  lemma ExampleTestsAsWritten()
    ensures TestsAsWritten(ExampleReport) == Some([])
  {
    var rows := ExampleReport;
    var first := rows[0];
    assert |first[0]| != |"Test"| && |first[1]| != |"Test"|;
    assert LastIndex(first, "Test") == -1;
    assert TestCell(first, rows[1]) == "";
    assert TestCell(first, rows[2]) == "";
    assert TestsBetween(first, rows, 1, 1) == Some([]);
    assert TestsBetween(first, rows, 1, 2) == Some([]);
  }

  lemma ExampleTests(data: map<string, string>)
    ensures Tests(ExampleReport, HeaderScan(data, 2, true)) == Some([TestRecord("Glucose", Some("5"), Some("mmol/L"), Some("3-6"))])
  {
    var rows := ExampleReport;
    assert rows[1] == StandardColumns;
    StandardColumnsRead(rows[2]);
    assert rows[2][0] != "";
    assert TestsBetween(rows[1], rows, 2, 2) == Some([]);
    var t := TestRecord("Glucose", Some("5"), Some("mmol/L"), Some("3-6"));
    assert StandardTest(rows[2]) == t;
    assert TestOfRow(rows[1], rows[2]) == Take(t);
    assert [] + [t] == [t];
    assert |rows| == 3 && rows[3 - 1] == rows[2];
    assert TestsBetween(rows[1], rows, 2, 3) == Some([t]);
  }

  lemma ExampleRemarks()
    ensures RemarksFrom(ExampleReport, 2) == Some("")
  {
    assert ExampleReport[2][0][0] != "Remarks"[0];
  }

  /** As written, the example's test row is missed. */
  lemma TestsAsWrittenMissesTests()
    ensures ParseCsvAsWritten(ExampleReport) == Some(Parsed(map[HeaderKey("Patient ID") := "P1"], [], ""))
  {
    ExampleHeader();
    ExampleTestsAsWritten();
    ExampleRemarks();
  }

  /** As intended, the example's test row is read. */
  lemma TestsReadFromTestRow()
    ensures ParseCsv(ExampleReport) == Some(Parsed(map[HeaderKey("Patient ID") := "P1"], [TestRecord("Glucose", Some("5"), Some("mmol/L"), Some("3-6"))], ""))
  {
    var data := map[HeaderKey("Patient ID") := "P1"];
    ExampleHeader();
    ExampleTests(data);
    ExampleRemarks();
  }

  // ---------------------------------------------------------------------------
  // The handler

  /** `key.split('/')[1] if '/' in key else 'unknown'`. */
  function ClinicOf(key: string): (clinic: string)
    ensures '/' !in clinic
    ensures '/' in key ==> |Split(key, '/')| >= 2 && clinic == Split(key, '/')[1]
    ensures '/' !in key ==> clinic == "unknown"
  {
    if '/' in key then
      var i := IndexOf(key, '/');
      assert Split(key, '/') == [key[..i]] + Split(key[i + 1..], '/');
      Split(key, '/')[1]
    else
      "unknown"
  }

  /** A command-line upload key `uploads/<clinic>/<file>` gives back its clinic. */
  lemma ClinicOfCliKey(clinic: string, file: string)
    requires '/' !in clinic
    ensures ClinicOf(Upload.CliKey(clinic, file)) == clinic
  {
    Upload.CliKeySegments(clinic, file);
    assert Upload.CliKey(clinic, file)[7] == '/';
  }

  /** A web upload key `public/uploads/<clinic>/<file>` gives the folder name `uploads`, not the clinic. */
  lemma ClinicOfUiKey(clinic: string, file: string)
    ensures ClinicOf(Upload.UiKey(clinic, file)) == "uploads"
  {
    var tail := clinic + ['/'] + file;
    var mid := "uploads" + ['/'] + tail;
    assert Upload.UiKey(clinic, file) == "public" + ['/'] + mid;
    SplitAfterPrefix("public", '/', mid);
    SplitAfterPrefix("uploads", '/', tail);
  }

  datatype LegacyItem = LegacyItem(
    reportId: string, clinicId: string, patientId: string, patientName: string, timestamp: string,
    s3Key: string, status: string, patientInfo: map<string, string>, testResults: seq<TestRecord>, remarks: string)

  /** The item stored for a parsed file. */
  function ItemFor(key: string, parsed: Parsed, reportId: string, timestamp: string): (item: LegacyItem)
    ensures item.clinicId == ClinicOf(key) && item.s3Key == key && item.status == "processed"
    ensures item.patientId == MapGet(parsed.patientInfo, "patient_id", "unknown")
    ensures item.patientName == MapGet(parsed.patientInfo, "patient_name", "unknown")
    ensures item.patientInfo == parsed.patientInfo && item.testResults == parsed.tests && item.remarks == parsed.remarks
  {
    LegacyItem(reportId, ClinicOf(key), MapGet(parsed.patientInfo, "patient_id", "unknown"),
               MapGet(parsed.patientInfo, "patient_name", "unknown"), timestamp, key, "processed",
               parsed.patientInfo, parsed.tests, parsed.remarks)
  }

  /** A user of the Healthcare group: its attributes as (Name, Value) pairs. */
  datatype User = User(attributes: seq<(string, string)>)

  /** The value of the user's first `email` attribute. */
  function EmailOf(u: User): (e: Option<string>)
    ensures e.None? <==> forall a :: a in u.attributes ==> a.0 != "email"
    ensures e.Some? ==> ("email", e.value) in u.attributes
    decreases |u.attributes|
  {
    if u.attributes == [] then None
    else if u.attributes[0].0 == "email" then Some(u.attributes[0].1)
    else EmailOf(User(u.attributes[1..]))
  }

  /** As written: a user with an email attribute contributes the value of its first attribute, whatever that attribute is. */
  function RecipientsAsWritten(users: seq<User>): (emails: seq<string>)
    ensures |emails| <= |users|
  {
    if users == [] then []
    else
      var u := users[|users| - 1];
      RecipientsAsWritten(users[..|users| - 1]) + (if EmailOf(u).Some? then [u.attributes[0].1] else [])
  }

  /** The evidently intended recipients: the email address of every user that has one, in order. */
  function Recipients(users: seq<User>): (emails: seq<string>)
    ensures |emails| <= |users|
    ensures forall e :: e in emails <==> exists u :: u in users && EmailOf(u) == Some(e)
  {
    if users == [] then []
    else
      var init, u := users[..|users| - 1], users[|users| - 1];
      assert users == init + [u];
      assert forall v :: v in users <==> v in init || v == u;
      Recipients(init) + (if EmailOf(u).Some? then [EmailOf(u).value] else [])
  }

  /** A user listing `sub` before `email` is notified at its `sub` value as written, and at its address as intended. */
  lemma RecipientsAsWrittenUsesFirstAttribute()
    ensures RecipientsAsWritten([User([("sub", "abc"), ("email", "a@b")])]) == ["abc"]
    ensures Recipients([User([("sub", "abc"), ("email", "a@b")])]) == ["a@b"]
  {
    var u := User([("sub", "abc"), ("email", "a@b")]);
    assert |"sub"| != |"email"|;
    assert EmailOf(User(u.attributes[1..])) == Some("a@b");
    assert [u][..0] == [];
  }

  /** Which reading of the handler: the code as written, or with its two slips corrected. */
  datatype Reading = AsWritten | Intended

  /** The parse under a reading. */
  function Parse(reading: Reading, rows: seq<Row>): (parsed: Option<Parsed>)
    ensures reading == AsWritten ==> parsed == ParseCsvAsWritten(rows)
    ensures reading == Intended ==> parsed == ParseCsv(rows)
  {
    if reading == AsWritten then ParseCsvAsWritten(rows) else ParseCsv(rows)
  }

  /** The notification recipients under a reading. */
  function Mailed(reading: Reading, users: seq<User>): (emails: seq<string>)
    ensures reading == AsWritten ==> emails == RecipientsAsWritten(users)
    ensures reading == Intended ==> emails == Recipients(users)
  {
    if reading == AsWritten then RecipientsAsWritten(users) else Recipients(users)
  }

  /** What the environment answers: the file's rows (None when it cannot be read), and whether each call succeeds. */
  /**
   * What the handler gets from its services. `users` is the answer to listing
   * the members of group `Healthcare`; None stands for that call raising after
   * the item was stored, as it does when the user pool has no group of exactly
   * that name (Cognito group names are case-sensitive).
   */
  datatype Env = Env(content: Option<seq<Row>>, putOk: bool, users: Option<seq<User>>, notifyOk: bool, confirmOk: bool)

  /** The handler's effects: the status, the item stored, who was notified, and who was sent a confirmation. */
  datatype Outcome = Outcome(status: int, stored: Option<LegacyItem>, notified: seq<string>, confirmedTo: Option<string>)

  /**
   * The handler under a reading: any exception gives 500 with the effects
   * made so far. The item is stored, the healthcare users are mailed when
   * there are any addresses, and the uploader (empty when the claims carry no
   * email) gets a confirmation.
   */
  function Expected(reading: Reading, key: string, uploader: string, reportId: string, timestamp: string, env: Env): Outcome {
    if env.content.None? then Outcome(500, None, [], None)
    else
      match Parse(reading, env.content.value)
      case None => Outcome(500, None, [], None)
      case Some(parsed) =>
        var item := ItemFor(key, parsed, reportId, timestamp);
        if !env.putOk then Outcome(500, None, [], None)
        else if env.users.None? then Outcome(500, Some(item), [], None)
        else
          var emails := Mailed(reading, env.users.value);
          if emails != [] && !env.notifyOk then Outcome(500, Some(item), [], None)
          else if uploader != "" && !env.confirmOk then Outcome(500, Some(item), emails, None)
          else Outcome(200, Some(item), emails, if uploader != "" then Some(uploader) else None)
  }

  /** The handler, step by step, under either reading. */
  method Handle(reading: Reading, key: string, uploader: string, reportId: string, timestamp: string, env: Env) returns (out: Outcome)
    ensures out == Expected(reading, key, uploader, reportId, timestamp, env)
  {
    if env.content.None? {
      return Outcome(500, None, [], None);
    }
    var parsed: Option<Parsed>;
    if reading == AsWritten {
      parsed := ParseMedicalCsvAsWritten(env.content.value);
    } else {
      parsed := ParseMedicalCsv(env.content.value);
    }
    if parsed.None? {
      return Outcome(500, None, [], None);
    }
    var item := ItemFor(key, parsed.value, reportId, timestamp);
    if !env.putOk {
      return Outcome(500, None, [], None);
    }
    if env.users.None? {
      return Outcome(500, Some(item), [], None);
    }
    var emails := Mailed(reading, env.users.value);
    if emails != [] && !env.notifyOk {
      return Outcome(500, Some(item), [], None);
    }
    if uploader != "" {
      if !env.confirmOk {
        return Outcome(500, Some(item), emails, None);
      }
      return Outcome(200, Some(item), emails, Some(uploader));
    }
    return Outcome(200, Some(item), emails, None);
  }

  /**
   * Under either reading a file is stored only when it parses, as the item
   * built from it, and a success has stored it, mailed the recipients and
   * confirmed to the uploader when there is one; only the intended reading
   * mails nothing but healthcare addresses.
   */
  lemma ExpectedStoresParsed(reading: Reading, key: string, uploader: string, reportId: string, timestamp: string, env: Env)
    ensures var out := Expected(reading, key, uploader, reportId, timestamp, env);
            && (out.status == 200 || out.status == 500)
            && (out.stored.Some? ==>
                  && env.content.Some? && Parse(reading, env.content.value).Some? && env.putOk
                  && out.stored.value == ItemFor(key, Parse(reading, env.content.value).value, reportId, timestamp))
            && (out.status == 200 ==>
                  && out.stored.Some? && env.users.Some? && out.notified == Mailed(reading, env.users.value)
                  && (uploader != "" <==> out.confirmedTo == Some(uploader)))
            && (reading == Intended ==>
                  forall e :: e in out.notified ==> env.users.Some? && exists u :: u in env.users.value && EmailOf(u) == Some(e))
  {
  }

  /** As written, a healthcare user listing `sub` before `email` is mailed at its `sub` value; as intended, at its address. */
  lemma HandlerAsWrittenMisaddresses(key: string, reportId: string, timestamp: string, rows: seq<Row>)
    requires ParseCsv(rows).Some? && ParseCsvAsWritten(rows).Some?
    ensures var env := Env(Some(rows), true, Some([User([("sub", "abc"), ("email", "a@b")])]), true, true);
            && Expected(AsWritten, key, "", reportId, timestamp, env).notified == ["abc"]
            && Expected(Intended, key, "", reportId, timestamp, env).notified == ["a@b"]
  {
    RecipientsAsWrittenUsesFirstAttribute();
  }
}
