/**
 * The analytics endpoint (lambda/analytics/handler.py): which reports a caller
 * may aggregate, the date filter, and the counting fold of
 * `generate_analytics` with the chart lists built from it.
 */
module Analytics {
  import opened Wrappers
  import opened Text
  import opened Seqs
  import opened Roles
  import opened Table

  // ---------------------------------------------------------------------------
  // What the fold reads from a stored report

  /** `report.get('patient_id', '')`. */
  function PatientOf(r: ReportItem): string {
    r.patientId.GetOr("")
  }

  /** `report.get('clinic_id', 'Unknown')`. */
  function ClinicOf(r: ReportItem): string {
    r.clinicId.GetOr("Unknown")
  }

  /** `report.get('timestamp', '')[:10]`: the date part of an ISO timestamp. */
  function DayOf(r: ReportItem): (day: string)
    ensures |day| <= 10 && |day| <= |Timestamp(r)| && day == Timestamp(r)[..|day|]
    ensures |Timestamp(r)| >= 10 ==> |day| == 10
  {
    var t := Timestamp(r);
    if |t| <= 10 then t else t[..10]
  }

  function TestsOf(r: ReportItem): seq<TestItem> {
    r.testResults.GetOr([])
  }

  /** `test.get('test_type', 'Other')`. */
  function TypeOf(t: TestItem): string {
    t.testType.GetOr("Other")
  }

  predicate IsCriticalTest(t: TestItem) {
    t.criticalFlag == Some("Y")
  }

  datatype Bucket = Normal | Abnormal | Critical

  /** The status bucket of a test: critical by its flag, else abnormal by its lower-cased status, else normal. */
  function BucketOf(t: TestItem): (b: Bucket)
    ensures b == Critical <==> IsCriticalTest(t)
  {
    if IsCriticalTest(t) then Critical
    else
      if AbnormalStatus(Lower(t.status.GetOr(""))) then Abnormal else Normal
  }

  /** The lower-cased statuses counted as abnormal. */
  predicate AbnormalStatus(status: string) {
    status in ["high", "low", "abnormal"]
  }

  predicate HasCritical(tests: seq<TestItem>) {
    exists i :: 0 <= i < |tests| && IsCriticalTest(tests[i])
  }

  // ---------------------------------------------------------------------------
  // The fold's state and one step of it

  /** `counter.get(key, 0)` for a defaultdict or Counter. */
  function Lookup(m: map<string, nat>, key: string): nat {
    if key in m then m[key] else 0
  }

  /** `counter[key] += 1`. */
  function Inc(m: map<string, nat>, key: string): map<string, nat> {
    m[key := Lookup(m, key) + 1]
  }

  /** Incrementing a key adds one to its count and leaves every other count alone. */
  lemma IncLookup(m: map<string, nat>, key: string)
    ensures Inc(m, key).Keys == m.Keys + {key}
    ensures forall k :: Lookup(Inc(m, key), k) == Lookup(m, k) + (if k == key then 1 else 0)
  {
  }

  /** The order in which keys first reached a dict: appending a key only when it is new. */
  function AddKey(order: seq<string>, key: string): seq<string> {
    if key in order then order else order + [key]
  }

  /**
   * The accumulators of `generate_analytics`: the patient and clinic sets,
   * the number of reports with a critical test, the per-day and per-clinic
   * counters, the test-type Counter with its key order, and the three status
   * counts.
   */
  datatype Tally = Tally(
    patients: set<string>, clinics: set<string>, criticalCount: nat,
    dailyReports: map<string, nat>, dailyCritical: map<string, nat>,
    typeOrder: seq<string>, typeCounts: map<string, nat>,
    clinicOrder: seq<string>, clinicReports: map<string, nat>, clinicCritical: map<string, nat>,
    normal: nat, abnormal: nat, critical: nat)

  const NoTally := Tally({}, {}, 0, map[], map[], [], map[], [], map[], map[], 0, 0, 0)

  /** The report-level part of a step: its patient, clinic and day are counted. */
  function OpenReport(t: Tally, r: ReportItem): Tally {
    var clinic := ClinicOf(r);
    t.(patients := t.patients + {PatientOf(r)}, clinics := t.clinics + {clinic},
       clinicOrder := AddKey(t.clinicOrder, clinic), clinicReports := Inc(t.clinicReports, clinic),
       dailyReports := Inc(t.dailyReports, DayOf(r)))
  }

  /**
   * One test of a report whose earlier tests already had a critical one or
   * not (`seenCritical`): its type and bucket are counted, and the first
   * critical test of the report counts the report as critical, for its
   * clinic and for its day.
   */
  function AddTest(t: Tally, test: TestItem, seenCritical: bool, clinic: string, day: string): (r: Tally)
    ensures r.patients == t.patients && r.clinics == t.clinics
    ensures r.clinicOrder == t.clinicOrder && r.clinicReports == t.clinicReports && r.dailyReports == t.dailyReports
    ensures r.typeOrder == AddKey(t.typeOrder, TypeOf(test)) && r.typeCounts == Inc(t.typeCounts, TypeOf(test))
    ensures r.critical == t.critical + (if BucketOf(test) == Critical then 1 else 0)
    ensures r.abnormal == t.abnormal + (if BucketOf(test) == Abnormal then 1 else 0)
    ensures r.normal == t.normal + (if BucketOf(test) == Normal then 1 else 0)
    ensures var first := IsCriticalTest(test) && !seenCritical;
            && r.criticalCount == t.criticalCount + (if first then 1 else 0)
            && r.clinicCritical == (if first then Inc(t.clinicCritical, clinic) else t.clinicCritical)
            && r.dailyCritical == (if first then Inc(t.dailyCritical, day) else t.dailyCritical)
  {
    var t1 := t.(typeOrder := AddKey(t.typeOrder, TypeOf(test)), typeCounts := Inc(t.typeCounts, TypeOf(test)));
    if IsCriticalTest(test) then
      var t2 := t1.(critical := t1.critical + 1);
      if seenCritical then t2
      else t2.(criticalCount := t2.criticalCount + 1, clinicCritical := Inc(t2.clinicCritical, clinic),
               dailyCritical := Inc(t2.dailyCritical, day))
    else if AbnormalStatus(Lower(test.status.GetOr(""))) then t1.(abnormal := t1.abnormal + 1)
    else t1.(normal := t1.normal + 1)
  }

  /** The tests of one report, folded in order. */
  function AddTests(t: Tally, tests: seq<TestItem>, clinic: string, day: string): (r: Tally)
    ensures r.patients == t.patients && r.clinics == t.clinics
    ensures r.clinicOrder == t.clinicOrder && r.clinicReports == t.clinicReports && r.dailyReports == t.dailyReports
  {
    if tests == [] then t
    else
      var init := tests[..|tests| - 1];
      AddTest(AddTests(t, init, clinic, day), tests[|tests| - 1], HasCritical(init), clinic, day)
  }

  function AddReport(t: Tally, r: ReportItem): Tally {
    AddTests(OpenReport(t, r), TestsOf(r), ClinicOf(r), DayOf(r))
  }

  /** The state after the reports `rs`. */
  function TallyOf(rs: seq<ReportItem>): Tally {
    if rs == [] then NoTally else AddReport(TallyOf(rs[..|rs| - 1]), rs[|rs| - 1])
  }

  // ---------------------------------------------------------------------------
  // What the counters mean

  /** The type of each test, in order. */
  function TypeSeq(tests: seq<TestItem>): (types: seq<string>)
    ensures |types| == |tests| && forall i :: 0 <= i < |tests| ==> types[i] == TypeOf(tests[i])
  {
    if tests == [] then [] else TypeSeq(tests[..|tests| - 1]) + [TypeOf(tests[|tests| - 1])]
  }

  /** The bucket of each test, in order. */
  function BucketSeq(tests: seq<TestItem>): (buckets: seq<Bucket>)
    ensures |buckets| == |tests| && forall i :: 0 <= i < |tests| ==> buckets[i] == BucketOf(tests[i])
  {
    if tests == [] then [] else BucketSeq(tests[..|tests| - 1]) + [BucketOf(tests[|tests| - 1])]
  }

  /** Counter contents: every key counts its occurrences in `s`, and absent keys count zero. */
  ghost predicate Counts(m: map<string, nat>, s: seq<string>) {
    forall k :: Lookup(m, k) == Count(s, k)
  }

  lemma CountSnoc<T(!new)>(s: seq<T>, x: T, k: T)
    ensures Count(s + [x], k) == Count(s, k) + (if x == k then 1 else 0)
  {
    assert (s + [x])[..|s|] == s;
  }

  lemma IncCounts(m: map<string, nat>, s: seq<string>, x: string)
    requires Counts(m, s)
    ensures Counts(Inc(m, x), s + [x])
  {
    IncLookup(m, x);
    forall k ensures Lookup(Inc(m, x), k) == Count(s + [x], k) {
      CountSnoc(s, x, k);
    }
  }

  lemma AddKeyDedup(s: seq<string>, x: string)
    ensures AddKey(Dedup(s), x) == Dedup(s + [x])
  {
    assert (s + [x])[..|s|] == s;
  }

  lemma HasCriticalSnoc(tests: seq<TestItem>, x: TestItem)
    ensures HasCritical(tests + [x]) <==> HasCritical(tests) || IsCriticalTest(x)
  {
    if HasCritical(tests) {
      var i :| 0 <= i < |tests| && IsCriticalTest(tests[i]);
      assert (tests + [x])[i] == tests[i];
    }
    if IsCriticalTest(x) {
      assert (tests + [x])[|tests|] == x;
    }
  }

  /** The tests of a report add their types, in order, to the type Counter and its key order. */
  lemma {:induction false} AddTestsTypes(t: Tally, tests: seq<TestItem>, clinic: string, day: string, seen: seq<string>)
    requires t.typeOrder == Dedup(seen) && Counts(t.typeCounts, seen)
    ensures AddTests(t, tests, clinic, day).typeOrder == Dedup(seen + TypeSeq(tests))
    ensures Counts(AddTests(t, tests, clinic, day).typeCounts, seen + TypeSeq(tests))
  {
    if tests == [] {
      assert seen + TypeSeq(tests) == seen;
    } else {
      var init, x := tests[..|tests| - 1], tests[|tests| - 1];
      AddTestsTypes(t, init, clinic, day, seen);
      var before := seen + TypeSeq(init);
      AddKeyDedup(before, TypeOf(x));
      IncCounts(AddTests(t, init, clinic, day).typeCounts, before, TypeOf(x));
      AppendAssoc(seen, TypeSeq(init), [TypeOf(x)]);
    }
  }

  /** The tests of a report add one to exactly one of the three status counts each. */
  lemma {:induction false} AddTestsBuckets(t: Tally, tests: seq<TestItem>, clinic: string, day: string)
    ensures AddTests(t, tests, clinic, day).normal == t.normal + Count(BucketSeq(tests), Normal)
    ensures AddTests(t, tests, clinic, day).abnormal == t.abnormal + Count(BucketSeq(tests), Abnormal)
    ensures AddTests(t, tests, clinic, day).critical == t.critical + Count(BucketSeq(tests), Critical)
  {
    if tests != [] {
      var init, x := tests[..|tests| - 1], tests[|tests| - 1];
      AddTestsBuckets(t, init, clinic, day);
      CountSnoc(BucketSeq(init), BucketOf(x), Normal);
      CountSnoc(BucketSeq(init), BucketOf(x), Abnormal);
      CountSnoc(BucketSeq(init), BucketOf(x), Critical);
    }
  }

  /** However many critical tests a report has, it is counted as critical once, for its clinic and for its day. */
  lemma {:induction false} AddTestsCritical(t: Tally, tests: seq<TestItem>, clinic: string, day: string)
    ensures CriticalAdded(t, AddTests(t, tests, clinic, day), HasCritical(tests), clinic, day)
  {
    if tests != [] {
      var init, x := tests[..|tests| - 1], tests[|tests| - 1];
      AddTestsCritical(t, init, clinic, day);
      assert tests == init + [x];
      HasCriticalSnoc(init, x);
      AddTestCritical(t, AddTests(t, init, clinic, day), x, HasCritical(init), clinic, day);
    }
  }

  /** `r` is `t` with the report counted as critical (for its clinic and day) exactly when `critical`. */
  ghost predicate CriticalAdded(t: Tally, r: Tally, critical: bool, clinic: string, day: string) {
    && r.criticalCount == t.criticalCount + (if critical then 1 else 0)
    && (forall k :: Lookup(r.clinicCritical, k) == Lookup(t.clinicCritical, k) + (if critical && k == clinic then 1 else 0))
    && (forall k :: Lookup(r.dailyCritical, k) == Lookup(t.dailyCritical, k) + (if critical && k == day then 1 else 0))
  }

  lemma AddTestCritical(t: Tally, mid: Tally, x: TestItem, seen: bool, clinic: string, day: string)
    requires CriticalAdded(t, mid, seen, clinic, day)
    ensures CriticalAdded(t, AddTest(mid, x, seen, clinic, day), seen || IsCriticalTest(x), clinic, day)
  {
    IncLookup(mid.clinicCritical, clinic);
    IncLookup(mid.dailyCritical, day);
  }

  /** The clinic of each report, in order. */
  function ClinicSeq(rs: seq<ReportItem>): (clinics: seq<string>)
    ensures |clinics| == |rs| && forall i :: 0 <= i < |rs| ==> clinics[i] == ClinicOf(rs[i])
  {
    if rs == [] then [] else ClinicSeq(rs[..|rs| - 1]) + [ClinicOf(rs[|rs| - 1])]
  }

  /** The day of each report, in order. */
  function DaySeq(rs: seq<ReportItem>): (days: seq<string>)
    ensures |days| == |rs| && forall i :: 0 <= i < |rs| ==> days[i] == DayOf(rs[i])
  {
    if rs == [] then [] else DaySeq(rs[..|rs| - 1]) + [DayOf(rs[|rs| - 1])]
  }

  /** The reports with at least one critical test, in order. */
  function CriticalReports(rs: seq<ReportItem>): (crit: seq<ReportItem>)
    ensures |crit| <= |rs|
    ensures forall r :: r in crit <==> r in rs && HasCritical(TestsOf(r))
  {
    if rs == [] then []
    else
      var init := CriticalReports(rs[..|rs| - 1]);
      var last := rs[|rs| - 1];
      assert rs == rs[..|rs| - 1] + [last];
      if HasCritical(TestsOf(last)) then init + [last] else init
  }

  /** The test types of all reports, report by report and test by test. */
  function AllTypes(rs: seq<ReportItem>): seq<string> {
    if rs == [] then [] else AllTypes(rs[..|rs| - 1]) + TypeSeq(TestsOf(rs[|rs| - 1]))
  }

  /** The number of tests of all reports. */
  function TotalTests(rs: seq<ReportItem>): nat {
    if rs == [] then 0 else TotalTests(rs[..|rs| - 1]) + |TestsOf(rs[|rs| - 1])|
  }

  /** The status buckets of all tests, report by report. */
  function AllBuckets(rs: seq<ReportItem>): (buckets: seq<Bucket>)
    ensures |buckets| == TotalTests(rs)
  {
    if rs == [] then [] else AllBuckets(rs[..|rs| - 1]) + BucketSeq(TestsOf(rs[|rs| - 1]))
  }

  lemma PrefixSnoc<T>(rs: seq<T>)
    requires rs != []
    ensures rs == rs[..|rs| - 1] + [rs[|rs| - 1]]
  {
  }

  /** One report changes the report-level fields as `OpenReport` does and the critical counters as its tests do. */
  lemma TallyStep(rs: seq<ReportItem>)
    requires rs != []
    ensures var t, x := TallyOf(rs[..|rs| - 1]), rs[|rs| - 1];
            && TallyOf(rs).patients == t.patients + {PatientOf(x)}
            && TallyOf(rs).clinics == t.clinics + {ClinicOf(x)}
            && TallyOf(rs).clinicOrder == AddKey(t.clinicOrder, ClinicOf(x))
            && TallyOf(rs).clinicReports == Inc(t.clinicReports, ClinicOf(x))
            && TallyOf(rs).dailyReports == Inc(t.dailyReports, DayOf(x))
            && CriticalAdded(t, TallyOf(rs), HasCritical(TestsOf(x)), ClinicOf(x), DayOf(x))
  {
    var t, x := TallyOf(rs[..|rs| - 1]), rs[|rs| - 1];
    AddTestsCritical(OpenReport(t, x), TestsOf(x), ClinicOf(x), DayOf(x));
  }

  /** The patient and clinic sets after a run of reports are the distinct patient and clinic ids. */
  lemma {:induction false} TallySets(rs: seq<ReportItem>)
    ensures TallyOf(rs).patients == set r | r in rs :: PatientOf(r)
    ensures TallyOf(rs).clinics == set r | r in rs :: ClinicOf(r)
  {
    if rs != [] {
      var init := rs[..|rs| - 1];
      TallySets(init);
      TallyStep(rs);
      PrefixSnoc(rs);
      ImageSnoc(init, rs[|rs| - 1], PatientOf);
      ImageSnoc(init, rs[|rs| - 1], ClinicOf);
    }
  }

  lemma ImageSnoc<T, U>(s: seq<T>, x: T, f: T -> U)
    ensures (set y | y in s + [x] :: f(y)) == (set y | y in s :: f(y)) + {f(x)}
  {
  }

  /** The clinic and day counters and the clinic key order after a run of reports. */
  lemma {:induction false} TallyPerReport(rs: seq<ReportItem>)
    ensures TallyOf(rs).clinicOrder == Dedup(ClinicSeq(rs))
    ensures Counts(TallyOf(rs).clinicReports, ClinicSeq(rs))
    ensures Counts(TallyOf(rs).dailyReports, DaySeq(rs))
  {
    if rs != [] {
      var init, x := rs[..|rs| - 1], rs[|rs| - 1];
      TallyPerReport(init);
      TallyStep(rs);
      var t := TallyOf(init);
      AddKeyDedup(ClinicSeq(init), ClinicOf(x));
      IncCounts(t.clinicReports, ClinicSeq(init), ClinicOf(x));
      IncCounts(t.dailyReports, DaySeq(init), DayOf(x));
    }
  }

  /** The critical counters after a run of reports count the reports with a critical test. */
  lemma {:induction false} TallyCritical(rs: seq<ReportItem>)
    ensures TallyOf(rs).criticalCount == |CriticalReports(rs)|
    ensures Counts(TallyOf(rs).clinicCritical, ClinicSeq(CriticalReports(rs)))
    ensures Counts(TallyOf(rs).dailyCritical, DaySeq(CriticalReports(rs)))
  {
    if rs != [] {
      var init, x := rs[..|rs| - 1], rs[|rs| - 1];
      TallyCritical(init);
      TallyStep(rs);
      var t, crit, c := TallyOf(init), CriticalReports(init), HasCritical(TestsOf(x));
      var clinics, days := ClinicSeq(crit), DaySeq(crit);
      if c {
        assert (crit + [x])[..|crit|] == crit;
        clinics, days := clinics + [ClinicOf(x)], days + [DayOf(x)];
      }
      CounterStep(t.clinicCritical, TallyOf(rs).clinicCritical, ClinicSeq(crit), c, ClinicOf(x));
      CounterStep(t.dailyCritical, TallyOf(rs).dailyCritical, DaySeq(crit), c, DayOf(x));
      assert ClinicSeq(CriticalReports(rs)) == clinics;
      assert DaySeq(CriticalReports(rs)) == days;
    }
  }

  lemma CounterStep(m: map<string, nat>, m': map<string, nat>, s: seq<string>, add: bool, key: string)
    requires Counts(m, s)
    requires forall k :: Lookup(m', k) == Lookup(m, k) + (if add && k == key then 1 else 0)
    ensures Counts(m', if add then s + [key] else s)
  {
    if add {
      forall k ensures Lookup(m', k) == Count(s + [key], k) {
        CountSnoc(s, key, k);
      }
    }
  }

  /** The type Counter after a run of reports counts every test type, keyed in order of first appearance. */
  lemma {:induction false} TallyTypes(rs: seq<ReportItem>)
    ensures TallyOf(rs).typeOrder == Dedup(AllTypes(rs))
    ensures Counts(TallyOf(rs).typeCounts, AllTypes(rs))
  {
    if rs != [] {
      var init, x := rs[..|rs| - 1], rs[|rs| - 1];
      TallyTypes(init);
      AddTestsTypes(OpenReport(TallyOf(init), x), TestsOf(x), ClinicOf(x), DayOf(x), AllTypes(init));
    }
  }

  /** The status counts after a run of reports count the tests of each bucket. */
  lemma {:induction false} TallyBuckets(rs: seq<ReportItem>)
    ensures TallyOf(rs).normal == Count(AllBuckets(rs), Normal)
    ensures TallyOf(rs).abnormal == Count(AllBuckets(rs), Abnormal)
    ensures TallyOf(rs).critical == Count(AllBuckets(rs), Critical)
  {
    if rs != [] {
      var init, x := rs[..|rs| - 1], rs[|rs| - 1];
      TallyBuckets(init);
      AddTestsBuckets(OpenReport(TallyOf(init), x), TestsOf(x), ClinicOf(x), DayOf(x));
      CountConcat(AllBuckets(init), BucketSeq(TestsOf(x)), Normal);
      CountConcat(AllBuckets(init), BucketSeq(TestsOf(x)), Abnormal);
      CountConcat(AllBuckets(init), BucketSeq(TestsOf(x)), Critical);
    }
  }

  // ---------------------------------------------------------------------------
  // The chart lists

  /** A Counter entry. */
  datatype Entry = Entry(key: string, count: nat)

  /** The Counter's items in key order. */
  function Entries(order: seq<string>, counts: map<string, nat>): (es: seq<Entry>)
    ensures |es| == |order|
    ensures forall i :: 0 <= i < |order| ==> es[i] == Entry(order[i], Lookup(counts, order[i]))
  {
    if order == [] then [] else Entries(order[..|order| - 1], counts) + [Entry(order[|order| - 1], Lookup(counts, order[|order| - 1]))]
  }

  predicate CountOrder(s: seq<Entry>) {
    forall i, j :: 0 <= i < j < |s| ==> s[j].count <= s[i].count
  }

  /** Puts `x` after every entry with a count at least its own. */
  function InsertByCount(x: Entry, s: seq<Entry>): (r: seq<Entry>)
    ensures |r| == |s| + 1
    ensures forall e :: e in r <==> e == x || e in s
  {
    if s == [] then [x]
    else if s[|s| - 1].count >= x.count then s + [x]
    else
      var r := InsertByCount(x, s[..|s| - 1]) + [s[|s| - 1]];
      assert s == s[..|s| - 1] + [s[|s| - 1]];
      r
  }

  /** `sorted(items, key=count, reverse=True)`: stable, by count descending. */
  function ByCount(s: seq<Entry>): (r: seq<Entry>)
    ensures |r| == |s|
    ensures forall e :: e in r <==> e in s
  {
    if s == [] then []
    else
      assert s == s[..|s| - 1] + [s[|s| - 1]];
      InsertByCount(s[|s| - 1], ByCount(s[..|s| - 1]))
  }

  lemma {:induction false} InsertByCountOrdered(x: Entry, s: seq<Entry>)
    requires CountOrder(s)
    ensures CountOrder(InsertByCount(x, s))
  {
    if s != [] && s[|s| - 1].count < x.count {
      var init, last := s[..|s| - 1], s[|s| - 1];
      InsertByCountOrdered(x, init);
      var r := InsertByCount(x, init);
      forall i | 0 <= i < |r| ensures last.count <= r[i].count {
        assert r[i] in r;
        if r[i] != x {
          var k :| 0 <= k < |init| && init[k] == r[i];
          assert s[k] == init[k];
        }
      }
    }
  }

  lemma {:induction false} ByCountOrdered(s: seq<Entry>)
    ensures CountOrder(ByCount(s))
  {
    if s != [] {
      ByCountOrdered(s[..|s| - 1]);
      InsertByCountOrdered(s[|s| - 1], ByCount(s[..|s| - 1]));
    }
  }

  /** Sorting by count neither duplicates nor merges entries. */
  lemma {:induction false} InsertByCountDistinct(x: Entry, s: seq<Entry>)
    requires Distinct(s) && x !in s
    ensures Distinct(InsertByCount(x, s))
  {
    if s != [] && s[|s| - 1].count < x.count {
      var init, last := s[..|s| - 1], s[|s| - 1];
      assert s == init + [last];
      InsertByCountDistinct(x, init);
      var r := InsertByCount(x, init);
      assert last !in r;
      assert InsertByCount(x, s) == r + [last];
    }
  }

  lemma {:induction false} ByCountDistinct(s: seq<Entry>)
    requires Distinct(s)
    ensures Distinct(ByCount(s))
  {
    if s != [] {
      var init, last := s[..|s| - 1], s[|s| - 1];
      assert s == init + [last];
      ByCountDistinct(init);
      assert last !in ByCount(init);
      InsertByCountDistinct(last, ByCount(init));
    }
  }

  /** A Counter's entries are distinct when its keys are. */
  lemma EntriesDistinct(order: seq<string>, counts: map<string, nat>)
    requires Distinct(order)
    ensures Distinct(Entries(order, counts))
  {
    var es := Entries(order, counts);
    forall i, j | 0 <= i < j < |es| ensures es[i] != es[j] {
      assert es[i].key == order[i] && es[j].key == order[j];
    }
  }

  /** Some entry of `es` has the key `k`. */
  predicate HasKey(es: seq<Entry>, k: string) {
    exists i :: 0 <= i < |es| && es[i].key == k
  }

  /** `Counter.most_common(n)`: the `n` largest counts, ties in key order. */
  function MostCommon(order: seq<string>, counts: map<string, nat>, n: nat): seq<Entry> {
    Take(ByCount(Entries(order, counts)), n)
  }

  const Colors: seq<string> := ["#8884d8", "#82ca9d", "#ffc658", "#ff7300", "#00ff00", "#ff0000", "#00ffff", "#ff00ff"]

  /** Ascending string order. */
  predicate Ascending(s: seq<string>) {
    forall i, j :: 0 <= i < j < |s| ==> StrLe(s[i], s[j])
  }

  function InsertAsc(x: string, s: seq<string>): (r: seq<string>)
    ensures |r| == |s| + 1
    ensures forall y :: y in r <==> y == x || y in s
  {
    if s == [] then [x]
    else if StrLe(s[|s| - 1], x) then s + [x]
    else
      var r := InsertAsc(x, s[..|s| - 1]) + [s[|s| - 1]];
      assert s == s[..|s| - 1] + [s[|s| - 1]];
      r
  }

  /** `sorted(keys)` for strings. */
  function SortAsc(s: seq<string>): (r: seq<string>)
    ensures |r| == |s|
    ensures forall y :: y in r <==> y in s
  {
    if s == [] then []
    else
      assert s == s[..|s| - 1] + [s[|s| - 1]];
      InsertAsc(s[|s| - 1], SortAsc(s[..|s| - 1]))
  }

  lemma {:induction false} InsertAscOrdered(x: string, s: seq<string>)
    requires Ascending(s)
    ensures Ascending(InsertAsc(x, s))
  {
    if s != [] {
      var init, last := s[..|s| - 1], s[|s| - 1];
      if !StrLe(last, x) {
        InsertAscOrdered(x, init);
        var r := InsertAsc(x, init);
        forall i | 0 <= i < |r| ensures StrLe(r[i], last) {
          assert r[i] in r;
          if r[i] == x {
            StrLeTotal(x, last);
          } else {
            var k :| 0 <= k < |init| && init[k] == r[i];
            assert s[k] == init[k];
          }
        }
      } else {
        forall i | 0 <= i < |s| ensures StrLe(s[i], x) {
          if i < |s| - 1 {
            StrLeTransitive(s[i], last, x);
          }
        }
      }
    }
  }

  lemma {:induction false} InsertAscDistinct(x: string, s: seq<string>)
    requires Distinct(s) && x !in s
    ensures Distinct(InsertAsc(x, s))
  {
    if s != [] && !StrLe(s[|s| - 1], x) {
      var init := s[..|s| - 1];
      assert forall i :: 0 <= i < |init| ==> init[i] == s[i];
      InsertAscDistinct(x, init);
      assert s[|s| - 1] !in init;
    }
  }

  /** `sorted` puts distinct keys in strictly ascending order. */
  lemma {:induction false} SortAscSorted(s: seq<string>)
    ensures Ascending(SortAsc(s))
    ensures Distinct(s) ==> Distinct(SortAsc(s))
  {
    if s != [] {
      var init := s[..|s| - 1];
      SortAscSorted(init);
      InsertAscOrdered(s[|s| - 1], SortAsc(init));
      if Distinct(s) {
        assert forall i :: 0 <= i < |init| ==> init[i] == s[i];
        InsertAscDistinct(s[|s| - 1], SortAsc(init));
      }
    }
  }

  // ---------------------------------------------------------------------------
  // The analytics document

  datatype Summary = Summary(totalReports: nat, totalPatients: nat, criticalResults: nat, clinicsActive: nat)
  datatype TrendPoint = TrendPoint(date: string, reports: nat, critical: nat)
  datatype TypeSlice = TypeSlice(name: string, value: nat, color: string)
  datatype ClinicRow = ClinicRow(clinic: string, reports: nat, critical: nat)
  datatype Breakdown = Breakdown(normal: nat, abnormal: nat, critical: nat)
  datatype Analytics = Analytics(summary: Summary, trends: seq<TrendPoint>, testTypes: seq<TypeSlice>,
                                 clinics: seq<ClinicRow>, status: Breakdown)

  /** The document for no reports: zero counts and empty lists. */
  const NoAnalytics := Analytics(Summary(0, 0, 0, 0), [], [], [], Breakdown(0, 0, 0))

  /** The date `days - 1 - i` days before `today`, as `strftime('%Y-%m-%d')` writes it. */
  function TrendDate(today: int, days: int, i: int, dateStr: int -> string): string {
    dateStr(today - (days - 1 - i))
  }

  /** One point per day of the range, oldest first, read from the day counters. */
  function Trends(t: Tally, days: int, today: int, dateStr: int -> string): (trends: seq<TrendPoint>)
    ensures |trends| == if days > 0 then days else 0
    ensures forall i :: 0 <= i < |trends| ==> trends[i] == TrendPoint(TrendDate(today, days, i, dateStr),
              Lookup(t.dailyReports, TrendDate(today, days, i, dateStr)), Lookup(t.dailyCritical, TrendDate(today, days, i, dateStr)))
  {
    seq(if days > 0 then days else 0, i =>
      var date := TrendDate(today, days, i, dateStr);
      TrendPoint(date, Lookup(t.dailyReports, date), Lookup(t.dailyCritical, date)))
  }

  /** The pie-chart slices: each entry with its count and the colour of its position. */
  function Slices(es: seq<Entry>): seq<TypeSlice> {
    seq(|es|, i requires 0 <= i < |es| => TypeSlice(es[i].key, es[i].count, Colors[i % |Colors|]))
  }

  /** The bar-chart rows for the clinic keys in the given order. */
  function Rows(keys: seq<string>, t: Tally): seq<ClinicRow> {
    seq(|keys|, i requires 0 <= i < |keys| => ClinicRow(keys[i], Lookup(t.clinicReports, keys[i]), Lookup(t.clinicCritical, keys[i])))
  }

  /** What `generate_analytics` returns for `rs` over a range of `days` days ending `today`. */
  function AnalyticsOf(rs: seq<ReportItem>, days: int, today: int, dateStr: int -> string): Analytics {
    if rs == [] then NoAnalytics
    else
      var t := TallyOf(rs);
      Analytics(Summary(|rs|, |t.patients|, t.criticalCount, |t.clinics|),
                Trends(t, days, today, dateStr),
                Slices(MostCommon(t.typeOrder, t.typeCounts, 8)),
                Rows(SortAsc(t.clinicOrder), t),
                Breakdown(t.normal, t.abnormal, t.critical))
  }

  /**
   * `generate_analytics`: the counting loop over the reports and their tests,
   * then the trend, test-type and clinic lists built from the counters.
   */
  method GenerateAnalytics(reports: seq<ReportItem>, days: int, today: int, dateStr: int -> string) returns (a: Analytics)
    ensures reports == [] ==> a == NoAnalytics
    ensures a == AnalyticsOf(reports, days, today, dateStr)
  {
    if reports == [] {
      return NoAnalytics;
    }
    var t := CountReports(reports);
    var trends := TrendList(t, days, today, dateStr);
    var testTypes := TypeSlices(MostCommon(t.typeOrder, t.typeCounts, 8));
    var clinicData := ClinicList(SortAsc(t.clinicOrder), t);
    a := Analytics(Summary(|reports|, |t.patients|, t.criticalCount, |t.clinics|), trends, testTypes, clinicData,
                   Breakdown(t.normal, t.abnormal, t.critical));
  }

  /** The counting loop of `generate_analytics` over the reports, with its accumulators held in one record. */
  method CountReports(reports: seq<ReportItem>) returns (tally: Tally)
    ensures tally == TallyOf(reports)
  {
    tally := NoTally;
    for i := 0 to |reports|
      invariant tally == TallyOf(reports[..i])
    {
      var report := reports[i];
      var clinic := ClinicOf(report);
      var day := DayOf(report);
      tally := tally.(patients := tally.patients + {PatientOf(report)},
                      clinics := tally.clinics + {clinic},
                      clinicOrder := AddKey(tally.clinicOrder, clinic),
                      clinicReports := Inc(tally.clinicReports, clinic),
                      dailyReports := Inc(tally.dailyReports, day));
      tally := CountTests(tally, TestsOf(report), clinic, day);
      TallyOfStep(reports, i);
    }
    assert reports[..|reports|] == reports;
  }

  /** The inner loop over one report's tests: type and status counts, and the report's first critical test. */
  method CountTests(t0: Tally, tests: seq<TestItem>, clinic: string, day: string) returns (t: Tally)
    ensures t == AddTests(t0, tests, clinic, day)
  {
    t := t0;
    var reportHasCritical := false;
    for k := 0 to |tests|
      invariant t == AddTests(t0, tests[..k], clinic, day)
      invariant reportHasCritical == HasCritical(tests[..k])
    {
      var test := tests[k];
      ghost var mid, seen := t, reportHasCritical;
      var testType := TypeOf(test);
      t := t.(typeOrder := AddKey(t.typeOrder, testType), typeCounts := Inc(t.typeCounts, testType));
      var status := Lower(test.status.GetOr(""));
      var isCritical := test.criticalFlag == Some("Y");
      if isCritical {
        t := t.(critical := t.critical + 1);
        if !reportHasCritical {
          t := t.(criticalCount := t.criticalCount + 1,
                  clinicCritical := Inc(t.clinicCritical, clinic),
                  dailyCritical := Inc(t.dailyCritical, day));
          reportHasCritical := true;
        }
      } else if AbnormalStatus(status) {
        t := t.(abnormal := t.abnormal + 1);
      } else {
        // an explicit "normal" status and any other status are both counted as normal
        t := t.(normal := t.normal + 1);
      }
      assert t == AddTest(mid, test, seen, clinic, day);
      AddTestsStep(t0, tests, k, clinic, day);
    }
    assert tests[..|tests|] == tests;
  }

  lemma AddTestsStep(t: Tally, tests: seq<TestItem>, k: nat, clinic: string, day: string)
    requires k < |tests|
    ensures AddTests(t, tests[..k + 1], clinic, day)
            == AddTest(AddTests(t, tests[..k], clinic, day), tests[k], HasCritical(tests[..k]), clinic, day)
    ensures HasCritical(tests[..k + 1]) == (HasCritical(tests[..k]) || IsCriticalTest(tests[k]))
  {
    assert tests[..k + 1][..k] == tests[..k];
    HasCriticalSnoc(tests[..k], tests[k]);
    assert tests[..k + 1] == tests[..k] + [tests[k]];
  }

  lemma TallyOfStep(rs: seq<ReportItem>, i: nat)
    requires i < |rs|
    ensures TallyOf(rs[..i + 1]) == AddReport(TallyOf(rs[..i]), rs[i])
  {
    assert rs[..i + 1][..i] == rs[..i];
  }

  /** The trend loop: one point per day of the range, oldest first. */
  method TrendList(t: Tally, days: int, today: int, dateStr: int -> string) returns (trends: seq<TrendPoint>)
    ensures trends == Trends(t, days, today, dateStr)
  {
    trends := [];
    var i := 0;
    while i < days
      invariant 0 <= i <= (if days > 0 then days else 0)
      invariant |trends| == i
      invariant forall j :: 0 <= j < i ==> trends[j] == TrendPoint(TrendDate(today, days, j, dateStr),
                  Lookup(t.dailyReports, TrendDate(today, days, j, dateStr)), Lookup(t.dailyCritical, TrendDate(today, days, j, dateStr)))
    {
      var date := TrendDate(today, days, i, dateStr);
      trends := trends + [TrendPoint(date, Lookup(t.dailyReports, date), Lookup(t.dailyCritical, date))];
      i := i + 1;
    }
    assert |trends| == |Trends(t, days, today, dateStr)|;
  }

  /** The test-type loop over `most_common(8)`, colouring each entry by its position. */
  method TypeSlices(top: seq<Entry>) returns (testTypes: seq<TypeSlice>)
    ensures testTypes == Slices(top)
  {
    testTypes := [];
    for j := 0 to |top|
      invariant |testTypes| == j
      invariant forall k :: 0 <= k < j ==> testTypes[k] == Slices(top)[k]
    {
      testTypes := testTypes + [TypeSlice(top[j].key, top[j].count, Colors[j % |Colors|])];
    }
  }

  /** The clinic loop over the sorted clinic keys. */
  method ClinicList(keys: seq<string>, t: Tally) returns (clinicData: seq<ClinicRow>)
    ensures clinicData == Rows(keys, t)
  {
    clinicData := [];
    for j := 0 to |keys|
      invariant |clinicData| == j
      invariant forall k :: 0 <= k < j ==> clinicData[k] == Rows(keys, t)[k]
    {
      var clinic := keys[j];
      clinicData := clinicData + [ClinicRow(clinic, Lookup(t.clinicReports, clinic), Lookup(t.clinicCritical, clinic))];
    }
  }

  // ---------------------------------------------------------------------------
  // What the document promises

  lemma {:induction false} BucketsCoverTests(bs: seq<Bucket>)
    ensures Count(bs, Normal) + Count(bs, Abnormal) + Count(bs, Critical) == |bs|
  {
    if bs != [] {
      var init := bs[..|bs| - 1];
      BucketsCoverTests(init);
      assert Count(bs, Normal) == Count(init, Normal) + (if bs[|bs| - 1] == Normal then 1 else 0);
      assert Count(bs, Abnormal) == Count(init, Abnormal) + (if bs[|bs| - 1] == Abnormal then 1 else 0);
      assert Count(bs, Critical) == Count(init, Critical) + (if bs[|bs| - 1] == Critical then 1 else 0);
    }
  }

  /** The summary: report count, distinct patients and clinics, and reports with a critical test, which are at most all reports. */
  lemma SummaryCounts(rs: seq<ReportItem>, days: int, today: int, dateStr: int -> string)
    requires rs != []
    ensures var summary := AnalyticsOf(rs, days, today, dateStr).summary;
            && summary.totalReports == |rs|
            && summary.totalPatients == |set r | r in rs :: PatientOf(r)|
            && summary.clinicsActive == |set r | r in rs :: ClinicOf(r)|
            && summary.criticalResults == |CriticalReports(rs)| <= summary.totalReports
  {
    TallySets(rs);
    TallyCritical(rs);
  }

  /** Every test lands in exactly one status bucket, so the breakdown adds up to the number of tests. */
  lemma StatusCoversTests(rs: seq<ReportItem>, days: int, today: int, dateStr: int -> string)
    requires rs != []
    ensures var status := AnalyticsOf(rs, days, today, dateStr).status;
            && status.normal + status.abnormal + status.critical == TotalTests(rs)
            && status.critical == Count(AllBuckets(rs), Critical)
  {
    TallyBuckets(rs);
    BucketsCoverTests(AllBuckets(rs));
  }

  /** A clinic never has more critical reports than reports. */
  lemma {:induction false} CriticalWithinClinic(rs: seq<ReportItem>, k: string)
    ensures Count(ClinicSeq(CriticalReports(rs)), k) <= Count(ClinicSeq(rs), k)
  {
    if rs != [] {
      var init, x := rs[..|rs| - 1], rs[|rs| - 1];
      CriticalWithinClinic(init, k);
      var crit := CriticalReports(init);
      if HasCritical(TestsOf(x)) {
        assert CriticalReports(rs) == crit + [x];
        CountSnoc(ClinicSeq(crit), ClinicOf(x), k);
      } else {
        assert CriticalReports(rs) == crit;
      }
      CountSnoc(ClinicSeq(init), ClinicOf(x), k);
    }
  }

  /** A day never has more critical reports than reports. */
  lemma {:induction false} CriticalWithinDay(rs: seq<ReportItem>, k: string)
    ensures Count(DaySeq(CriticalReports(rs)), k) <= Count(DaySeq(rs), k)
  {
    if rs != [] {
      var init, x := rs[..|rs| - 1], rs[|rs| - 1];
      CriticalWithinDay(init, k);
      var crit := CriticalReports(init);
      if HasCritical(TestsOf(x)) {
        assert CriticalReports(rs) == crit + [x];
        CountSnoc(DaySeq(crit), DayOf(x), k);
      } else {
        assert CriticalReports(rs) == crit;
      }
      CountSnoc(DaySeq(init), DayOf(x), k);
    }
  }

  /** Trends: one point per day of the range, each counting that day's reports and, no more than those, its critical reports. */
  lemma TrendsCountDays(rs: seq<ReportItem>, days: int, today: int, dateStr: int -> string)
    requires rs != []
    ensures var trends := AnalyticsOf(rs, days, today, dateStr).trends;
            && |trends| == (if days > 0 then days else 0)
            && forall i :: 0 <= i < |trends| ==>
                 && trends[i].date == TrendDate(today, days, i, dateStr)
                 && trends[i].reports == Count(DaySeq(rs), trends[i].date)
                 && trends[i].critical == Count(DaySeq(CriticalReports(rs)), trends[i].date)
                 && trends[i].critical <= trends[i].reports
  {
    AnalyticsTrends(rs, days, today, dateStr);
    TallyTrendsCount(rs, days, today, dateStr);
  }

  lemma AnalyticsTrends(rs: seq<ReportItem>, days: int, today: int, dateStr: int -> string)
    requires rs != []
    ensures AnalyticsOf(rs, days, today, dateStr).trends == Trends(TallyOf(rs), days, today, dateStr)
  {
  }

  lemma TallyTrendsCount(rs: seq<ReportItem>, days: int, today: int, dateStr: int -> string)
    ensures var trends := Trends(TallyOf(rs), days, today, dateStr);
            && |trends| == (if days > 0 then days else 0)
            && forall i :: 0 <= i < |trends| ==>
                 && trends[i].date == TrendDate(today, days, i, dateStr)
                 && trends[i].reports == Count(DaySeq(rs), trends[i].date)
                 && trends[i].critical == Count(DaySeq(CriticalReports(rs)), trends[i].date)
                 && trends[i].critical <= trends[i].reports
  {
    TallyPerReport(rs);
    TallyCritical(rs);
    TrendsOfCounters(TallyOf(rs), rs, days, today, dateStr);
  }

  lemma TrendsOfCounters(t: Tally, rs: seq<ReportItem>, days: int, today: int, dateStr: int -> string)
    requires Counts(t.dailyReports, DaySeq(rs)) && Counts(t.dailyCritical, DaySeq(CriticalReports(rs)))
    ensures var trends := Trends(t, days, today, dateStr);
            forall i :: 0 <= i < |trends| ==>
              && trends[i].reports == Count(DaySeq(rs), trends[i].date)
              && trends[i].critical == Count(DaySeq(CriticalReports(rs)), trends[i].date)
              && trends[i].critical <= trends[i].reports
  {
    var trends := Trends(t, days, today, dateStr);
    forall i | 0 <= i < |trends| ensures trends[i].critical <= trends[i].reports {
      CriticalWithinDay(rs, trends[i].date);
    }
  }

  /** A date formatter that keeps later days later in string order. */
  ghost predicate DatesIncrease(dateStr: int -> string) {
    forall a: int, b: int :: a < b ==> StrLe(dateStr(a), dateStr(b)) && dateStr(a) != dateStr(b)
  }

  /** With such a formatter, the trend points run from the oldest day to today. */
  lemma TrendsAscending(rs: seq<ReportItem>, days: int, today: int, dateStr: int -> string)
    requires rs != [] && DatesIncrease(dateStr)
    ensures var trends := AnalyticsOf(rs, days, today, dateStr).trends;
            && (days > 0 ==> trends[|trends| - 1].date == dateStr(today))
            && forall i, j :: 0 <= i < j < |trends| ==> StrLe(trends[i].date, trends[j].date) && trends[i].date != trends[j].date
  {
    var trends := AnalyticsOf(rs, days, today, dateStr).trends;
    forall i, j | 0 <= i < j < |trends| ensures StrLe(trends[i].date, trends[j].date) && trends[i].date != trends[j].date {
      assert today - (days - 1 - i) < today - (days - 1 - j);
    }
  }

  /** The test-type chart: at most 8 entries, largest count first, each a test type with its number of tests. */
  lemma TopTypesRanked(rs: seq<ReportItem>, days: int, today: int, dateStr: int -> string)
    requires rs != []
    ensures var slices := AnalyticsOf(rs, days, today, dateStr).testTypes;
            && |slices| == (if |Dedup(AllTypes(rs))| < 8 then |Dedup(AllTypes(rs))| else 8)
            && (forall i, j :: 0 <= i < j < |slices| ==> slices[j].value <= slices[i].value)
            && (forall i :: 0 <= i < |slices| ==>
                  slices[i].name in AllTypes(rs) && slices[i].value == Count(AllTypes(rs), slices[i].name)
                  && slices[i].color == Colors[i])
            && (forall i, j :: 0 <= i < j < |slices| ==> slices[i].name != slices[j].name)
            && (forall k, i :: k in AllTypes(rs) && !Shown(slices, k) && 0 <= i < |slices| ==>
                  Count(AllTypes(rs), k) <= slices[i].value)
  {
    TallyTypes(rs);
    SlicesOfCounter(TallyOf(rs), AllTypes(rs));
    SlicesRanked(TallyOf(rs), AllTypes(rs));
  }

  lemma SlicesOfCounter(t: Tally, types: seq<string>)
    requires t.typeOrder == Dedup(types) && Counts(t.typeCounts, types)
    ensures var slices := Slices(MostCommon(t.typeOrder, t.typeCounts, 8));
            && |slices| == (if |Dedup(types)| < 8 then |Dedup(types)| else 8)
            && (forall i, j :: 0 <= i < j < |slices| ==> slices[j].value <= slices[i].value)
            && (forall i :: 0 <= i < |slices| ==>
                  slices[i].name in types && slices[i].value == Count(types, slices[i].name)
                  && slices[i].color == Colors[i])
  {
    MostCommonEntries(t.typeOrder, t.typeCounts, 8);
    var top := MostCommon(t.typeOrder, t.typeCounts, 8);
    var slices := Slices(top);
    forall i | 0 <= i < |slices|
      ensures slices[i].name in types && slices[i].value == Count(types, slices[i].name) && slices[i].color == Colors[i]
    {
      assert slices[i] == TypeSlice(top[i].key, top[i].count, Colors[i % |Colors|]);
      assert top[i].key in t.typeOrder;
      ColorIndex(i);
    }
  }

  /** No test type is shown twice, and none left out has more tests than one shown. */
  lemma SlicesRanked(t: Tally, types: seq<string>)
    requires t.typeOrder == Dedup(types) && Counts(t.typeCounts, types)
    ensures var slices := Slices(MostCommon(t.typeOrder, t.typeCounts, 8));
            && (forall i, j :: 0 <= i < j < |slices| ==> slices[i].name != slices[j].name)
            && (forall k, i :: k in types && !Shown(slices, k) && 0 <= i < |slices| ==> Count(types, k) <= slices[i].value)
  {
    MostCommonDistinct(t.typeOrder, t.typeCounts, 8);
    MostCommonOmitted(t.typeOrder, t.typeCounts, 8);
    var top := MostCommon(t.typeOrder, t.typeCounts, 8);
    var slices := Slices(top);
    forall i, j | 0 <= i < j < |slices| ensures slices[i].name != slices[j].name {
      assert slices[i].name == top[i].key && slices[j].name == top[j].key;
    }
    forall k, i | k in types && !Shown(slices, k) && 0 <= i < |slices| ensures Count(types, k) <= slices[i].value {
      assert k in t.typeOrder;
      NotShownNotKept(top, k);
      assert slices[i].value == top[i].count;
    }
  }

  lemma NotShownNotKept(top: seq<Entry>, k: string)
    requires !Shown(Slices(top), k)
    ensures !HasKey(top, k)
  {
    var slices := Slices(top);
    forall p | 0 <= p < |top| ensures top[p].key != k {
      assert slices[p].name == top[p].key;
    }
  }

  /** Some slice is named `k`. */
  predicate Shown(slices: seq<TypeSlice>, k: string) {
    exists i :: 0 <= i < |slices| && slices[i].name == k
  }

  /** The first eight slices take the palette colours in order. */
  lemma ColorIndex(i: nat)
    requires i < 8
    ensures Colors[i % |Colors|] == Colors[i]
  {
  }

  /**
   * `most_common(n)`: at most `n` entries of the Counter, largest count first,
   * no key twice, and no key left out counting more than one kept.
   */
  lemma MostCommonEntries(order: seq<string>, counts: map<string, nat>, n: nat)
    ensures var top := MostCommon(order, counts, n);
            && |top| == (if |order| < n then |order| else n)
            && CountOrder(top)
            && (forall i :: 0 <= i < |top| ==> top[i].key in order && top[i].count == Lookup(counts, top[i].key))
            && (Distinct(order) ==> forall i, j :: 0 <= i < j < |top| ==> top[i].key != top[j].key)
            && (forall k, i :: k in order && !HasKey(top, k) && 0 <= i < |top| ==> Lookup(counts, k) <= top[i].count)
  {
    var entries := Entries(order, counts);
    var sorted := ByCount(entries);
    ByCountOrdered(entries);
    var top := MostCommon(order, counts, n);
    assert top == sorted[..|top|];
    forall i | 0 <= i < |top| ensures top[i].key in order && top[i].count == Lookup(counts, top[i].key) {
      assert top[i] in sorted;
      var k :| 0 <= k < |entries| && entries[k] == top[i];
    }
    if Distinct(order) {
      MostCommonDistinct(order, counts, n);
    }
    MostCommonOmitted(order, counts, n);
  }

  /** A Counter's most common entries never repeat a key. */
  lemma MostCommonDistinct(order: seq<string>, counts: map<string, nat>, n: nat)
    requires Distinct(order)
    ensures var top := MostCommon(order, counts, n);
            forall i, j :: 0 <= i < j < |top| ==> top[i].key != top[j].key
  {
    var entries := Entries(order, counts);
    var sorted := ByCount(entries);
    var top := MostCommon(order, counts, n);
    assert top == sorted[..|top|];
    EntriesDistinct(order, counts);
    ByCountDistinct(entries);
    forall i, j | 0 <= i < j < |top| ensures top[i].key != top[j].key {
      assert top[i] in sorted && top[j] in sorted;
      var a :| 0 <= a < |entries| && entries[a] == top[i];
      var b :| 0 <= b < |entries| && entries[b] == top[j];
      assert sorted[i] != sorted[j];
    }
  }

  /** A key the most common entries leave out counts no more than any kept one. */
  lemma MostCommonOmitted(order: seq<string>, counts: map<string, nat>, n: nat)
    ensures var top := MostCommon(order, counts, n);
            forall k, i :: k in order && !HasKey(top, k) && 0 <= i < |top| ==> Lookup(counts, k) <= top[i].count
  {
    var entries := Entries(order, counts);
    var sorted := ByCount(entries);
    ByCountOrdered(entries);
    var top := MostCommon(order, counts, n);
    assert top == sorted[..|top|];
    forall k, i | k in order && !HasKey(top, k) && 0 <= i < |top| ensures Lookup(counts, k) <= top[i].count {
      var q :| 0 <= q < |order| && order[q] == k;
      assert entries[q] == Entry(k, Lookup(counts, k));
      assert entries[q] in sorted;
      var p :| 0 <= p < |sorted| && sorted[p] == entries[q];
      assert |top| <= p;
      assert sorted[p].count <= sorted[i].count;
    }
  }

  /** The clinic chart lists every clinic once, in ascending order of its id. */
  lemma ClinicRowsSorted(rs: seq<ReportItem>, days: int, today: int, dateStr: int -> string)
    requires rs != []
    ensures var rows := AnalyticsOf(rs, days, today, dateStr).clinics;
            && (forall i, j :: 0 <= i < j < |rows| ==> StrLe(rows[i].clinic, rows[j].clinic) && rows[i].clinic != rows[j].clinic)
            && (forall c :: (exists i :: 0 <= i < |rows| && rows[i].clinic == c) <==> c in ClinicSeq(rs))
  {
    TallyPerReport(rs);
    RowsOfKeys(TallyOf(rs), ClinicSeq(rs));
  }

  lemma RowsOfKeys(t: Tally, clinics: seq<string>)
    requires t.clinicOrder == Dedup(clinics)
    ensures var rows := Rows(SortAsc(t.clinicOrder), t);
            && (forall i, j :: 0 <= i < j < |rows| ==> StrLe(rows[i].clinic, rows[j].clinic) && rows[i].clinic != rows[j].clinic)
            && (forall c :: (exists i :: 0 <= i < |rows| && rows[i].clinic == c) <==> c in clinics)
  {
    var keys := SortAsc(t.clinicOrder);
    SortAscSorted(t.clinicOrder);
    var rows := Rows(keys, t);
    forall c | c in clinics ensures exists i :: 0 <= i < |rows| && rows[i].clinic == c {
      var i :| 0 <= i < |keys| && keys[i] == c;
      assert rows[i].clinic == c;
    }
  }

  /** Each clinic row counts that clinic's reports and, no more than those, its critical reports. */
  lemma ClinicRowsCount(rs: seq<ReportItem>, days: int, today: int, dateStr: int -> string)
    requires rs != []
    ensures var rows := AnalyticsOf(rs, days, today, dateStr).clinics;
            forall i :: 0 <= i < |rows| ==>
              && rows[i].reports == Count(ClinicSeq(rs), rows[i].clinic)
              && rows[i].critical == Count(ClinicSeq(CriticalReports(rs)), rows[i].clinic)
              && rows[i].critical <= rows[i].reports
  {
    AnalyticsClinics(rs, days, today, dateStr);
    TallyRowsCount(rs);
  }

  lemma AnalyticsClinics(rs: seq<ReportItem>, days: int, today: int, dateStr: int -> string)
    requires rs != []
    ensures AnalyticsOf(rs, days, today, dateStr).clinics == Rows(SortAsc(TallyOf(rs).clinicOrder), TallyOf(rs))
  {
  }

  lemma TallyRowsCount(rs: seq<ReportItem>)
    ensures var t := TallyOf(rs);
            var rows := Rows(SortAsc(t.clinicOrder), t);
            forall i :: 0 <= i < |rows| ==>
              && rows[i].reports == Count(ClinicSeq(rs), rows[i].clinic)
              && rows[i].critical == Count(ClinicSeq(CriticalReports(rs)), rows[i].clinic)
              && rows[i].critical <= rows[i].reports
  {
    TallyPerReport(rs);
    TallyCritical(rs);
    var t := TallyOf(rs);
    RowsCount(SortAsc(t.clinicOrder), t, rs);
  }

  lemma RowsCount(keys: seq<string>, t: Tally, rs: seq<ReportItem>)
    requires Counts(t.clinicReports, ClinicSeq(rs)) && Counts(t.clinicCritical, ClinicSeq(CriticalReports(rs)))
    ensures var rows := Rows(keys, t);
            forall i :: 0 <= i < |rows| ==>
              && rows[i].reports == Count(ClinicSeq(rs), rows[i].clinic)
              && rows[i].critical == Count(ClinicSeq(CriticalReports(rs)), rows[i].clinic)
              && rows[i].critical <= rows[i].reports
  {
    var rows := Rows(keys, t);
    forall i | 0 <= i < |rows|
      ensures rows[i].reports == Count(ClinicSeq(rs), rows[i].clinic)
      ensures rows[i].critical == Count(ClinicSeq(CriticalReports(rs)), rows[i].clinic)
      ensures rows[i].critical <= rows[i].reports
    {
      RowCounts(keys, t, rs, i);
      CriticalWithinClinic(rs, keys[i]);
    }
  }

  lemma RowCounts(keys: seq<string>, t: Tally, rs: seq<ReportItem>, i: nat)
    requires Counts(t.clinicReports, ClinicSeq(rs)) && Counts(t.clinicCritical, ClinicSeq(CriticalReports(rs)))
    requires i < |keys|
    ensures Rows(keys, t)[i].clinic == keys[i]
    ensures Rows(keys, t)[i].reports == Count(ClinicSeq(rs), keys[i])
    ensures Rows(keys, t)[i].critical == Count(ClinicSeq(CriticalReports(rs)), keys[i])
  {
    assert Lookup(t.clinicReports, keys[i]) == Count(ClinicSeq(rs), keys[i]);
    assert Lookup(t.clinicCritical, keys[i]) == Count(ClinicSeq(CriticalReports(rs)), keys[i]);
  }

  /** The sum of the rows' report counts. */
  function SumReports(rows: seq<ClinicRow>): nat {
    if rows == [] then 0 else rows[0].reports + SumReports(rows[1..])
  }

  /** The occurrences in `s` of each of `keys`, added up. */
  function SumCounts(keys: seq<string>, s: seq<string>): nat {
    if keys == [] then 0 else Count(s, keys[0]) + SumCounts(keys[1..], s)
  }

  lemma {:induction false} SumCountsEmpty(keys: seq<string>)
    ensures SumCounts(keys, []) == 0
  {
    if keys != [] {
      SumCountsEmpty(keys[1..]);
    }
  }

  lemma CountFront(keys: seq<string>, x: string)
    requires keys != []
    ensures Count(keys, x) == (if keys[0] == x then 1 else 0) + Count(keys[1..], x)
  {
    assert keys == [keys[0]] + keys[1..];
    CountConcat([keys[0]], keys[1..], x);
  }

  lemma {:induction false} SumCountsSnoc(keys: seq<string>, s: seq<string>, x: string)
    ensures SumCounts(keys, s + [x]) == SumCounts(keys, s) + Count(keys, x)
  {
    if keys != [] {
      SumCountsSnoc(keys[1..], s, x);
      CountSnoc(s, x, keys[0]);
      CountFront(keys, x);
    }
  }

  lemma {:induction false} CountDistinct(keys: seq<string>, x: string)
    requires Distinct(keys) && x in keys
    ensures Count(keys, x) == 1
  {
    var init := keys[..|keys| - 1];
    if keys[|keys| - 1] == x {
      assert x !in init;
    } else {
      assert x in init;
      assert Distinct(init);
      CountDistinct(init, x);
    }
  }

  /** Counting every element of `s` under the one distinct key that matches it counts `s`. */
  lemma {:induction false} SumCountsAll(keys: seq<string>, s: seq<string>)
    requires Distinct(keys) && forall x :: x in s ==> x in keys
    ensures SumCounts(keys, s) == |s|
  {
    if s == [] {
      SumCountsEmpty(keys);
    } else {
      var init, x := s[..|s| - 1], s[|s| - 1];
      assert s == init + [x];
      SumCountsAll(keys, init);
      SumCountsSnoc(keys, init, x);
      CountDistinct(keys, x);
    }
  }

  lemma {:induction false} RowsSum(keys: seq<string>, t: Tally, s: seq<string>)
    requires Counts(t.clinicReports, s)
    ensures SumReports(Rows(keys, t)) == SumCounts(keys, s)
  {
    if keys != [] {
      RowsSum(keys[1..], t, s);
      assert Rows(keys, t)[1..] == Rows(keys[1..], t);
    }
  }

  lemma {:induction false} DistinctCard(keys: seq<string>)
    requires Distinct(keys)
    ensures |set k | k in keys| == |keys|
  {
    if keys != [] {
      var init := keys[..|keys| - 1];
      assert Distinct(init);
      DistinctCard(init);
      var last := keys[|keys| - 1];
      assert keys == init + [last];
      assert last !in init;
      var before, after := set k | k in init, set k | k in keys;
      assert after == before + {last};
      assert last !in before;
    }
  }

  /** The clinic rows account for every report exactly once, and there is one row per active clinic. */
  lemma ClinicRowsTotal(rs: seq<ReportItem>, days: int, today: int, dateStr: int -> string)
    requires rs != []
    ensures var a := AnalyticsOf(rs, days, today, dateStr);
            && SumReports(a.clinics) == a.summary.totalReports
            && |a.clinics| == a.summary.clinicsActive
  {
    TallyPerReport(rs);
    TallySets(rs);
    var t := TallyOf(rs);
    RowsTotal(t, rs);
  }

  lemma RowsTotal(t: Tally, rs: seq<ReportItem>)
    requires t.clinicOrder == Dedup(ClinicSeq(rs)) && Counts(t.clinicReports, ClinicSeq(rs))
    requires t.clinics == set r | r in rs :: ClinicOf(r)
    ensures SumReports(Rows(SortAsc(t.clinicOrder), t)) == |rs|
    ensures |Rows(SortAsc(t.clinicOrder), t)| == |t.clinics|
  {
    RowsCoverReports(t, ClinicSeq(rs));
    DistinctCard(t.clinicOrder);
    ClinicKeys(rs);
  }

  lemma RowsCoverReports(t: Tally, clinics: seq<string>)
    requires t.clinicOrder == Dedup(clinics) && Counts(t.clinicReports, clinics)
    ensures SumReports(Rows(SortAsc(t.clinicOrder), t)) == |clinics|
  {
    var keys := SortAsc(t.clinicOrder);
    SortAscSorted(t.clinicOrder);
    assert Distinct(keys);
    assert forall x :: x in clinics ==> x in keys;
    RowsSum(keys, t, clinics);
    SumCountsAll(keys, clinics);
  }

  /** The distinct clinic ids are the keys of the clinic counter. */
  lemma ClinicKeys(rs: seq<ReportItem>)
    ensures (set k | k in Dedup(ClinicSeq(rs))) == set r | r in rs :: ClinicOf(r)
  {
    var clinics := ClinicSeq(rs);
    forall c | c in clinics ensures exists r :: r in rs && ClinicOf(r) == c {
      var i :| 0 <= i < |rs| && clinics[i] == c;
      assert rs[i] in rs;
    }
    forall r | r in rs ensures ClinicOf(r) in clinics {
      var i :| 0 <= i < |rs| && rs[i] == r;
      assert clinics[i] == ClinicOf(r);
    }
  }
}
