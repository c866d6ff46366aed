/**
 * The reports table as the read endpoints see it: items whose attributes may
 * be missing, a clinic index, and reads limited to a number of items.
 */
module Table {
  import opened Wrappers

  datatype TestItem = TestItem(testType: Option<string>, status: Option<string>, criticalFlag: Option<string>)

  /** A stored report; an attribute the item lacks is None. */
  datatype ReportItem = ReportItem(
    reportId: string, patientId: Option<string>, clinicId: Option<string>,
    timestamp: Option<string>, testResults: Option<seq<TestItem>>)

  /** `item.get('timestamp', '')`. */
  function Timestamp(item: ReportItem): string {
    item.timestamp.GetOr("")
  }

  /** The items of one clinic, in table order: what the clinic index holds for it. */
  function ClinicItems(items: seq<ReportItem>, clinic: string): (r: seq<ReportItem>)
    ensures |r| <= |items|
    ensures forall x :: x in r <==> x in items && x.clinicId == Some(clinic)
  {
    if items == [] then []
    else
      var init := ClinicItems(items[..|items| - 1], clinic);
      var last := items[|items| - 1];
      assert items == items[..|items| - 1] + [last];
      if last.clinicId == Some(clinic) then init + [last] else init
  }

  /** At most the first `limit` items, as a read with `Limit=limit` returns them. */
  function Take<T>(items: seq<T>, limit: nat): (r: seq<T>)
    ensures |r| <= limit && |r| <= |items| && r == items[..|r|]
    ensures |items| <= limit ==> r == items
    ensures |items| > limit ==> |r| == limit
  {
    if |items| <= limit then items else items[..limit]
  }
}
