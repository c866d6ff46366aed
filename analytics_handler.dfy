/**
 * The analytics endpoint (lambda/analytics/handler.py, `lambda_handler`): who
 * may ask, which reports are aggregated, and the date filter in front of
 * `generate_analytics`.
 */
module AnalyticsHandler {
  import opened Wrappers
  import opened Text
  import opened Roles
  import opened Table
  import opened Analytics

  /** The reports whose timestamp string is not before `start`, in order. */
  function Since(reports: seq<ReportItem>, start: string): (kept: seq<ReportItem>)
    ensures |kept| <= |reports|
    ensures forall r :: r in kept <==> r in reports && StrLe(start, Timestamp(r))
  {
    if reports == [] then []
    else
      var init, last := reports[..|reports| - 1], reports[|reports| - 1];
      assert reports == init + [last];
      if StrLe(start, Timestamp(last)) then Since(init, start) + [last] else Since(init, start)
  }

  /** The date filter loop: a report is kept when its timestamp compares `>=` the start date as a string. */
  method FilterSince(reports: seq<ReportItem>, start: string) returns (filtered: seq<ReportItem>)
    ensures filtered == Since(reports, start)
  {
    filtered := [];
    for i := 0 to |reports|
      invariant filtered == Since(reports[..i], start)
    {
      if StrLe(start, Timestamp(reports[i])) {
        filtered := filtered + [reports[i]];
      }
      assert reports[..i + 1][..i] == reports[..i];
    }
    assert reports[..|reports|] == reports;
  }

  const DefaultDays := 30

  datatype Metadata = Metadata(userRole: Option<string>, userClinic: Option<string>, timeRangeDays: int, totalReportsInRange: nat)

  datatype Response = Response(status: int, analytics: Option<Analytics>, metadata: Option<Metadata>)

  function Refused(status: int): Response {
    Response(status, None, None)
  }

  /**
   * Days are counted as proleptic Gregorian ordinals, 0001-01-01 being day 1;
   * a `datetime` exists from the first day of year 1 to the last of year 9999.
   */
  const FirstDay := 1
  const LastDay := 3652059

  /** `now - timedelta(days=days)` is a date; otherwise it raises `OverflowError`. */
  predicate Representable(day: int) {
    FirstDay <= day <= LastDay
  }

  /** The first day of the range, `now - timedelta(days=days)` written as `%Y-%m-%d`. */
  function StartDate(today: int, days: int, dateStr: int -> string): string {
    dateStr(today - days)
  }

  /** The reports a role may aggregate: all of them for healthcare and admin, its own clinic's for a lab user with a clinic. */
  function Scope(role: Option<string>, clinic: string, items: seq<ReportItem>): Option<seq<ReportItem>> {
    if role == Some("healthcare") || role == Some("admin") then Some(items)
    else if role == Some("lab") && clinic != "" then Some(ClinicItems(items, clinic))
    else None
  }

  /**
   * What the handler answers: claims are required (401); `timeRange` is read
   * before the role is checked (500 when `int()` fails); healthcare and admin
   * users aggregate every report, lab users those of their own clinic (400
   * without one), and any other role gets 403. A start date outside the
   * calendar raises before the role is checked (500). The day `today` and the
   * formatter `dateStr` stand for the clock.
   */
  function Expected(claims: Claims, params: map<string, string>, items: seq<ReportItem>, today: int, dateStr: int -> string): Response {
    if claims == map[] then Refused(401)
    else
      var role := PrimaryRole(Groups(claims), Claim(claims, "custom:role"));
      var clinic := Claim(claims, "custom:clinic_id");
      match IntParam(params, "timeRange", DefaultDays)
      case None => Refused(500)
      case Some(days) =>
        if !Representable(today - days) then Refused(500)
        else
        match Scope(role, clinic, items)
        case None => if role == Some("lab") then Refused(400) else Refused(403)
        case Some(reports) =>
          var inRange := Since(reports, StartDate(today, days, dateStr));
          Response(200, Some(AnalyticsOf(inRange, days, today, dateStr)),
                   Some(Metadata(role, if role == Some("lab") then Some(clinic) else None, days, |inRange|)))
  }

  /** The handler, step by step as the source takes them. */
  method Handle(claims: Claims, params: map<string, string>, items: seq<ReportItem>, today: int, dateStr: int -> string)
    returns (r: Response)
    ensures r == Expected(claims, params, items, today, dateStr)
  {
    if claims == map[] {
      return Refused(401);
    }
    var userClinic := Claim(claims, "custom:clinic_id");
    var role := ResolvePrimaryRole(claims);
    var timeRange := IntParam(params, "timeRange", DefaultDays);
    if timeRange.None? {
      return Refused(500);
    }
    var days := timeRange.value;
    if !Representable(today - days) {
      return Refused(500);
    }
    var start := StartDate(today, days, dateStr);
    var reports: seq<ReportItem>;
    if role == Some("healthcare") || role == Some("admin") {
      reports := items;
    } else if role == Some("lab") {
      if userClinic == "" {
        return Refused(400);
      }
      reports := ClinicItems(items, userClinic);
    } else {
      return Refused(403);
    }
    assert Scope(role, userClinic, items) == Some(reports);
    var filtered := FilterSince(reports, start);
    var analytics := GenerateAnalytics(filtered, days, today, dateStr);
    var metadata := Metadata(role, if role == Some("lab") then Some(userClinic) else None, days, |filtered|);
    r := Response(200, Some(analytics), Some(metadata));
  }

  /** A range reaching back before year 1 is refused with 500, whoever asks: a million days from 2026-10-15 is one. */
  lemma MillionDaysRefused(claims: Claims, items: seq<ReportItem>, dateStr: int -> string)
    requires claims != map[]
    ensures Expected(claims, map["timeRange" := ShowInt(1000000)], items, 739904, dateStr).status == 500
  {
    ParseIntShowInt(1000000);
  }

  /** The status ladder: which request gets which status code. */
  lemma ExpectedStatus(claims: Claims, params: map<string, string>, items: seq<ReportItem>, today: int, dateStr: int -> string)
    ensures var r := Expected(claims, params, items, today, dateStr);
            var role := PrimaryRole(Groups(claims), Claim(claims, "custom:role"));
            var clinic := Claim(claims, "custom:clinic_id");
            var days := IntParam(params, "timeRange", DefaultDays);
            && (claims == map[] ==> r.status == 401)
            && (claims != map[] && days.None? ==> r.status == 500)
            && (claims != map[] && days.Some? && !Representable(today - days.value) ==> r.status == 500)
            && ((claims != map[] && days.Some? && Representable(today - days.value)
                 && role == Some("lab") && clinic == "") ==> r.status == 400)
            && ((claims != map[] && days.Some? && Representable(today - days.value)
                 && role != Some("healthcare") && role != Some("admin") && role != Some("lab")) ==> r.status == 403)
            && (r.status == 200 <==>
                  claims != map[] && days.Some? && Representable(today - days.value) && Scope(role, clinic, items).Some?)
            && (r.status != 200 ==> r.analytics.None? && r.metadata.None?)
  {
  }

  /**
   * A successful answer counts exactly the reports of the caller's scope dated
   * on or after the start day, and its metadata agrees with its summary.
   */
  lemma ExpectedCountsInRange(claims: Claims, params: map<string, string>, items: seq<ReportItem>, today: int, dateStr: int -> string)
    requires Expected(claims, params, items, today, dateStr).status == 200
    ensures var r := Expected(claims, params, items, today, dateStr);
            var role := PrimaryRole(Groups(claims), Claim(claims, "custom:role"));
            var clinic := Claim(claims, "custom:clinic_id");
            var days := IntParam(params, "timeRange", DefaultDays).value;
            var inRange := Since(Scope(role, clinic, items).value, StartDate(today, days, dateStr));
            && r.analytics == Some(AnalyticsOf(inRange, days, today, dateStr))
            && r.metadata.value.totalReportsInRange == r.analytics.value.summary.totalReports == |inRange|
            && r.metadata.value.timeRangeDays == days
            && (forall x :: x in inRange ==> x in items && StrLe(StartDate(today, days, dateStr), Timestamp(x)))
  {
    var role := PrimaryRole(Groups(claims), Claim(claims, "custom:role"));
    var clinic := Claim(claims, "custom:clinic_id");
    var days := IntParam(params, "timeRange", DefaultDays).value;
    var inRange := Since(Scope(role, clinic, items).value, StartDate(today, days, dateStr));
    if inRange != [] {
      SummaryCounts(inRange, days, today, dateStr);
    }
  }

  /** Healthcare and admin users aggregate every report in the date range, whatever its clinic. */
  lemma StaffSeeAllClinics(claims: Claims, params: map<string, string>, items: seq<ReportItem>, today: int, dateStr: int -> string)
    requires claims != map[] && IntParam(params, "timeRange", DefaultDays).Some?
    requires Representable(today - IntParam(params, "timeRange", DefaultDays).value)
    requires var role := PrimaryRole(Groups(claims), Claim(claims, "custom:role"));
             role == Some("healthcare") || role == Some("admin")
    ensures var r := Expected(claims, params, items, today, dateStr);
            var days := IntParam(params, "timeRange", DefaultDays).value;
            var inRange := Since(items, StartDate(today, days, dateStr));
            && r.status == 200
            && r.analytics == Some(AnalyticsOf(inRange, days, today, dateStr))
            && r.metadata.value.userClinic.None?
            && (forall x :: x in inRange <==> x in items && StrLe(StartDate(today, days, dateStr), Timestamp(x)))
  {
    var role := PrimaryRole(Groups(claims), Claim(claims, "custom:role"));
    assert Scope(role, Claim(claims, "custom:clinic_id"), items) == Some(items);
  }

  /** A lab user's analytics are computed from its own clinic's reports only. */
  lemma LabSeesOwnClinic(claims: Claims, params: map<string, string>, items: seq<ReportItem>, today: int, dateStr: int -> string)
    requires claims != map[] && IntParam(params, "timeRange", DefaultDays).Some?
    requires Representable(today - IntParam(params, "timeRange", DefaultDays).value)
    requires PrimaryRole(Groups(claims), Claim(claims, "custom:role")) == Some("lab")
    requires Claim(claims, "custom:clinic_id") != ""
    ensures var r := Expected(claims, params, items, today, dateStr);
            var clinic := Claim(claims, "custom:clinic_id");
            var days := IntParam(params, "timeRange", DefaultDays).value;
            var inRange := Since(ClinicItems(items, clinic), StartDate(today, days, dateStr));
            && r.status == 200
            && r.analytics == Some(AnalyticsOf(inRange, days, today, dateStr))
            && r.metadata.value.userClinic == Some(clinic)
            && (forall x :: x in inRange <==> x in items && x.clinicId == Some(clinic) && StrLe(StartDate(today, days, dateStr), Timestamp(x)))
  {
  }
}
