/**
 * The report listing endpoint (lambda/get_reports/handler.py): which reports a
 * caller may see, and the newest-first order of a full listing.
 */
module Reports {
  import opened Wrappers
  import opened Text
  import opened Roles
  import opened Table
  import opened Seqs

  // ---------------------------------------------------------------------------
  // Newest first: `list.sort(key=timestamp, reverse=True)`, which is stable

  /** Item `x` may come before item `y`: its timestamp is not older. */
  predicate NotOlder(x: ReportItem, y: ReportItem) {
    StrLe(Timestamp(y), Timestamp(x))
  }

  predicate NewestFirstOrder(s: seq<ReportItem>) {
    forall i, j :: 0 <= i < j < |s| ==> NotOlder(s[i], s[j])
  }

  /** Puts `x` into a newest-first list after every item that is not older than it. */
  function Insert(x: ReportItem, s: seq<ReportItem>): (r: seq<ReportItem>)
    ensures |r| == |s| + 1
  {
    if s == [] then [x]
    else if NotOlder(s[|s| - 1], x) then s + [x]
    else Insert(x, s[..|s| - 1]) + [s[|s| - 1]]
  }

  /** The stable newest-first order of `s`. */
  function NewestFirst(s: seq<ReportItem>): (r: seq<ReportItem>)
    ensures |r| == |s|
  {
    if s == [] then [] else Insert(s[|s| - 1], NewestFirst(s[..|s| - 1]))
  }

  lemma {:induction false} InsertPermutes(x: ReportItem, s: seq<ReportItem>)
    ensures multiset(Insert(x, s)) == multiset(s) + multiset{x}
  {
    if s != [] {
      var init, last := s[..|s| - 1], s[|s| - 1];
      assert s == init + [last];
      if !NotOlder(last, x) {
        InsertPermutes(x, init);
      }
    }
  }

  lemma {:induction false} InsertKeepsOrder(x: ReportItem, s: seq<ReportItem>)
    requires NewestFirstOrder(s)
    ensures NewestFirstOrder(Insert(x, s))
  {
    if s != [] {
      var init, last := s[..|s| - 1], s[|s| - 1];
      if !NotOlder(last, x) {
        assert NewestFirstOrder(init) by {
          forall i, j | 0 <= i < j < |init| ensures NotOlder(init[i], init[j]) {
            assert init[i] == s[i] && init[j] == s[j];
          }
        }
        InsertKeepsOrder(x, init);
        InsertPermutes(x, init);
        var r := Insert(x, init);
        forall i | 0 <= i < |r| ensures NotOlder(r[i], last) {
          assert r[i] in multiset(r);
          if r[i] == x {
            StrLeTotal(Timestamp(last), Timestamp(x));
          } else {
            assert r[i] in multiset(init);
            var k :| 0 <= k < |init| && init[k] == r[i];
            assert NotOlder(s[k], s[|s| - 1]);
          }
        }
        assert Insert(x, s) == r + [last];
      } else {
        forall i | 0 <= i < |s| ensures NotOlder(s[i], x) {
          if i < |s| - 1 {
            StrLeTransitive(Timestamp(x), Timestamp(last), Timestamp(s[i]));
          }
        }
        assert Insert(x, s) == s + [x];
      }
    }
  }

  /** The listing is newest first and holds exactly the items read. */
  lemma {:induction false} NewestFirstSortsAndPermutes(s: seq<ReportItem>)
    ensures NewestFirstOrder(NewestFirst(s))
    ensures multiset(NewestFirst(s)) == multiset(s)
  {
    if s != [] {
      var init := s[..|s| - 1];
      NewestFirstSortsAndPermutes(init);
      InsertKeepsOrder(s[|s| - 1], NewestFirst(init));
      InsertPermutes(s[|s| - 1], NewestFirst(init));
      assert s == init + [s[|s| - 1]];
    }
  }

  /** A list that is already newest first is left as it is; in particular items with equal timestamps keep their order. */
  lemma {:induction false} NewestFirstOfOrdered(s: seq<ReportItem>)
    requires NewestFirstOrder(s)
    ensures NewestFirst(s) == s
  {
    if s != [] {
      var init := s[..|s| - 1];
      NewestFirstOfOrdered(init);
      if init != [] {
        assert NotOlder(init[|init| - 1], s[|s| - 1]);
      }
    }
  }

  /** The items of `s` whose timestamp is `t`, in their order in `s`. */
  function WithStamp(s: seq<ReportItem>, t: string): (r: seq<ReportItem>)
    ensures |r| <= |s|
    ensures forall i :: 0 <= i < |r| ==> Timestamp(r[i]) == t && r[i] in s
  {
    if s == [] then []
    else WithStamp(s[..|s| - 1], t) + (if Timestamp(s[|s| - 1]) == t then [s[|s| - 1]] else [])
  }

  lemma {:induction false} WithStampConcat(a: seq<ReportItem>, b: seq<ReportItem>, t: string)
    ensures WithStamp(a + b, t) == WithStamp(a, t) + WithStamp(b, t)
  {
    if b == [] {
      assert a + b == a;
    } else {
      var init := b[..|b| - 1];
      assert (a + b)[..|a + b| - 1] == a + init;
      WithStampConcat(a, init, t);
    }
  }

  /** Inserting `x` puts it after every item of its own timestamp and leaves their order alone. */
  lemma {:induction false} InsertStable(x: ReportItem, s: seq<ReportItem>, t: string)
    ensures WithStamp(Insert(x, s), t) == WithStamp(s, t) + WithStamp([x], t)
  {
    if s == [] {
      assert WithStamp([x], t) == WithStamp([], t) + WithStamp([x], t);
    } else {
      var init, last := s[..|s| - 1], s[|s| - 1];
      assert s == init + [last];
      if NotOlder(last, x) {
        WithStampConcat(s, [x], t);
      } else {
        InsertStable(x, init, t);
        PassedStamps(x, last, t);
        WithStampConcat(Insert(x, init), [last], t);
        WithStampConcat(init, [last], t);
      }
    }
  }

  /** An item that `x` is inserted before is strictly older, so it never shares a timestamp with `x`. */
  lemma PassedStamps(x: ReportItem, last: ReportItem, t: string)
    requires !NotOlder(last, x)
    ensures WithStamp([x], t) == [] || WithStamp([last], t) == []
  {
    StrLeTotal(Timestamp(x), Timestamp(x));
    assert WithStamp([x], t) == (if Timestamp(x) == t then [x] else []);
    assert WithStamp([last], t) == (if Timestamp(last) == t then [last] else []);
  }

  /** A one-item list keeps its item exactly when the item has that timestamp. */
  lemma WithStampOne(x: ReportItem, t: string)
    ensures WithStamp([x], t) == if Timestamp(x) == t then [x] else []
  {
    assert [x][..0] == [];
  }

  /** The sort is stable: the items of any one timestamp keep their input order. */
  lemma {:induction false} NewestFirstStable(s: seq<ReportItem>, t: string)
    ensures WithStamp(NewestFirst(s), t) == WithStamp(s, t)
  {
    if s != [] {
      var init := s[..|s| - 1];
      NewestFirstStable(init, t);
      InsertStable(s[|s| - 1], NewestFirst(init), t);
      assert s == init + [s[|s| - 1]];
      WithStampConcat(init, [s[|s| - 1]], t);
    }
  }

  lemma InsertStep(x: ReportItem, s: seq<ReportItem>, j: nat)
    requires 0 < j <= |s| && !NotOlder(s[j - 1], x)
    ensures Insert(x, s[..j]) == Insert(x, s[..j - 1]) + [s[j - 1]]
  {
    assert s[..j][..j - 1] == s[..j - 1];
  }

  lemma InsertStop(x: ReportItem, s: seq<ReportItem>, j: nat)
    requires j <= |s| && (j == 0 || NotOlder(s[j - 1], x))
    ensures Insert(x, s[..j]) == s[..j] + [x]
  {
  }

  /** One shift of the inner loop moves the insertion point one place to the left. */
  lemma ShiftStep(x: ReportItem, s: seq<ReportItem>, j: nat)
    requires 0 < j <= |s| && !NotOlder(s[j - 1], x)
    ensures Insert(x, s[..j]) + s[j..] == Insert(x, s[..j - 1]) + s[j - 1..]
  {
    InsertStep(x, s, j);
    assert s[j - 1..] == [s[j - 1]] + s[j..];
    AppendAssoc(Insert(x, s[..j - 1]), [s[j - 1]], s[j..]);
  }

  /** The array prefix after placing `x` at `j`. */
  lemma Placed(b: seq<ReportItem>, s: seq<ReportItem>, x: ReportItem, j: nat)
    requires |b| == |s| + 1 && j <= |s| && b[j] == x
    requires forall k :: 0 <= k < j ==> b[k] == s[k]
    requires forall k :: j < k <= |s| ==> b[k] == s[k - 1]
    ensures b == s[..j] + [x] + s[j..]
  {
  }

  /** Moves `a[i]` left past the older items before it, into its place in the newest-first prefix `a[..i]`. */
  method InsertAt(a: array<ReportItem>, i: nat)
    requires i < a.Length
    modifies a
    ensures a[..i + 1] == Insert(old(a[i]), old(a[..i]))
    ensures forall k :: i < k < a.Length ==> a[k] == old(a[k])
  {
    ghost var sorted := a[..i];
    var x := a[i];
    var j := i;
    assert sorted[..j] == sorted && sorted[j..] == [];
    while j > 0 && !NotOlder(a[j - 1], x)
      invariant 0 <= j <= i
      invariant forall k :: 0 <= k < j ==> a[k] == sorted[k]
      invariant forall k :: j < k <= i ==> a[k] == sorted[k - 1]
      invariant forall k :: i < k < a.Length ==> a[k] == old(a[k])
      invariant Insert(x, sorted) == Insert(x, sorted[..j]) + sorted[j..]
    {
      ShiftStep(x, sorted, j);
      a[j] := a[j - 1];
      j := j - 1;
    }
    InsertStop(x, sorted, j);
    a[j] := x;
    Placed(a[..i + 1], sorted, x, j);
  }

  /** `reports.sort(key=lambda x: x.get('timestamp', ''), reverse=True)`, in place. */
  method SortNewestFirst(a: array<ReportItem>)
    modifies a
    ensures a[..] == NewestFirst(old(a[..]))
  {
    ghost var input := a[..];
    for i := 0 to a.Length
      invariant a[..i] == NewestFirst(input[..i])
      invariant forall k :: i <= k < a.Length ==> a[k] == input[k]
    {
      InsertAt(a, i);
      assert input[..i + 1][..i] == input[..i];
    }
    assert input[..a.Length] == input;
  }

  // ---------------------------------------------------------------------------
  // The handler

  datatype Outcome = Outcome(status: int, reports: seq<ReportItem>)

  const DefaultLimit := 100

  /** A clinic's newest `limit` reports, as the clinic index returns them. */
  function QueryClinic(items: seq<ReportItem>, clinic: string, limit: nat): seq<ReportItem> {
    Take(NewestFirst(ClinicItems(items, clinic)), limit)
  }

  /** A clinic query returns reports of that clinic only. */
  lemma QueryClinicScoped(items: seq<ReportItem>, clinic: string, limit: nat)
    ensures forall x :: x in QueryClinic(items, clinic, limit) ==> x in items && x.clinicId == Some(clinic)
  {
    var sorted := NewestFirst(ClinicItems(items, clinic));
    NewestFirstSortsAndPermutes(ClinicItems(items, clinic));
    forall x | x in QueryClinic(items, clinic, limit) ensures x in items && x.clinicId == Some(clinic) {
      assert x in sorted;
      assert x in multiset(sorted);
    }
  }

  /** A read limit below one is refused by the table, which the handler reports as 500. */
  predicate ValidLimit(limit: int) {
    limit >= 1
  }

  /** Claims that reach a query: a healthcare or admin user, or a lab user with a clinic. */
  predicate Admitted(claims: Claims) {
    var role := PrimaryRole(Groups(claims), Claim(claims, "custom:role"));
    && claims != map[]
    && (role == Some("healthcare") || role == Some("admin")
        || (role == Some("lab") && Claim(claims, "custom:clinic_id") != ""))
  }

  /**
   * The handler: claims are required (401); the limit is read before the role
   * is checked (500 when it is not an integer); healthcare and admin users see
   * all clinics or the one they filter on, lab users only their own clinic
   * (400 when they have none), and any other role gets 403.
   */
  method GetReports(claims: Claims, params: map<string, string>, items: seq<ReportItem>) returns (out: Outcome)
    ensures claims == map[] ==> out.status == 401
    ensures out.status == 200 <==>
              Admitted(claims) && IntParam(params, "limit", DefaultLimit).Some?
              && ValidLimit(IntParam(params, "limit", DefaultLimit).value)
    ensures (Admitted(claims) && IntParam(params, "limit", DefaultLimit).Some?
             && !ValidLimit(IntParam(params, "limit", DefaultLimit).value)) ==> out.status == 500
    ensures claims != map[] && IntParam(params, "limit", DefaultLimit).None? ==> out.status == 500
    ensures out.status == 200 ==>
              var role := PrimaryRole(Groups(claims), Claim(claims, "custom:role"));
              var limit := IntParam(params, "limit", DefaultLimit);
              && limit.Some? && ValidLimit(limit.value)
              && (role == Some("healthcare") || role == Some("admin") || role == Some("lab"))
              && (role == Some("lab") ==>
                    Claim(claims, "custom:clinic_id") != ""
                    && out.reports == QueryClinic(items, Claim(claims, "custom:clinic_id"), limit.value))
              && (role != Some("lab") && Claim(params, "clinic_id") != "" ==>
                    out.reports == QueryClinic(items, Claim(params, "clinic_id"), limit.value))
              && (role != Some("lab") && Claim(params, "clinic_id") == "" ==>
                    out.reports == NewestFirst(Take(items, limit.value)))
    ensures claims != map[] && IntParam(params, "limit", DefaultLimit).Some? ==>
              var role := PrimaryRole(Groups(claims), Claim(claims, "custom:role"));
              && (role == Some("lab") && Claim(claims, "custom:clinic_id") == "" ==> out.status == 400)
              && (role != Some("healthcare") && role != Some("admin") && role != Some("lab") ==> out.status == 403)
  {
    if claims == map[] {
      return Outcome(401, []);
    }
    var role := ResolvePrimaryRole(claims);
    var userClinic := Claim(claims, "custom:clinic_id");
    var limit := IntParam(params, "limit", DefaultLimit);
    if limit.None? {
      return Outcome(500, []);
    }
    var clinicFilter := Claim(params, "clinic_id");
    if role == Some("healthcare") || role == Some("admin") {
      if !ValidLimit(limit.value) {
        return Outcome(500, []);
      }
      if clinicFilter != "" {
        return Outcome(200, QueryClinic(items, clinicFilter, limit.value));
      }
      var scanned := Take(items, limit.value);
      var a := new ReportItem[|scanned|](i requires 0 <= i < |scanned| => scanned[i]);
      assert a[..] == scanned;
      SortNewestFirst(a);
      return Outcome(200, a[..]);
    } else if role == Some("lab") {
      if userClinic == "" {
        return Outcome(400, []);
      }
      if !ValidLimit(limit.value) {
        return Outcome(500, []);
      }
      return Outcome(200, QueryClinic(items, userClinic, limit.value));
    } else {
      return Outcome(403, []);
    }
  }
}
