/**
 * Who is calling: the primary role that the reports and analytics endpoints
 * derive from the Cognito claims (lambda/analytics/handler.py and
 * lambda/get_reports/handler.py share the rule), and Python's `int()` on the
 * numeric query parameters.
 */
module Roles {
  import opened Wrappers
  import opened Text

  /** The authorizer's claims, by name. */
  type Claims = map<string, string>

  /** `claims.get(name, '')`. */
  function Claim(claims: Claims, name: string): string {
    if name in claims then claims[name] else ""
  }

  /** The `cognito:groups` claim split on commas, without trimming; no groups when it is absent or empty. */
  function Groups(claims: Claims): (groups: seq<string>)
    ensures Claim(claims, "cognito:groups") == "" ==> groups == []
    ensures Claim(claims, "cognito:groups") != "" ==> Join(groups, ",") == claims["cognito:groups"]
    ensures forall i :: 0 <= i < |groups| ==> ',' !in groups[i]
  {
    var raw := Claim(claims, "cognito:groups");
    if raw != "" then
      JoinSplit(raw, ',');
      Split(raw, ',')
    else []
  }

  const RolePriority: seq<string> := ["admin", "healthcare", "lab"]

  /** The first role of `priority` that is one of `groups`. */
  function FirstListed(priority: seq<string>, groups: seq<string>): (r: Option<string>)
    ensures r.None? <==> forall i :: 0 <= i < |priority| ==> priority[i] !in groups
    ensures r.Some? ==> exists i :: 0 <= i < |priority| && priority[i] == r.value && r.value in groups
                                    && forall j :: 0 <= j < i ==> priority[j] !in groups
  {
    if priority == [] then None
    else if priority[0] in groups then Some(priority[0])
    else
      var r := FirstListed(priority[1..], groups);
      assert forall i :: 1 <= i < |priority| ==> priority[i] == priority[1..][i - 1];
      r
  }

  /** The primary role: the highest-priority group the caller belongs to, else the `custom:role` claim when non-empty. */
  function PrimaryRole(groups: seq<string>, customRole: string): (role: Option<string>)
    ensures role.None? <==> FirstListed(RolePriority, groups).None? && customRole == ""
    ensures FirstListed(RolePriority, groups).Some? ==> role == FirstListed(RolePriority, groups)
    ensures FirstListed(RolePriority, groups).None? ==> role == (if customRole != "" then Some(customRole) else None)
  {
    match FirstListed(RolePriority, groups)
    case Some(r) => Some(r)
    case None => if customRole != "" then Some(customRole) else None
  }

  /** The loop over the priority list that stops at the first group the caller has. */
  method ResolvePrimaryRole(claims: Claims) returns (role: Option<string>)
    ensures role == PrimaryRole(Groups(claims), Claim(claims, "custom:role"))
  {
    var groups := Groups(claims);
    role := None;
    var i := 0;
    while i < |RolePriority|
      invariant 0 <= i <= |RolePriority|
      invariant FirstListed(RolePriority[i..], groups) == FirstListed(RolePriority, groups)
    {
      if RolePriority[i] in groups {
        role := Some(RolePriority[i]);
        break;
      }
      assert RolePriority[i..][1..] == RolePriority[i + 1..];
      i := i + 1;
    }
    var customRole := Claim(claims, "custom:role");
    if role.None? && customRole != "" {
      role := Some(customRole);
    }
  }

  /** Membership of the admin group decides the role, whatever else the caller has. */
  lemma AdminFirst(groups: seq<string>, customRole: string)
    requires "admin" in groups
    ensures PrimaryRole(groups, customRole) == Some("admin")
  {
    assert RolePriority[0] == "admin";
  }

  /** Healthcare outranks lab and the custom role, but not admin. */
  lemma HealthcareSecond(groups: seq<string>, customRole: string)
    requires "admin" !in groups && "healthcare" in groups
    ensures PrimaryRole(groups, customRole) == Some("healthcare")
  {
    assert RolePriority[0] !in groups;
    assert RolePriority[1..][0] == "healthcare";
    assert FirstListed(RolePriority[1..], groups) == Some("healthcare");
  }

  /** Lab outranks the custom role claim when neither admin nor healthcare is held. */
  lemma LabThird(groups: seq<string>, customRole: string)
    requires "admin" !in groups && "healthcare" !in groups && "lab" in groups
    ensures PrimaryRole(groups, customRole) == Some("lab")
  {
    assert RolePriority[0] !in groups;
    assert RolePriority[1..][0] !in groups;
    assert RolePriority[1..][1..][0] == "lab";
    assert FirstListed(RolePriority[1..][1..], groups) == Some("lab");
  }

  /** Without any of the three groups, the custom role claim is used. */
  lemma CustomRoleFallback(groups: seq<string>, customRole: string)
    requires "admin" !in groups && "healthcare" !in groups && "lab" !in groups
    ensures PrimaryRole(groups, customRole) == if customRole != "" then Some(customRole) else None
  {
    assert forall i :: 0 <= i < |RolePriority| ==> RolePriority[i] !in groups;
  }

  /** Group names are compared exactly: a space after the comma hides a group. */
  lemma SpacedGroupIgnored()
    ensures PrimaryRole(Groups(map["cognito:groups" := "lab, admin"]), "") == Some("lab")
  {
    SpacedGroups();
    var groups: seq<string> := ["lab", " admin"];
    assert groups[0] == RolePriority[2];
    assert "admin" !in groups by {
      assert |groups[0]| != 5 && |groups[1]| != 5;
    }
    assert "healthcare" !in groups by {
      assert |groups[0]| != 10 && |groups[1]| != 10;
    }
  }

  lemma SpacedGroups()
    ensures Groups(map["cognito:groups" := "lab, admin"]) == ["lab", " admin"]
  {
    var claims := map["cognito:groups" := "lab, admin"];
    assert Claim(claims, "cognito:groups") == "lab, admin";
    SplitSpaced();
  }

  lemma SplitSpaced()
    ensures Split("lab, admin", ',') == ["lab", " admin"]
  {
    var tail := " admin";
    assert ',' !in tail;
    assert Split(tail, ',') == [tail];
    assert "lab, admin" == "lab" + [','] + tail;
    SplitAfterPrefix("lab", ',', tail);
  }

  // ---------------------------------------------------------------------------
  // Python's int() on a query parameter

  predicate IsDigit(c: char) {
    '0' <= c <= '9'
  }

  /** The value of a non-empty run of decimal digits. */
  function DigitsValue(s: string): (n: nat)
    requires forall i :: 0 <= i < |s| ==> IsDigit(s[i])
  {
    if s == [] then 0
    else
      assert IsDigit(s[|s| - 1]);
      DigitsValue(s[..|s| - 1]) * 10 + (s[|s| - 1] as int - '0' as int)
  }

  /**
   * `int(s)` for a string: surrounding whitespace, an optional sign, then at
   * least one digit; None where Python raises ValueError.
   */
  function ParseInt(s: string): (r: Option<int>)
    ensures r.Some? ==> Strip(s) != []
  {
    var t := Strip(s);
    var negative := t != [] && t[0] == '-';
    var digits := if t != [] && (t[0] == '-' || t[0] == '+') then t[1..] else t;
    if digits == [] || exists i :: 0 <= i < |digits| && !IsDigit(digits[i]) then None
    else
      var value: int := DigitsValue(digits);
      Some(if negative then -value else value)
  }

  /** The decimal digits of `n`, as `str(n)` writes them. */
  function ShowNat(n: nat): (s: string)
    ensures s != [] && forall i :: 0 <= i < |s| ==> IsDigit(s[i])
    ensures !IsSpace(s[0]) && !IsSpace(s[|s| - 1])
  {
    if n < 10 then [('0' as int + n) as char]
    else ShowNat(n / 10) + [('0' as int + n % 10) as char]
  }

  /** `str(n)` for any integer. */
  function ShowInt(n: int): (s: string)
    ensures IsTrimmed(s)
  {
    if n < 0 then "-" + ShowNat(-n) else ShowNat(n)
  }

  lemma {:induction false} DigitsValueShowNat(n: nat)
    ensures DigitsValue(ShowNat(n)) == n
  {
    if n >= 10 {
      DigitsValueShowNat(n / 10);
      var s := ShowNat(n);
      assert s[..|s| - 1] == ShowNat(n / 10);
    }
  }

  /** `int(str(n)) == n`: the parser reads back what Python writes. */
  lemma ParseIntShowInt(n: int)
    ensures ParseInt(ShowInt(n)) == Some(n)
  {
    var s := ShowInt(n);
    StripTrimmed(s);
    if n < 0 {
      DigitsValueShowNat(-n);
      assert s[1..] == ShowNat(-n);
    } else {
      DigitsValueShowNat(n);
    }
  }

  /** A query parameter read as `int(params.get(name, default))`: None where `int()` raises. */
  function IntParam(params: map<string, string>, name: string, default: int): (r: Option<int>)
    ensures name !in params ==> r == Some(default)
    ensures name in params ==> r == ParseInt(params[name])
  {
    if name in params then ParseInt(params[name]) else Some(default)
  }
}
