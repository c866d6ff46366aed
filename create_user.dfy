/**
 * The admin-only user creation endpoint (lambda/create_user/handler.py): how
 * the caller's groups are found among the claims, who counts as an admin, the
 * ordered validation of the request body, the attribute list sent to the user
 * pool, and the retry loop that draws the temporary password.
 */
module CreateUser {
  import opened Wrappers
  import opened Text

  // ---------------------------------------------------------------------------
  // Claims and groups

  /** A claim value as the authorizer hands it over: a string, a list of strings, or anything else. */
  datatype ClaimValue = Str(s: string) | StrList(items: seq<string>) | NonString

  /** The claims dictionary, in its iteration order. */
  type ClaimList = seq<(string, ClaimValue)>

  /** `'group' in key.lower()`: the keys the claims loop takes the groups from. */
  predicate IsGroupsKey(key: string) {
    Contains(Lower(key), "group")
  }

  /** The value of the last claim whose key mentions groups, if any: the claims loop overwrites on every match. */
  function LastGroupsClaim(claims: ClaimList): (v: Option<ClaimValue>)
    ensures v.None? <==> forall i :: 0 <= i < |claims| ==> !IsGroupsKey(claims[i].0)
    ensures v.Some? ==> exists i :: 0 <= i < |claims| && IsGroupsKey(claims[i].0) && claims[i].1 == v.value
                                    && forall j :: i < j < |claims| ==> !IsGroupsKey(claims[j].0)
  {
    if claims == [] then None
    else
      var init, last := claims[..|claims| - 1], claims[|claims| - 1];
      if IsGroupsKey(last.0) then Some(last.1)
      else
        var v := LastGroupsClaim(init);
        assert forall i :: 0 <= i < |init| ==> init[i] == claims[i];
        v
  }

  /** `claims.get(key)`. */
  function Lookup(claims: ClaimList, key: string): (v: Option<ClaimValue>)
    ensures v.Some? ==> (key, v.value) in claims
    ensures v.None? ==> forall i :: 0 <= i < |claims| ==> claims[i].0 != key
  {
    if claims == [] then None
    else if claims[0].0 == key then Some(claims[0].1)
    else
      var v := Lookup(claims[1..], key);
      assert forall i :: 1 <= i < |claims| ==> claims[i] == claims[1..][i - 1];
      v
  }

  /** `cognito:groups` is one of the keys the claims loop reads. */
  lemma CognitoGroupsKey()
    ensures IsGroupsKey("cognito:groups")
  {
    CognitoGroupsLower();
    CognitoGroupsContains();
  }

  lemma CognitoGroupsLower()
    ensures Lower("cognito:groups") == "cognito:groups"
  {
    LowerOfLowercase("cognito:groups");
  }

  lemma CognitoGroupsContains()
    ensures Contains("cognito:groups", "group")
  {
    var key, p := "cognito:groups", "group";
    assert key[8] == p[0] && key[9] == p[1] && key[10] == p[2] && key[11] == p[3] && key[12] == p[4];
    ContainsAt(key, p, 8);
  }

  /** `lower()` leaves a string without capitals as it is. */
  lemma LowerOfLowercase(s: string)
    requires forall i :: 0 <= i < |s| ==> !('A' <= s[i] <= 'Z')
    ensures Lower(s) == s
  {
  }

  /**
   * The lookup of `cognito:groups` followed by the loop over every claim: the
   * first step never decides the outcome, because that key mentions groups and
   * the loop sees it again.
   */
  method FindGroupsClaim(claims: ClaimList) returns (userGroups: Option<ClaimValue>)
    ensures userGroups == LastGroupsClaim(claims)
  {
    userGroups := None;
    var direct := Lookup(claims, "cognito:groups");
    if direct.Some? {
      userGroups := direct;
    }
    ghost var initial := userGroups;
    for i := 0 to |claims|
      invariant userGroups == if LastGroupsClaim(claims[..i]).Some? then LastGroupsClaim(claims[..i]) else initial
    {
      assert claims[..i + 1][..i] == claims[..i];
      if IsGroupsKey(claims[i].0) {
        userGroups := Some(claims[i].1);
      }
    }
    assert claims[..|claims|] == claims;
    if direct.Some? {
      CognitoGroupsKey();
    }
  }

  /** `g.strip()` of every piece. */
  function StripAll(parts: seq<string>): (stripped: seq<string>)
    ensures |stripped| == |parts|
    ensures forall i :: 0 <= i < |parts| ==> stripped[i] == Strip(parts[i])
  {
    seq(|parts|, i requires 0 <= i < |parts| => Strip(parts[i]))
  }

  /** The pieces that are not empty, in order. */
  function NonBlank(parts: seq<string>): (kept: seq<string>)
    ensures |kept| <= |parts|
    ensures forall g :: g in kept <==> g in parts && g != ""
  {
    if parts == [] then []
    else
      var init, last := parts[..|parts| - 1], parts[|parts| - 1];
      assert parts == init + [last];
      if last != "" then NonBlank(init) + [last] else NonBlank(init)
  }

  /** The group list: a non-empty string is split on commas, trimmed and cleared of blanks; a list is kept; anything else gives none. */
  function ParseGroups(userGroups: Option<ClaimValue>): (groups: seq<string>)
    ensures userGroups.Some? && userGroups.value.Str? ==>
              forall g :: g in groups <==> g != "" && g in StripAll(Split(userGroups.value.s, ','))
    ensures userGroups.Some? && userGroups.value.StrList? ==> groups == userGroups.value.items
    ensures userGroups.None? || userGroups.value.NonString? ==> groups == []
  {
    match userGroups
    case Some(Str(s)) =>
      if s == "" then [] else NonBlank(StripAll(Split(s, ',')))
    case Some(StrList(items)) => items
    case _ => []
  }

  /** One of the groups is `admin` in any case. */
  predicate AdminGroup(groups: seq<string>) {
    exists i :: 0 <= i < |groups| && Lower(groups[i]) == "admin"
  }

  /**
   * The authorization step. A group that is `admin` decides it before the role
   * claim is looked at (`or` short-circuits); otherwise a `custom:role` claim
   * that is not a string has no `lower()`, the check raises and the handler
   * answers 401 (None); otherwise the role claim decides.
   */
  function AdminCheck(claims: ClaimList): (admin: Option<bool>)
    ensures AdminGroup(ParseGroups(LastGroupsClaim(claims))) ==> admin == Some(true)
    ensures admin.None? <==>
              !AdminGroup(ParseGroups(LastGroupsClaim(claims)))
              && Lookup(claims, "custom:role").Some? && !Lookup(claims, "custom:role").value.Str?
    ensures admin == Some(true) <==>
              AdminGroup(ParseGroups(LastGroupsClaim(claims)))
              || (Lookup(claims, "custom:role").Some? && Lookup(claims, "custom:role").value.Str?
                  && Lower(Lookup(claims, "custom:role").value.s) == "admin")
  {
    if AdminGroup(ParseGroups(LastGroupsClaim(claims))) then Some(true)
    else
      match Lookup(claims, "custom:role")
      case None => Some(false)
      case Some(Str(role)) => Some(Lower(role) == "admin")
      case Some(_) => None
  }

  /** A group admin is accepted even when its role claim is not a string. */
  lemma GroupAdminWithOddRoleClaim()
    ensures AdminCheck([("custom:role", NonString), ("cognito:groups", Str("admin"))]) == Some(true)
  {
    var claims := [("custom:role", NonString), ("cognito:groups", Str("admin"))];
    OddRoleClaimGroups(claims);
    AdminParsed();
    AdminLower();
    AdminByGroup(claims, "admin");
  }

  lemma AdminLower()
    ensures Lower("admin") == "admin"
  {
    LowerOfLowercase("admin");
  }

  lemma AdminParsed()
    ensures "admin" in ParseGroups(Some(Str("admin")))
  {
    var s := "admin";
    assert ',' !in s;
    assert Split(s, ',') == [s];
    AdminUntrimmed();
    assert StripAll([s])[0] == s;
  }

  lemma OddRoleClaimGroups(claims: ClaimList)
    requires claims == [("custom:role", NonString), ("cognito:groups", Str("admin"))]
    ensures LastGroupsClaim(claims) == Some(Str("admin"))
  {
    CognitoGroupsKey();
  }

  lemma AdminUntrimmed()
    ensures Strip("admin") == "admin"
  {
    var t := "admin";
    assert t[0] == 'a' && t[|t| - 1] == 'n';
    assert StripRight(t) == t;
    assert StripLeft(t) == t;
  }

  /** A comma-separated groups claim is trimmed here, so `Admin` after a space still makes an admin. */
  lemma SpacedAdminAccepted()
    ensures AdminCheck([("cognito:groups", Str("lab, Admin"))]) == Some(true)
  {
    var claims := [("cognito:groups", Str("lab, Admin"))];
    SingleGroupsClaim(claims);
    SpacedAdminParsed();
    LowerAdmin();
    NoRoleClaim(claims);
    AdminByGroup(claims, "Admin");
  }

  lemma SingleGroupsClaim(claims: ClaimList)
    requires claims == [("cognito:groups", Str("lab, Admin"))]
    ensures LastGroupsClaim(claims) == Some(Str("lab, Admin"))
  {
    CognitoGroupsKey();
  }

  /** A group that lower-cases to `admin` makes an admin, whatever the role claim holds. */
  lemma AdminByGroup(claims: ClaimList, g: string)
    requires g in ParseGroups(LastGroupsClaim(claims)) && Lower(g) == "admin"
    ensures AdminCheck(claims) == Some(true)
  {
    var groups := ParseGroups(LastGroupsClaim(claims));
    var k :| 0 <= k < |groups| && groups[k] == g;
  }

  lemma SpacedAdminParsed()
    ensures "Admin" in ParseGroups(Some(Str("lab, Admin")))
  {
    SpacedAdminSplit();
    AdminStripped();
    assert StripAll(Split("lab, Admin", ','))[1] == "Admin";
  }

  lemma AdminStripped()
    ensures Strip(" Admin") == "Admin"
  {
    var t := "Admin";
    assert t[0] == 'A' && t[|t| - 1] == 'n';
    StripLeadingSpace(" Admin", t);
  }

  lemma SpacedAdminSplit()
    ensures Split("lab, Admin", ',') == ["lab", " Admin"]
  {
    var tail := " Admin";
    assert ',' !in tail;
    assert Split(tail, ',') == [tail];
    assert "lab, Admin" == "lab" + [','] + tail;
    SplitAfterPrefix("lab", ',', tail);
  }

  lemma LowerAdmin()
    ensures Lower("Admin") == "admin"
  {
    var s := "Admin";
    assert Lower(s)[0] == 'a';
    assert s[1..] == "dmin";
    LowerOfLowercase("dmin");
    assert Lower(s) == [LowerChar(s[0])] + Lower(s[1..]);
  }

  lemma NoRoleClaim(claims: ClaimList)
    requires claims == [("cognito:groups", Str("lab, Admin"))]
    ensures Lookup(claims, "custom:role") == None
  {
    assert |claims[0].0| != |"custom:role"|;
  }

  lemma StripLeadingSpace(s: string, t: string)
    requires s == " " + t && t != [] && !IsSpace(t[0]) && !IsSpace(t[|t| - 1])
    ensures Strip(s) == t
  {
    assert StripRight(s) == s;
    assert s[1..] == t;
    assert StripLeft(t) == t;
  }

  // ---------------------------------------------------------------------------
  // The request body

  /** The JSON body, reduced to its string fields; an empty string stands for any falsy value. */
  type Body = map<string, string>

  /** `body.get(field)` is truthy. */
  predicate Given(body: Body, field: string) {
    field in body && body[field] != ""
  }

  const RequiredFields: seq<string> := ["email", "name", "role"]

  const ValidRoles: seq<string> := ["lab", "healthcare", "admin"]

  /** The first field of `fields` the body lacks, in the order they are listed. */
  function FirstMissing(body: Body, fields: seq<string>): (missing: Option<string>)
    ensures missing.None? <==> forall i :: 0 <= i < |fields| ==> Given(body, fields[i])
    ensures missing.Some? ==> exists i :: 0 <= i < |fields| && fields[i] == missing.value && !Given(body, fields[i])
                                          && forall j :: 0 <= j < i ==> Given(body, fields[j])
  {
    if fields == [] then None
    else if !Given(body, fields[0]) then Some(fields[0])
    else
      var missing := FirstMissing(body, fields[1..]);
      assert forall i :: 1 <= i < |fields| ==> fields[i] == fields[1..][i - 1];
      missing
  }

  /** The loop over the required fields that stops at the first one missing. */
  method CheckRequired(body: Body) returns (missing: Option<string>)
    ensures missing == FirstMissing(body, RequiredFields)
  {
    for i := 0 to |RequiredFields|
      invariant FirstMissing(body, RequiredFields[i..]) == FirstMissing(body, RequiredFields)
    {
      if !Given(body, RequiredFields[i]) {
        return Some(RequiredFields[i]);
      }
      assert RequiredFields[i..][1..] == RequiredFields[i + 1..];
    }
    return None;
  }

  /** A name and value pair of the user pool's attribute list. */
  datatype Attribute = Attribute(name: string, value: string)

  /** The attributes the user is created with, in the order they are listed. */
  function Attributes(body: Body): (attrs: seq<Attribute>)
    requires Given(body, "email") && Given(body, "name") && Given(body, "role")
    ensures |attrs| == if Given(body, "clinic_id") then 5 else 4
    ensures attrs[..4] == [Attribute("email", body["email"]), Attribute("email_verified", "true"),
                           Attribute("given_name", body["name"]), Attribute("custom:role", body["role"])]
    ensures Given(body, "clinic_id") ==> attrs[4] == Attribute("custom:clinic_id", body["clinic_id"])
  {
    var base := [Attribute("email", body["email"]), Attribute("email_verified", "true"),
                 Attribute("given_name", body["name"]), Attribute("custom:role", body["role"])];
    if Given(body, "clinic_id") then base + [Attribute("custom:clinic_id", body["clinic_id"])] else base
  }

  // ---------------------------------------------------------------------------
  // The temporary password

  predicate IsLowerChar(c: char) { 'a' <= c <= 'z' }
  predicate IsUpperChar(c: char) { 'A' <= c <= 'Z' }
  predicate IsDigitChar(c: char) { '0' <= c <= '9' }
  predicate IsSymbolChar(c: char) {
    c == '!' || c == '@' || c == '#' || c == '$' || c == '%' || c == '^' || c == '&' || c == '*'
  }

  /** Membership of `string.ascii_letters + string.digits + "!@#$%^&*"`. */
  predicate InAlphabet(c: char) {
    IsLowerChar(c) || IsUpperChar(c) || IsDigitChar(c) || IsSymbolChar(c)
  }

  const Symbols := "!@#$%^&*"
  const AlphabetSize := 70

  /** Character `k` of the alphabet: the lower-case letters, the upper-case letters, the digits, then the symbols. */
  function AlphabetAt(k: nat): (c: char)
    requires k < AlphabetSize
    ensures InAlphabet(c)
    ensures k < 26 <==> IsLowerChar(c)
    ensures 26 <= k < 52 <==> IsUpperChar(c)
    ensures 52 <= k < 62 <==> IsDigitChar(c)
    ensures 62 <= k <==> IsSymbolChar(c)
  {
    if k < 26 then ('a' as int + k) as char
    else if k < 52 then ('A' as int + (k - 26)) as char
    else if k < 62 then ('0' as int + (k - 52)) as char
    else
      var i := k - 62;
      assert i < 8;
      Symbols[i]
  }

  const PasswordLength := 12

  /** The four checks a drawn password must pass. */
  predicate Acceptable(p: string) {
    && (exists i :: 0 <= i < |p| && IsLowerChar(p[i]))
    && (exists i :: 0 <= i < |p| && IsUpperChar(p[i]))
    && (exists i :: 0 <= i < |p| && IsDigitChar(p[i]))
    && (exists i :: 0 <= i < |p| && IsSymbolChar(p[i]))
  }

  /** What the generator promises of its result. */
  predicate TempPasswordOk(p: string) {
    |p| == PasswordLength && (forall i :: 0 <= i < |p| ==> InAlphabet(p[i])) && Acceptable(p)
  }

  /**
   * Character `i` of attempt `attempt`: `pick` stands for `secrets.choice`,
   * numbering the draws of all attempts one after another.
   */
  function Drawn(pick: nat -> nat, attempt: nat, i: nat): (c: char)
    ensures InAlphabet(c)
  {
    AlphabetAt(pick(attempt * PasswordLength + i) % AlphabetSize)
  }

  /** The password of attempt `attempt`: twelve consecutive draws. */
  function Candidate(pick: nat -> nat, attempt: nat): (p: string)
    ensures |p| == PasswordLength
    ensures forall i :: 0 <= i < PasswordLength ==> p[i] == Drawn(pick, attempt, i)
  {
    seq(PasswordLength, i requires 0 <= i < PasswordLength => Drawn(pick, attempt, i))
  }

  /** Every candidate is twelve alphabet characters, so an accepted one meets all the rules. */
  lemma CandidateOk(pick: nat -> nat, attempt: nat)
    requires Acceptable(Candidate(pick, attempt))
    ensures TempPasswordOk(Candidate(pick, attempt))
  {
    var p := Candidate(pick, attempt);
    forall i | 0 <= i < |p| ensures InAlphabet(p[i]) {
      assert p[i] == Drawn(pick, attempt, i);
    }
  }

  /**
   * The first attempt from `attempt` on whose candidate is acceptable, trying
   * at most `fuel` of them: the source retries without bound, so `fuel` only
   * limits the model.
   */
  function FirstAccepted(pick: nat -> nat, attempt: nat, fuel: nat): (k: Option<nat>)
    ensures k.Some? ==> attempt <= k.value < attempt + fuel && Acceptable(Candidate(pick, k.value))
    ensures k.Some? ==> forall j :: attempt <= j < k.value ==> !Acceptable(Candidate(pick, j))
    ensures k.None? ==> forall j :: attempt <= j < attempt + fuel ==> !Acceptable(Candidate(pick, j))
    decreases fuel
  {
    if fuel == 0 then None
    else if Acceptable(Candidate(pick, attempt)) then Some(attempt)
    else FirstAccepted(pick, attempt + 1, fuel - 1)
  }

  /** `''.join(secrets.choice(alphabet) for _ in range(12))`: the twelve draws of one attempt. */
  method Draw(pick: nat -> nat, attempt: nat) returns (candidate: string)
    ensures candidate == Candidate(pick, attempt)
  {
    candidate := "";
    for i := 0 to PasswordLength
      invariant |candidate| == i
      invariant forall j :: 0 <= j < i ==> candidate[j] == Drawn(pick, attempt, j)
    {
      candidate := candidate + [Drawn(pick, attempt, i)];
    }
  }

  /** `generate_temp_password`: draw twelve characters, keep them if they pass the checks, else draw again. */
  method GenerateTempPassword(pick: nat -> nat, fuel: nat) returns (password: Option<string>)
    ensures password.None? <==> FirstAccepted(pick, 0, fuel).None?
    ensures password.Some? ==> password.value == Candidate(pick, FirstAccepted(pick, 0, fuel).value)
    ensures password.Some? ==> TempPasswordOk(password.value)
  {
    var attempt := 0;
    while attempt < fuel
      invariant 0 <= attempt <= fuel
      invariant FirstAccepted(pick, attempt, fuel - attempt) == FirstAccepted(pick, 0, fuel)
    {
      var candidate := Draw(pick, attempt);
      if Acceptable(candidate) {
        CandidateOk(pick, attempt);
        return Some(candidate);
      }
      attempt := attempt + 1;
    }
    return None;
  }

  /** A draw with one character of each class is accepted, so the loop has something to stop at. */
  lemma AcceptableCandidate()
    ensures TempPasswordOk("aA0!aA0!aA0!")
  {
    var p := "aA0!aA0!aA0!";
    assert IsLowerChar(p[0]) && IsUpperChar(p[1]) && IsDigitChar(p[2]) && IsSymbolChar(p[3]);
  }

  /** A draw of letters only is refused and drawn again. */
  lemma LettersOnlyRefused()
    ensures !Acceptable("abcdefABCDEF")
  {
    var p := "abcdefABCDEF";
    assert forall i :: 0 <= i < |p| ==> !IsDigitChar(p[i]);
  }

  // ---------------------------------------------------------------------------
  // The handler

  datatype Request = Request(httpMethod: string, claims: ClaimList, body: Option<Body>)

  /** How the user pool answered the create and set-password calls. */
  datatype PoolOutcome = Created(userSub: string) | UsernameExists | PoolFailure

  /** The `admin_create_user` call the handler makes. */
  datatype CreateCall = CreateCall(username: string, attributes: seq<Attribute>, temporaryPassword: string, group: string)

  /** The refusals, each with its status code. */
  datatype Refusal =
    | Unauthorized
    | AccessDenied
    | MissingField(field: string)
    | InvalidRole
    | ClinicRequired
    | UserExists
    | InternalError
  {
    function Status(): int {
      match this
      case Unauthorized => 401
      case AccessDenied => 403
      case InternalError => 500
      case _ => 400
    }
  }

  datatype Reply =
    | Preflight
    | Failure(refusal: Refusal)
    | UserCreated(username: string, temporaryPassword: string, userSub: string)

  datatype Response = Response(status: int, reply: Reply, call: Option<CreateCall>)

  function Refuse(refusal: Refusal): Response {
    Response(refusal.Status(), Failure(refusal), None)
  }

  /** `body['role'] in valid_roles`. */
  predicate ValidRole(role: string) {
    role == "lab" || role == "healthcare" || role == "admin"
  }

  /** What the handler answers once the caller is known to be an admin and the body has been read. */
  function CreateFor(body: Body, password: string, pool: PoolOutcome): Response {
    match FirstMissing(body, RequiredFields)
    case Some(field) => Refuse(MissingField(field))
    case None =>
      assert Given(body, RequiredFields[0]) && Given(body, RequiredFields[1]) && Given(body, RequiredFields[2]);
      if !ValidRole(body["role"]) then Refuse(InvalidRole)
      else if !Given(body, "clinic_id") && body["role"] == "lab" then Refuse(ClinicRequired)
      else
        var call := Some(CreateCall(body["email"], Attributes(body), password, body["role"]));
        match pool
        case Created(sub) => Response(200, UserCreated(body["email"], password, sub), call)
        case UsernameExists => Response(UserExists.Status(), Failure(UserExists), call)
        case PoolFailure => Response(InternalError.Status(), Failure(InternalError), call)
  }

  /**
   * What the handler answers. `body` is None where the body cannot be read as
   * a JSON object; `password` is what `generate_temp_password` returned.
   */
  function Expected(req: Request, password: string, pool: PoolOutcome): Response {
    if req.httpMethod == "OPTIONS" then Response(200, Preflight, None)
    else
      match AdminCheck(req.claims)
      case None => Refuse(Unauthorized)
      case Some(false) => Refuse(AccessDenied)
      case Some(true) =>
        match req.body
        case None => Refuse(InternalError)
        case Some(body) => CreateFor(body, password, pool)
  }

  /** The admin check, step by step as the source takes it. */
  method CheckAdmin(claims: ClaimList) returns (admin: Option<bool>)
    ensures admin == AdminCheck(claims)
  {
    var userGroups := FindGroupsClaim(claims);
    var groups := ParseGroups(userGroups);
    var isAdmin := false;
    if groups != [] {
      isAdmin := exists i :: 0 <= i < |groups| && Lower(groups[i]) == "admin";
    }
    assert groups == ParseGroups(LastGroupsClaim(claims));
    if isAdmin {
      return Some(true);
    }
    var customRole := Lookup(claims, "custom:role");
    var role := "";
    if customRole.Some? {
      if !customRole.value.Str? {
        return None;
      }
      role := customRole.value.s;
    }
    return Some(Lower(role) == "admin");
  }

  /** The body checks, the attribute list and the calls to the user pool. */
  method CreateFromBody(body: Body, password: string, pool: PoolOutcome) returns (r: Response)
    ensures r == CreateFor(body, password, pool)
  {
    var missing := CheckRequired(body);
    if missing.Some? {
      return Refuse(MissingField(missing.value));
    }
    assert Given(body, RequiredFields[0]) && Given(body, RequiredFields[1]) && Given(body, RequiredFields[2]);
    if !ValidRole(body["role"]) {
      return Refuse(InvalidRole);
    }
    var attributes := [Attribute("email", body["email"]), Attribute("email_verified", "true"),
                       Attribute("given_name", body["name"]), Attribute("custom:role", body["role"])];
    if Given(body, "clinic_id") {
      attributes := attributes + [Attribute("custom:clinic_id", body["clinic_id"])];
    } else if body["role"] == "lab" {
      return Refuse(ClinicRequired);
    }
    var call := Some(CreateCall(body["email"], attributes, password, body["role"]));
    match pool
    case Created(sub) =>
      r := Response(200, UserCreated(body["email"], password, sub), call);
    case UsernameExists =>
      r := Response(UserExists.Status(), Failure(UserExists), call);
    case PoolFailure =>
      r := Response(InternalError.Status(), Failure(InternalError), call);
  }

  /** The handler: the preflight answer, the admin check, then the body. */
  method Handle(req: Request, password: string, pool: PoolOutcome) returns (r: Response)
    ensures r == Expected(req, password, pool)
  {
    if req.httpMethod == "OPTIONS" {
      return Response(200, Preflight, None);
    }
    var admin := CheckAdmin(req.claims);
    if admin.None? {
      return Refuse(Unauthorized);
    }
    if !admin.value {
      return Refuse(AccessDenied);
    }
    if req.body.None? {
      return Refuse(InternalError);
    }
    r := CreateFromBody(req.body.value, password, pool);
  }

  // ---------------------------------------------------------------------------
  // Properties of the handler

  /** Only a preflight request or an admin's request can succeed, and only an admin's reaches the user pool. */
  lemma OnlyAdminsCreate(req: Request, password: string, pool: PoolOutcome)
    ensures var r := Expected(req, password, pool);
            && (req.httpMethod == "OPTIONS" ==> r == Response(200, Preflight, None))
            && (req.httpMethod != "OPTIONS" && AdminCheck(req.claims) == Some(false) ==> r == Refuse(AccessDenied))
            && (req.httpMethod != "OPTIONS" && AdminCheck(req.claims).None? ==> r == Refuse(Unauthorized))
            && (r.call.Some? ==> req.httpMethod != "OPTIONS" && AdminCheck(req.claims) == Some(true) && req.body.Some?)
  {
  }

  /**
   * The user pool is only called when the body names an email, a name and a
   * valid role, with a clinic for a lab user; it is called with the email as
   * the user name, the role as the group, and the attribute list.
   */
  lemma CallOnlyWhenValid(body: Body, password: string, pool: PoolOutcome)
    requires CreateFor(body, password, pool).call.Some?
    ensures var call := CreateFor(body, password, pool).call.value;
            && Given(body, "email") && Given(body, "name") && Given(body, "role")
            && ValidRole(body["role"])
            && (body["role"] == "lab" ==> Given(body, "clinic_id"))
            && call == CreateCall(body["email"], Attributes(body), password, body["role"])
  {
    assert FirstMissing(body, RequiredFields).None?;
    assert Given(body, RequiredFields[0]) && Given(body, RequiredFields[1]) && Given(body, RequiredFields[2]);
  }

  /** Missing fields are reported in the order email, name, role, before the role's value is looked at. */
  lemma MissingFieldsInOrder(body: Body, password: string, pool: PoolOutcome)
    ensures !Given(body, "email") ==> CreateFor(body, password, pool) == Refuse(MissingField("email"))
    ensures Given(body, "email") && !Given(body, "name") ==> CreateFor(body, password, pool) == Refuse(MissingField("name"))
    ensures Given(body, "email") && Given(body, "name") && !Given(body, "role") ==>
              CreateFor(body, password, pool) == Refuse(MissingField("role"))
  {
    assert RequiredFields[0] == "email" && RequiredFields[1] == "name" && RequiredFields[2] == "role";
  }

  /** A lab user without a clinic is refused before the user pool is called. */
  lemma LabNeedsClinic(body: Body, password: string, pool: PoolOutcome)
    requires Given(body, "email") && Given(body, "name") && Given(body, "role")
    requires body["role"] == "lab" && !Given(body, "clinic_id")
    ensures CreateFor(body, password, pool) == Refuse(ClinicRequired)
  {
    assert FirstMissing(body, RequiredFields).None? by {
      assert RequiredFields[0] == "email" && RequiredFields[1] == "name" && RequiredFields[2] == "role";
    }
  }

  /** On success the reply hands back the user name and the password the user was created with, and the pool's id for it. */
  lemma CreatedReturnsPassword(body: Body, password: string, pool: PoolOutcome)
    requires CreateFor(body, password, pool).status == 200
    ensures var r := CreateFor(body, password, pool);
            && pool.Created? && r.call.Some?
            && r.reply == UserCreated(r.call.value.username, r.call.value.temporaryPassword, pool.userSub)
            && r.call.value.temporaryPassword == password
  {
  }
}
