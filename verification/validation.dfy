/** The request-body schemas: `signUpSchema` (signup.ts) and `signInSchema`
    (signin.ts). A body field is `None` when the JSON body lacks it. zod
    checks every field and reports one issue per field that fails, in the
    order the schema lists them; its `email()` check is a foreign regular
    expression and is passed in as `isEmail`. */
module Validation {
  import opened Wrappers

  datatype IssueCode =
    | Required                  // the field is missing
    | InvalidEmail              // `email()` rejected the string
    | TooSmall(minimum: nat)    // `min(n)` rejected the string
    | InvalidEnumValue          // `enum([...])` rejected the string

  /** One entry of the `details` array of a 400 response. */
  datatype Issue = Issue(path: string, code: IssueCode)

  const Roles: set<string> := {"student", "teacher", "parent", "school_admin"}
  const AgeGroups: set<string> := {"6-11", "12-17"}
  const MinPasswordLength := 6
  const MinNameLength := 1

  datatype SignUpBody = SignUpBody(
    email: Option<string>, password: Option<string>, name: Option<string>, role: Option<string>,
    ageGroup: Option<string>, childName: Option<string>, schoolName: Option<string>,
    packageId: Option<string>)

  /** What `signUpSchema.parse` returns: the required fields are present. */
  datatype SignUpData = SignUpData(
    email: string, password: string, name: string, role: string,
    ageGroup: Option<string>, childName: Option<string>, schoolName: Option<string>,
    packageId: Option<string>)

  datatype SignInBody = SignInBody(email: Option<string>, password: Option<string>)

  datatype Credentials = Credentials(email: string, password: string)

  /** Some issue of `issues` is about the field `path`. */
  predicate Flags(issues: seq<Issue>, path: string) {
    exists i :: 0 <= i < |issues| && issues[i].path == path
  }

  /** Which fields a concatenation of issue lists flags. */
  lemma FlagsConcat(a: seq<Issue>, b: seq<Issue>, path: string)
    ensures Flags(a + b, path) <==> Flags(a, path) || Flags(b, path)
  {
    if Flags(a + b, path) {
      var i :| 0 <= i < |a + b| && (a + b)[i].path == path;
      if i >= |a| {
        assert b[i - |a|].path == path;
      }
    }
    if Flags(a, path) {
      var i :| 0 <= i < |a| && a[i].path == path;
      assert (a + b)[i].path == path;
    }
    if Flags(b, path) {
      var i :| 0 <= i < |b| && b[i].path == path;
      assert (a + b)[i + |a|].path == path;
    }
  }

  /** A list of issues all about one field flags that field alone. */
  predicate About(issues: seq<Issue>, path: string) {
    forall i :: 0 <= i < |issues| ==> issues[i].path == path
  }

  lemma FlagsAbout(issues: seq<Issue>, field: string, path: string)
    requires About(issues, field)
    ensures Flags(issues, path) <==> issues != [] && path == field
  {
    if issues != [] && path == field {
      assert issues[0].path == path;
    }
  }

  /** The fields flagged by the five per-field checks of `signUpSchema`. */
  lemma FlagsOfFive(e: seq<Issue>, p: seq<Issue>, n: seq<Issue>, r: seq<Issue>, a: seq<Issue>, path: string)
    requires About(e, "email") && About(p, "password") && About(n, "name")
    requires About(r, "role") && About(a, "ageGroup")
    ensures Flags(e + p + n + r + a, path) <==>
      || (e != [] && path == "email") || (p != [] && path == "password") || (n != [] && path == "name")
      || (r != [] && path == "role") || (a != [] && path == "ageGroup")
  {
    FlagsConcat(e, p, path);
    FlagsConcat(e + p, n, path);
    FlagsConcat(e + p + n, r, path);
    FlagsConcat(e + p + n + r, a, path);
    FlagsAbout(e, "email", path);
    FlagsAbout(p, "password", path);
    FlagsAbout(n, "name", path);
    FlagsAbout(r, "role", path);
    FlagsAbout(a, "ageGroup", path);
  }

  /** `z.string().email()`. */
  function EmailIssues(email: Option<string>, isEmail: string -> bool): (issues: seq<Issue>)
    ensures About(issues, "email")
  {
    match email
    case None => [Issue("email", Required)]
    case Some(e) => if isEmail(e) then [] else [Issue("email", InvalidEmail)]
  }

  /** `z.string().min(minimum)`. */
  function MinLengthIssues(path: string, value: Option<string>, minimum: nat): (issues: seq<Issue>)
    ensures About(issues, path)
  {
    match value
    case None => [Issue(path, Required)]
    case Some(v) => if |v| >= minimum then [] else [Issue(path, TooSmall(minimum))]
  }

  /** `z.enum([...])`, optionally followed by `.optional()`. */
  function EnumIssues(path: string, value: Option<string>, allowed: set<string>, optional: bool): (issues: seq<Issue>)
    ensures About(issues, path)
  {
    match value
    case None => if optional then [] else [Issue(path, Required)]
    case Some(v) => if v in allowed then [] else [Issue(path, InvalidEnumValue)]
  }

  /** The conditions `signUpSchema` imposes. */
  predicate SignUpAcceptable(body: SignUpBody, isEmail: string -> bool) {
    && body.email.Some? && isEmail(body.email.value)
    && body.password.Some? && |body.password.value| >= MinPasswordLength
    && body.name.Some? && |body.name.value| >= MinNameLength
    && body.role.Some? && body.role.value in Roles
    && (body.ageGroup.None? || body.ageGroup.value in AgeGroups)
  }

  /** Every issue `signUpSchema` reports: a field is flagged exactly when
      its own condition fails, and only those five fields can be flagged
      (`childName`, `schoolName` and `packageId` accept any string). */
  function SignUpIssues(body: SignUpBody, isEmail: string -> bool): (issues: seq<Issue>)
    ensures Flags(issues, "email") <==> !(body.email.Some? && isEmail(body.email.value))
    ensures Flags(issues, "password") <==> !(body.password.Some? && |body.password.value| >= MinPasswordLength)
    ensures Flags(issues, "name") <==> !(body.name.Some? && |body.name.value| >= MinNameLength)
    ensures Flags(issues, "role") <==> !(body.role.Some? && body.role.value in Roles)
    ensures Flags(issues, "ageGroup") <==> (body.ageGroup.Some? && body.ageGroup.value !in AgeGroups)
    ensures issues == [] <==> SignUpAcceptable(body, isEmail)
  {
    var e := EmailIssues(body.email, isEmail);
    var p := MinLengthIssues("password", body.password, MinPasswordLength);
    var n := MinLengthIssues("name", body.name, MinNameLength);
    var r := EnumIssues("role", body.role, Roles, false);
    var a := EnumIssues("ageGroup", body.ageGroup, AgeGroups, true);
    var issues := e + p + n + r + a;
    FlagsOfFive(e, p, n, r, a, "email");
    FlagsOfFive(e, p, n, r, a, "password");
    FlagsOfFive(e, p, n, r, a, "name");
    FlagsOfFive(e, p, n, r, a, "role");
    FlagsOfFive(e, p, n, r, a, "ageGroup");
    assert issues == [] <==> e == [] && p == [] && n == [] && r == [] && a == [];
    issues
  }

  /** `signUpSchema.parse(req.body)`: the data when every condition holds,
      otherwise the issues (never none). */
  function ParseSignUp(body: SignUpBody, isEmail: string -> bool): (r: Result<SignUpData, seq<Issue>>)
    ensures r.Ok? <==> SignUpAcceptable(body, isEmail)
    ensures r.Ok? ==> && r.value.email == body.email.value && r.value.password == body.password.value
                      && r.value.name == body.name.value && r.value.role == body.role.value
                      && r.value.ageGroup == body.ageGroup && r.value.childName == body.childName
                      && r.value.schoolName == body.schoolName && r.value.packageId == body.packageId
    ensures r.Err? ==> r.error != [] && r.error == SignUpIssues(body, isEmail)
  {
    var issues := SignUpIssues(body, isEmail);
    if issues == [] then
      Ok(SignUpData(body.email.value, body.password.value, body.name.value, body.role.value,
                    body.ageGroup, body.childName, body.schoolName, body.packageId))
    else Err(issues)
  }

  /** `signInSchema.parse(req.body)`: an address `email()` accepts and any
      password string; otherwise the issues, email first. */
  function ParseSignIn(body: SignInBody, isEmail: string -> bool): (r: Result<Credentials, seq<Issue>>)
    ensures r.Ok? <==> body.email.Some? && isEmail(body.email.value) && body.password.Some?
    ensures r.Ok? ==> r.value == Credentials(body.email.value, body.password.value)
    ensures r.Err? ==> r.error != []
                       && (Flags(r.error, "email") <==> !(body.email.Some? && isEmail(body.email.value)))
                       && (Flags(r.error, "password") <==> body.password.None?)
  {
    var e := EmailIssues(body.email, isEmail);
    var p := if body.password.None? then [Issue("password", Required)] else [];
    var issues := e + p;
    FlagsConcat(e, p, "email");
    FlagsConcat(e, p, "password");
    FlagsAbout(e, "email", "email");
    FlagsAbout(e, "email", "password");
    FlagsAbout(p, "password", "email");
    FlagsAbout(p, "password", "password");
    if issues == [] then Ok(Credentials(body.email.value, body.password.value))
    else Err(issues)
  }
}
