/** The sign-in form (components/Login.tsx): a known account logs in with
    its stored role; an unknown email may still log in when it contains a
    role keyword (the demo accounts); otherwise an error is shown. The
    password is never checked. */
module Login {
  import opened Types
  import opened Text

  const NotFoundMessage: string := "User not found. Try a demo email."
  const ConnectionMessage: string := "Connection error. Please try again."

  /** The keyword chain for an email no account has: the first keyword found
      (case-sensitively) decides. */
  function InferRole(email: string): (r: Option<Role>)
    ensures r == Some(HOD) <==> Contains(email, "hod")
    ensures r == Some(Admin) <==> !Contains(email, "hod") && Contains(email, "admin")
    ensures r == Some(Staff) <==>
      !Contains(email, "hod") && !Contains(email, "admin")
      && (Contains(email, "staff") || Contains(email, "prof") || Contains(email, "dr."))
    ensures r == Some(Role.Student) <==>
      !Contains(email, "hod") && !Contains(email, "admin")
      && !Contains(email, "staff") && !Contains(email, "prof") && !Contains(email, "dr.")
      && Contains(email, "student")
  {
    if Contains(email, "hod") then Some(HOD)
    else if Contains(email, "admin") then Some(Admin)
    else if Contains(email, "staff") || Contains(email, "prof") || Contains(email, "dr.") then Some(Staff)
    else if Contains(email, "student") then Some(Role.Student)
    else None
  }

  /** What `api.getUserRole` gave back: a role, `null`, or an exception. */
  datatype Lookup = Known(role: Role) | NotFound | ConnectionFailed

  /** The effect of one submit: the role passed to `onLogin`, if any, and
      the error left on the form. */
  datatype Outcome = Outcome(login: Option<Role>, error: string)

  function Resolve(email: string, lookup: Lookup): (o: Outcome)
    ensures lookup.Known? ==> o == Outcome(Some(lookup.role), "")
    ensures lookup.NotFound? ==> o.login == InferRole(email)
    ensures lookup.NotFound? && o.login.None? ==> o.error == NotFoundMessage
    ensures lookup.ConnectionFailed? ==> o == Outcome(None, ConnectionMessage)
    ensures o.login.Some? <==> o.error == ""
  {
    match lookup
    case Known(role) => Outcome(Some(role), "")
    case NotFound =>
      var demoRole := InferRole(email);
      if demoRole.Some? then Outcome(demoRole, "") else Outcome(None, NotFoundMessage)
    case ConnectionFailed => Outcome(None, ConnectionMessage)
  }

  /** A stored role is used as it is, whatever keywords the email holds. */
  lemma StoredRoleWins(email: string, role: Role)
    ensures Resolve(email, Known(role)).login == Some(role)
  {
  }

  /** `sub` cannot occur in `s` when one of its characters is missing from `s`. */
  lemma MissingChar(s: string, sub: string, c: char)
    requires c in sub && c !in s
    ensures !Contains(s, sub)
  {
    ContainsIffOccurs(s, sub);
    var j :| 0 <= j < |sub| && sub[j] == c;
    forall k: nat | k + |sub| <= |s|
      ensures !OccursAt(s, sub, k)
    {
      assert s[k..k + |sub|][j] == s[k + j];
      assert s[k + j] in s;
    }
  }

  lemma Prefix(s: string, p: string)
    requires p <= s
    ensures Contains(s, p)
  {
  }

  /** The four demo buttons fill in emails that infer their own role. */
  lemma DemoStudent()
    ensures InferRole("student@college.edu") == Some(Role.Student)
  {
    StudentEmail("student@college.edu");
  }

  /** An email that starts with "student" and has no 'h', 'i', 'f' or 'r'
      holds none of the keywords checked before "student". */
  lemma StudentEmail(e: string)
    requires 'h' !in e && 'i' !in e && 'f' !in e && 'r' !in e
    requires "student" <= e
    ensures InferRole(e) == Some(Role.Student)
  {
    MissingChar(e, "hod", 'h');
    MissingChar(e, "admin", 'i');
    MissingChar(e, "staff", 'f');
    MissingChar(e, "prof", 'f');
    MissingChar(e, "dr.", 'r');
    Prefix(e, "student");
  }

  lemma DemoStaff()
    ensures InferRole("staff@college.edu") == Some(Staff)
  {
    StaffEmail("staff@college.edu");
  }

  /** An email that starts with "staff" and has no 'h' and no 'i' holds
      neither "hod" nor "admin". */
  lemma StaffEmail(e: string)
    requires 'h' !in e && 'i' !in e
    requires "staff" <= e
    ensures InferRole(e) == Some(Staff)
  {
    MissingChar(e, "hod", 'h');
    MissingChar(e, "admin", 'i');
    Prefix(e, "staff");
  }

  lemma DemoHod()
    ensures InferRole("hod@college.edu") == Some(HOD)
  {
    HodEmail("hod@college.edu");
  }

  lemma HodEmail(e: string)
    requires "hod" <= e
    ensures InferRole(e) == Some(HOD)
  {
    Prefix(e, "hod");
  }

  lemma DemoAdmin()
    ensures InferRole("admin@college.edu") == Some(Admin)
  {
    AdminEmail("admin@college.edu");
  }

  /** An email that starts with "admin" and has no 'h' does not hold "hod". */
  lemma AdminEmail(e: string)
    requires 'h' !in e
    requires "admin" <= e
    ensures InferRole(e) == Some(Admin)
  {
    MissingChar(e, "hod", 'h');
    Prefix(e, "admin");
  }

  /** The form's own state. */
  class LoginForm {
    var email: string
    var isLoading: bool
    var error: string

    constructor ()
      ensures email == "" && !isLoading && error == ""
    {
      email := "";
      isLoading := false;
      error := "";
    }

    /** `handleSubmit`: loading is raised and the error cleared, the role is
        resolved, and loading is dropped again whatever the outcome. */
    method Submit(lookup: Lookup) returns (login: Option<Role>)
      modifies this
      ensures login == Resolve(email, lookup).login
      ensures error == Resolve(email, lookup).error
      ensures !isLoading
      ensures email == old(email)
    {
      isLoading := true;
      error := "";
      var outcome := Resolve(email, lookup);
      login := outcome.login;
      if outcome.login.None? {
        error := outcome.error;
      }
      isLoading := false;
    }
  }
}
